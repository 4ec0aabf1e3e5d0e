/**
  Numeric literals with a base: which prefix stands for which base, which characters are digits of it,
  and which number the digits stand for, as a sum over their places.
 */
module NumberBases {
  import opened Identifiers
  import opened Lexemes
  import opened NumberLaws
  import opened Numbers
  import opened Options
  import opened Tokens
  import opened Trivia
  import opened Unicode
  import Wtf8

  /** The value of a digit: 0 to 9, then a to f in either case. */
  function DigitValue(c: nat): Option<nat> {
    if '0' as nat <= c <= '9' as nat then Some(c - '0' as nat)
    else if 'a' as nat <= c <= 'f' as nat then Some(c - 'a' as nat + 10)
    else if 'A' as nat <= c <= 'F' as nat then Some(c - 'A' as nat + 10)
    else None
  }

  function DigitOf(base: nat, c: nat): Option<nat> {
    if DigitValue(c).Some? && DigitValue(c).value < base then DigitValue(c) else None
  }

  predicate IsDigitOf(base: nat, c: nat) {
    DigitOf(base, c).Some?
  }

  /** The base that the letter after a leading zero stands for. */
  function PrefixBase(c: nat): Option<nat> {
    if c == 'b' as nat || c == 'B' as nat then Some(2)
    else if c == 'o' as nat || c == 'O' as nat then Some(8)
    else if c == 'x' as nat || c == 'X' as nat then Some(16)
    else None
  }

  function Power(base: nat, n: nat): nat {
    if n == 0 then 1 else base * Power(base, n - 1)
  }

  function DigitCount(base: nat, s: seq<Byte>): nat {
    if s == [] then 0 else (if DigitOf(base, s[0]).Some? then 1 else 0) + DigitCount(base, s[1..])
  }

  /** Each digit counts with the power of the base that the number of digits behind it gives. */
  function SumOfDigits(base: nat, s: seq<Byte>): nat {
    if s == [] then 0 else PlaceValue(base, s[0], DigitCount(base, s[1..])) + SumOfDigits(base, s[1..])
  }

  function PlaceValue(base: nat, c: nat, behind: nat): nat {
    match DigitOf(base, c)
    case Some(digit) => digit * Power(base, behind)
    case None => 0
  }

  function RadixOf(base: nat): Radix
    requires base == 2 || base == 8 || base == 10 || base == 16
  {
    if base == 2 then Binary else if base == 8 then Octal else if base == 10 then Decimal else Hex
  }

  lemma DigitIsDigitOf(radix: Radix, c: nat)
    ensures Digit(radix, c) == DigitOf(Base(radix), c)
  {
  }

  // Positional notation is the sum over the places.

  lemma {:induction false} CountOfMore(base: nat, s: seq<Byte>, c: Byte)
    ensures DigitCount(base, s + [c]) == DigitCount(base, s) + if DigitOf(base, c).Some? then 1 else 0
  {
    hide DigitOf;
    if s != [] {
      assert (s + [c])[1..] == s[1..] + [c];
      CountOfMore(base, s[1..], c);
    }
  }

  lemma ShiftPlace(base: nat, c: nat, n: nat)
    ensures PlaceValue(base, c, n + 1) == base * PlaceValue(base, c, n)
  {
    hide DigitOf;
    match DigitOf(base, c)
    case Some(digit) => MoveFactor(digit, base, Power(base, n));
    case None =>
  }

  lemma MoveFactor(a: nat, b: nat, c: nat)
    ensures a * (b * c) == b * (a * c)
  {
  }

  lemma Distributes(base: nat, a: nat, b: nat)
    ensures base * (a + b) == base * a + base * b
  {
  }

  /** One more digit moves the others by one place. */
  lemma {:induction false} SumOfMore(base: nat, s: seq<Byte>, c: Byte)
    ensures
      SumOfDigits(base, s + [c]) ==
        match DigitOf(base, c)
        case Some(digit) => base * SumOfDigits(base, s) + digit
        case None => SumOfDigits(base, s)
  {
    hide DigitOf;
    if s == [] {
      assert (s + [c])[1..] == [] && Power(base, 0) == 1;
    } else {
      assert (s + [c])[1..] == s[1..] + [c];
      SumOfMore(base, s[1..], c);
      CountOfMore(base, s[1..], c);
      var n := DigitCount(base, s[1..]);
      ShiftPlace(base, s[0], n);
      Distributes(base, PlaceValue(base, s[0], n), SumOfDigits(base, s[1..]));
      hide PlaceValue, DigitCount;
    }
  }

  lemma TimesIsProduct(radix: Radix, n: nat)
    ensures Times(radix, n) == Base(radix) * n
  {
  }

  lemma {:induction false} PositionalIsSum(radix: Radix, s: seq<Byte>)
    ensures Positional(radix, s) == SumOfDigits(Base(radix), s)
  {
    if s != [] {
      var rest, c := s[..|s| - 1], s[|s| - 1];
      PositionalIsSum(radix, rest);
      DigitIsDigitOf(radix, c);
      SumOfMore(Base(radix), rest, c);
      TimesIsProduct(radix, Positional(radix, rest));
      hide Digit, Times, Base, DigitOf, SumOfDigits;
      assert rest + [c] == s;
    }
  }

  // The digits after a prefix.

  /** A run of digits with single separators between them, as long as it goes. */
  ghost predicate IsDigitRun(base: nat, buf: seq<Byte>, from: nat, to: nat) {
    && from < to <= |buf| && IsDigitOf(base, buf[from]) && buf[to - 1] != '_' as nat
    && (forall i | from <= i < to :: IsDigitOf(base, buf[i]) || buf[i] == '_' as nat)
    && (forall i | from < i < to :: !(buf[i - 1] == '_' as nat && buf[i] == '_' as nat))
    && !IsDigitOf(base, At(buf, to)) && At(buf, to) != '_' as nat
  }

  ghost predicate HasDigitRun(base: nat, buf: seq<Byte>, from: nat) {
    exists to :: IsDigitRun(base, buf, from, to)
  }

  lemma {:induction false} RunEndIs(radix: Radix, buf: seq<Byte>, from: nat, to: nat)
    requires from <= to <= |buf|
    requires forall i | from <= i < to :: Digit(radix, buf[i]).Some? || buf[i] == SEPARATOR
    requires Digit(radix, At(buf, to)).None? && At(buf, to) != SEPARATOR
    ensures RunEnd(radix, true, buf, from) == to
    decreases |buf| - from
  {
    hide Digit;
    if from < to { RunEndIs(radix, buf, from + 1, to); }
  }

  lemma DigitRunIsScanned(radix: Radix, buf: seq<Byte>, from: nat, to: nat)
    requires from <= |buf|
    ensures
      IsDigitRun(Base(radix), buf, from, to) <==>
        to == RunEnd(radix, true, buf, from) && Digit(radix, At(buf, from)).Some? && RunError(buf, from, to).None?
  {
    forall c: nat
      ensures IsDigitOf(Base(radix), c) == Digit(radix, c).Some?
    {
      DigitIsDigitOf(radix, c);
    }
    RunMeaning(radix, true, buf, from);
    hide DigitOf, Digit, Base;
    if IsDigitRun(Base(radix), buf, from, to) { RunEndIs(radix, buf, from, to); }
    hide RunEnd;
  }

  /** A number may end before this character: neither a digit nor anything that could start a name. */
  predicate MayEnd(classes: Classes, buf: seq<Byte>, p: nat)
    requires p <= |buf|
  {
    if p == |buf| then true
    else if buf[p] < 0x80 then
      !('0' as nat <= buf[p] <= '9' as nat) && !('a' as nat <= buf[p] <= 'z' as nat)
      && !('A' as nat <= buf[p] <= 'Z' as nat) && buf[p] != '_' as nat && buf[p] != '$' as nat
    else
      var c := Wtf8.Step(buf[p..]);
      c.Ok? && !(c.codePoint <= 0x10_FFFF && classes.start(c.codePoint))
  }

  lemma FollowMeaning(classes: Classes, buf: seq<Byte>, p: nat)
    requires p <= |buf|
    ensures FollowError(classes, buf, p).None? <==> MayEnd(classes, buf, p)
    ensures
      FollowError(classes, buf, p) == Some(InvalidUnicode) <==>
        p < |buf| && buf[p] >= 0x80 && Wtf8.Step(buf[p..]).Err?
    ensures FollowError(classes, buf, p).Some? ==>
      FollowError(classes, buf, p).value in [InvalidUnicode, InvalidNumericLiteralNextChar]
  {
    hide Wtf8.Step;
  }

  /** The double a number is converted from: a 64-bit word if it fits, otherwise a big integer. */
  function NumberOf(n: nat): Number {
    if n < 0x1_0000_0000_0000_0000 then Word(n) else Big(n)
  }

  /** The literal with digits in `[from, to)`: a big integer if an `n` follows. */
  function RadixToken(base: nat, buf: seq<Byte>, from: nat, to: nat): Lexed
    requires from <= to <= |buf|
  {
    if At(buf, to) == 'n' as nat then Lexed(BigIntLiteral(buf[from..to], base), to + 1)
    else Lexed(NumberLiteral(NumberOf(SumOfDigits(base, buf[from..to]))), to)
  }

  lemma PrefixDispatch(classes: Classes, buf: seq<Byte>, p: nat, strict: bool, base: nat)
    requires p + 1 < |buf| && buf[p] == '0' as nat && PrefixBase(buf[p + 1]) == Some(base)
    ensures TokenAt(classes, buf, p, strict) == NumberAt(classes, buf, p, strict)
    ensures NumericLexeme(buf, p, strict) == RadixLexeme(RadixOf(base), buf, p)
    ensures Base(RadixOf(base)) == base
  {
    hide NumberAt, RadixLexeme;
  }

  lemma ScannedToken(radix: Radix, buf: seq<Byte>, p: nat)
    requires p + 2 <= |buf|
    ensures
      var end := RunEnd(radix, true, buf, p + 2);
      var accepted := Digit(radix, At(buf, p + 2)).Some? && RunError(buf, p + 2, end).None?;
      && (accepted <==> RadixLexeme(radix, buf, p).Ok?)
      && (accepted ==>
            RadixLexeme(radix, buf, p).value ==
              if At(buf, end) == LOWER_N then Lexed(BigIntLiteral(buf[p + 2..end], Base(radix)), end + 1)
              else Lexed(NumberLiteral(Integer(Positional(radix, buf[p + 2..end]))), end))
  {
    hide RunEnd, RunError, Digit, Positional, Integer, Base;
  }

  lemma SumToken(radix: Radix, buf: seq<Byte>, from: nat, to: nat)
    requires from <= to <= |buf|
    ensures
      RadixToken(Base(radix), buf, from, to) ==
        if At(buf, to) == LOWER_N then Lexed(BigIntLiteral(buf[from..to], Base(radix)), to + 1)
        else Lexed(NumberLiteral(Integer(Positional(radix, buf[from..to]))), to)
  {
    PositionalIsSum(radix, buf[from..to]);
    hide Positional, SumOfDigits, Base;
  }

  /** The run that is scanned decides. */
  lemma RadixLexemeIsRun(radix: Radix, buf: seq<Byte>, p: nat)
    requires p + 2 <= |buf|
    ensures
      var end := RunEnd(radix, true, buf, p + 2);
      if IsDigitRun(Base(radix), buf, p + 2, end)
      then RadixLexeme(radix, buf, p) == Ok(RadixToken(Base(radix), buf, p + 2, end))
      else !RadixLexeme(radix, buf, p).Ok?
  {
    var end := RunEnd(radix, true, buf, p + 2);
    DigitRunIsScanned(radix, buf, p + 2, end);
    ScannedToken(radix, buf, p);
    SumToken(radix, buf, p + 2, end);
    hide RunEnd, RunError, Digit, Positional, IsDigitRun, RadixLexeme, RadixToken, Base, Integer;
  }

  lemma RadixLexemeIs(radix: Radix, buf: seq<Byte>, p: nat, end: nat)
    requires p + 2 <= |buf|
    ensures IsDigitRun(Base(radix), buf, p + 2, end) ==>
      RadixLexeme(radix, buf, p) == Ok(RadixToken(Base(radix), buf, p + 2, end))
    ensures RadixLexeme(radix, buf, p).Ok? ==>
      IsDigitRun(Base(radix), buf, p + 2, RunEnd(radix, true, buf, p + 2))
  {
    RadixLexemeIsRun(radix, buf, p);
    DigitRunIsScanned(radix, buf, p + 2, end);
    hide RadixLexeme, RunEnd, RunError, Digit, IsDigitRun, Base, RadixToken;
  }

  lemma NoDigitIsMalformed(radix: Radix, buf: seq<Byte>, p: nat)
    requires p + 2 <= |buf| && !IsDigitOf(Base(radix), At(buf, p + 2))
    ensures RadixLexeme(radix, buf, p) == Err(MalformedNumericLiteral)
  {
    DigitIsDigitOf(radix, At(buf, p + 2));
    hide Digit, DigitOf, RunEnd, RunError, Positional;
  }

  /** The run up to `to` makes a literal, and the literal may end there. */
  ghost predicate IsLiteral(classes: Classes, buf: seq<Byte>, p: nat, base: nat, to: nat, literal: Lexed) {
    && IsDigitRun(base, buf, p + 2, to) && literal == RadixToken(base, buf, p + 2, to)
    && MayEnd(classes, buf, literal.end)
  }

  /**
    After `0b`, `0o` and `0x`, in either case, a literal is accepted exactly when digits of base 2, 8 or 16
    follow, with single separators, and it may end there. Its value is the sum of the digits.
   */
  lemma RadixLiteral(classes: Classes, buf: seq<Byte>, p: nat, strict: bool, base: nat, literal: Lexed)
    requires p + 1 < |buf| && buf[p] == '0' as nat && PrefixBase(buf[p + 1]) == Some(base)
    ensures
      TokenAt(classes, buf, p, strict) == Ok(literal) <==> exists to :: IsLiteral(classes, buf, p, base, to, literal)
    ensures !IsDigitOf(base, At(buf, p + 2)) ==> TokenAt(classes, buf, p, strict) == Err(MalformedNumericLiteral)
  {
    var radix := RadixOf(base);
    PrefixDispatch(classes, buf, p, strict, base);
    if !IsDigitOf(base, At(buf, p + 2)) { NoDigitIsMalformed(radix, buf, p); }
    hide TokenAt, NumericLexeme, RadixLexeme, MayEnd, FollowError, IsDigitRun, DigitOf, RunEnd, RadixToken, PrefixBase;
    if to :| IsLiteral(classes, buf, p, base, to, literal) {
      RadixLexemeIs(radix, buf, p, to);
      FollowMeaning(classes, buf, literal.end);
    }
    if TokenAt(classes, buf, p, strict) == Ok(literal) {
      var to := RunEnd(radix, true, buf, p + 2);
      RadixLexemeIs(radix, buf, p, to);
      FollowMeaning(classes, buf, literal.end);
      assert IsLiteral(classes, buf, p, base, to, literal);
    }
  }

  /** Separators in a row are an error, and otherwise one at the end. */
  lemma SeparatorErrors(classes: Classes, buf: seq<Byte>, p: nat, strict: bool, base: nat, to: nat)
    requires p + 1 < |buf| && buf[p] == '0' as nat && PrefixBase(buf[p + 1]) == Some(base)
    requires p + 2 < to <= |buf| && IsDigitOf(base, buf[p + 2])
    requires forall i | p + 2 <= i < to :: IsDigitOf(base, buf[i]) || buf[i] == '_' as nat
    requires !IsDigitOf(base, At(buf, to)) && At(buf, to) != '_' as nat
    ensures
      var r, inRow := TokenAt(classes, buf, p, strict), exists i | p + 2 < i < to :: buf[i - 1] == buf[i] == '_' as nat;
      && (r == Err(AdjacentNumericSeparators) <==> inRow)
      && (r == Err(TrailingNumericSeparator) <==> !inRow && buf[to - 1] == '_' as nat)
  {
    var radix := RadixOf(base);
    PrefixDispatch(classes, buf, p, strict, base);
    forall c: nat
      ensures IsDigitOf(base, c) == Digit(radix, c).Some?
    {
      DigitIsDigitOf(radix, c);
    }
    RunEndIs(radix, buf, p + 2, to);
    RowsOfSeparators(buf, p + 2, to);
    hide Digit, DigitOf, RunEnd, RunError, PrefixBase, Positional, TokenAt, NumericLexeme;
    var number := RadixLexeme(radix, buf, p);
    if number.Ok? {
      NumberIsToken(classes, buf, p, strict, number.value);
      FollowMeaning(classes, buf, number.value.end);
    } else {
      NumberIsToken(classes, buf, p, strict, Lexed(Eof, 0));
    }
    hide FollowError, MayEnd;
  }

  lemma RowsOfSeparators(buf: seq<Byte>, from: nat, to: nat)
    requires from < to <= |buf|
    ensures
      RunError(buf, from, to) ==
        if exists i | from < i < to :: buf[i - 1] == buf[i] == '_' as nat then Some(AdjacentNumericSeparators)
        else if buf[to - 1] == '_' as nat then Some(TrailingNumericSeparator)
        else None
  {
  }

  /** A fraction has a period in front, an exponent the letter e in either case and perhaps a sign. */
  lemma DecimalCharacters(s: seq<Byte>)
    ensures IsFraction(s) <==> s == [] || (s[0] == '.' as nat && forall i | 1 <= i < |s| :: IsDecimal(s[i]))
    ensures
      IsExponent(s) <==>
        || s == []
        || ((s[0] == 'e' as nat || s[0] == 'E' as nat)
            && var n := if |s| > 1 && (s[1] == '+' as nat || s[1] == '-' as nat) then 2 else 1;
               n < |s| && forall i | n <= i < |s| :: IsDecimal(s[i]))
  {
    if s != [] {
      TailDigits(s, 1);
      if |s| > 1 { TailDigits(s, 2); }
    }
    hide IsDigits;
  }

  lemma TailDigits(s: seq<Byte>, n: nat)
    requires n <= |s|
    ensures IsDigits(s[n..]) <==> forall i | n <= i < |s| :: IsDecimal(s[i])
  {
    assert forall i | n <= i < |s| :: s[i] == s[n..][i - n];
  }

  // Literals that start with zero and another digit.

  predicate IsDecimal(c: nat) {
    '0' as nat <= c <= '9' as nat
  }

  /** All the digits from `from` on. */
  ghost predicate AreAllDigits(buf: seq<Byte>, from: nat, to: nat) {
    && from < to <= |buf| && (forall i | from <= i < to :: IsDecimal(buf[i])) && !IsDecimal(At(buf, to))
  }

  predicate HasOctalOnly(buf: seq<Byte>, from: nat, to: nat)
    requires to <= |buf|
  {
    forall i | from <= i < to :: IsDigitOf(8, buf[i])
  }

  /** The octal digits end with all the digits, or before an eight or nine. */
  lemma {:induction false} OctalRunIs(buf: seq<Byte>, from: nat, to: nat)
    requires from <= to <= |buf| && (forall i | from <= i < to :: IsDecimal(buf[i])) && !IsDecimal(At(buf, to))
    ensures
      var end := RunEnd(Octal, false, buf, from);
      from <= end <= to && (end == to <==> HasOctalOnly(buf, from, to)) && (end < to ==> IsDecimal(buf[end]))
    decreases |buf| - from
  {
    DigitIsDigitOf(Octal, At(buf, from));
    if from < to && IsDigitOf(8, buf[from]) { OctalRunIs(buf, from + 1, to); }
  }

  lemma LegacyOctalIs(buf: seq<Byte>, p: nat, to: nat)
    requires AreAllDigits(buf, p, to)
    ensures
      LegacyOctalLexeme(buf, p) ==
        if HasOctalOnly(buf, p, to) then Some(Lexed(NumberLiteral(NumberOf(SumOfDigits(8, buf[p..to]))), to)) else None
  {
    OctalRunIs(buf, p, to);
    PositionalIsSum(Octal, buf[p..to]);
    hide RunEnd, Positional, SumOfDigits, HasOctalOnly;
  }

  lemma DigitDispatch(classes: Classes, buf: seq<Byte>, p: nat, strict: bool)
    requires p < |buf| && IsDecimal(buf[p])
    ensures TokenAt(classes, buf, p, strict) == NumberAt(classes, buf, p, strict)
    ensures buf[p] == '0' as nat && IsDecimal(At(buf, p + 1)) ==>
      NumericLexeme(buf, p, strict) ==
        if strict then Err(LegacyOctalLiteralInStrictMode)
        else if LegacyOctalLexeme(buf, p).Some? then Ok(LegacyOctalLexeme(buf, p).value)
        else DecimalLexeme(buf, p)
    ensures !(buf[p] == '0' as nat && (IsDecimal(At(buf, p + 1)) || PrefixBase(At(buf, p + 1)).Some?)) ==>
      NumericLexeme(buf, p, strict) == DecimalLexeme(buf, p)
  {
    hide NumberAt, RadixLexeme, DecimalLexeme, LegacyOctalLexeme;
  }

  /** A number that is read is the token if it may end there. */
  lemma NumberIsToken(classes: Classes, buf: seq<Byte>, p: nat, strict: bool, literal: Lexed)
    requires p < |buf| && NumberStarts(buf, p)
    ensures !NumericLexeme(buf, p, strict).Ok? ==> NumberAt(classes, buf, p, strict) == NumericLexeme(buf, p, strict)
    ensures NumericLexeme(buf, p, strict) == Ok(literal) ==>
      literal.end <= |buf|
      && if MayEnd(classes, buf, literal.end) then NumberAt(classes, buf, p, strict) == Ok(literal)
         else NumberAt(classes, buf, p, strict).Err?
    ensures NumberAt(classes, buf, p, strict) == Ok(literal) ==> NumericLexeme(buf, p, strict) == Ok(literal)
  {
    var number := NumericLexeme(buf, p, strict);
    if number.Ok? {
      NumericKind(buf, p, strict);
      FollowMeaning(classes, buf, number.value.end);
    }
    hide NumericLexeme, FollowError, MayEnd;
  }

  /** A decimal number up to `end`, which may end there. */
  ghost predicate IsDecimalLiteral(classes: Classes, buf: seq<Byte>, p: nat, end: nat)
    requires p < |buf|
  {
    && p <= end <= |buf| && MayEnd(classes, buf, end)
    && exists whole: nat, fraction: nat :: DecimalParts(buf, p, whole, fraction, end)
  }

  lemma DecimalIsToken(classes: Classes, buf: seq<Byte>, p: nat, strict: bool, end: nat)
    requires p < |buf| && NumberStarts(buf, p) && NumericLexeme(buf, p, strict) == DecimalLexeme(buf, p)
    requires TokenAt(classes, buf, p, strict) == NumberAt(classes, buf, p, strict)
    ensures
      (p <= end <= |buf| && TokenAt(classes, buf, p, strict) == Ok(DecimalNumber(buf, p, end)))
      <==> IsDecimalLiteral(classes, buf, p, end)
  {
    DecimalAccepted(buf, p, end);
    if p <= end <= |buf| { NumberIsToken(classes, buf, p, strict, DecimalNumber(buf, p, end)); }
    hide TokenAt, NumberAt, NumericLexeme, DecimalLexeme, DecimalParts, MayEnd, WithoutSeparators;
  }

  /** Numbers that start with another digit, with a period, or with a zero that stands for no base, are decimal. */
  lemma DecimalLiteral(classes: Classes, buf: seq<Byte>, p: nat, strict: bool, end: nat)
    requires p < |buf| && (IsDecimal(buf[p]) || (buf[p] == '.' as nat && IsDecimal(At(buf, p + 1))))
    requires !(buf[p] == '0' as nat && (IsDecimal(At(buf, p + 1)) || PrefixBase(At(buf, p + 1)).Some?))
    ensures
      (p <= end <= |buf| && TokenAt(classes, buf, p, strict) == Ok(DecimalNumber(buf, p, end)))
      <==> IsDecimalLiteral(classes, buf, p, end)
  {
    if IsDecimal(buf[p]) { DigitDispatch(classes, buf, p, strict); } else { PeriodDispatch(classes, buf, p, strict); }
    DecimalIsToken(classes, buf, p, strict, end);
    hide TokenAt, NumberAt, NumericLexeme, DecimalLexeme, IsDecimalLiteral, DecimalNumber;
  }

  lemma PeriodDispatch(classes: Classes, buf: seq<Byte>, p: nat, strict: bool)
    requires p < |buf| && buf[p] == '.' as nat && IsDecimal(At(buf, p + 1))
    ensures TokenAt(classes, buf, p, strict) == NumberAt(classes, buf, p, strict)
    ensures NumericLexeme(buf, p, strict) == DecimalLexeme(buf, p)
  {
    hide NumberAt, DecimalLexeme;
  }

  /**
    A zero before another digit: an error in strict mode. In sloppy mode digits below eight alone are an octal
    number, the sum of its digits in base 8, and any others are read as decimal.
   */
  lemma LegacyOctalLiteral(classes: Classes, buf: seq<Byte>, p: nat, strict: bool, to: nat, end: nat)
    requires p < |buf| && buf[p] == '0' as nat && IsDecimal(At(buf, p + 1)) && AreAllDigits(buf, p, to)
    ensures strict ==> TokenAt(classes, buf, p, strict) == Err(LegacyOctalLiteralInStrictMode)
    ensures !strict && HasOctalOnly(buf, p, to) ==>
      var literal := Lexed(NumberLiteral(NumberOf(SumOfDigits(8, buf[p..to]))), to);
      if MayEnd(classes, buf, to) then TokenAt(classes, buf, p, strict) == Ok(literal)
      else TokenAt(classes, buf, p, strict).Err?
    ensures !strict && !HasOctalOnly(buf, p, to) ==>
      ((p <= end <= |buf| && TokenAt(classes, buf, p, strict) == Ok(DecimalNumber(buf, p, end)))
       <==> IsDecimalLiteral(classes, buf, p, end))
  {
    DigitDispatch(classes, buf, p, strict);
    LegacyOctalIs(buf, p, to);
    var literal := Lexed(NumberLiteral(NumberOf(SumOfDigits(8, buf[p..to]))), to);
    NumberIsToken(classes, buf, p, strict, literal);
    hide TokenAt, NumberAt, NumericLexeme, DecimalLexeme, IsDecimalLiteral, DecimalNumber, LegacyOctalLexeme, MayEnd;
    hide HasOctalOnly, SumOfDigits;
    if !strict && !HasOctalOnly(buf, p, to) { DecimalIsToken(classes, buf, p, strict, end); }
  }
}
