/** The text of numeric literals: runs of digits, the separators in them, and the numbers they stand for. */
module Numbers {
  import opened Options
  import opened Tokens
  import opened Unicode

  const U64_END: nat := 0x1_0000_0000_0000_0000
  const SEPARATOR: Byte := 0x5F
  const ZERO: Byte := 0x30
  const PERIOD: Byte := 0x2E
  const PLUS: Byte := 0x2B
  const MINUS: Byte := 0x2D
  const LOWER_E: Byte := 0x65
  const UPPER_E: Byte := 0x45
  const LOWER_N: Byte := 0x6E

  datatype Radix = Binary | Octal | Decimal | Hex

  function Times(radix: Radix, n: nat): nat {
    match radix
    case Binary => 2 * n
    case Octal => 8 * n
    case Decimal => 10 * n
    case Hex => 16 * n
  }

  function Base(radix: Radix): nat {
    Times(radix, 1)
  }

  function Digit(radix: Radix, c: nat): (r: Option<nat>)
    ensures r.Some? ==> ZERO <= c < 0x80 && c != SEPARATOR && r.value < Base(radix)
  {
    if ZERO <= c < ZERO + (if radix == Hex then 10 else Base(radix)) then Some(c - ZERO)
    else if radix == Hex && 0x61 <= c <= 0x66 then Some(c - 0x61 + 10)
    else if radix == Hex && 0x41 <= c <= 0x46 then Some(c - 0x41 + 10)
    else None
  }

  predicate IsDecimalDigit(c: nat) {
    0x30 <= c <= 0x39
  }

  /** Where the digits from `p` on end; separators may be among them. */
  function RunEnd(radix: Radix, separators: bool, buf: seq<Byte>, p: nat): (end: nat)
    requires p <= |buf|
    ensures p <= end <= |buf|
    decreases |buf| - p
  {
    if p < |buf| && (Digit(radix, buf[p]).Some? || (separators && buf[p] == SEPARATOR))
    then RunEnd(radix, separators, buf, p + 1)
    else p
  }

  predicate SeparatorIn(buf: seq<Byte>, from: nat, to: nat)
    requires to <= |buf|
  {
    exists i | from <= i < to :: buf[i] == SEPARATOR
  }

  predicate AdjacentSeparatorsIn(buf: seq<Byte>, from: nat, to: nat)
    requires to <= |buf|
  {
    exists i | from < i < to :: buf[i - 1] == SEPARATOR && buf[i] == SEPARATOR
  }

  /** The error for a run that does not start with a separator. */
  function RunError(buf: seq<Byte>, from: nat, to: nat): Option<LexError>
    requires to <= |buf|
  {
    if AdjacentSeparatorsIn(buf, from, to) then Some(AdjacentNumericSeparators)
    else if from < to && buf[to - 1] == SEPARATOR then Some(TrailingNumericSeparator)
    else None
  }

  /** Every separator stands alone between two other bytes. */
  predicate SeparatorsSingle(s: seq<Byte>) {
    forall i | 0 <= i < |s| && s[i] == SEPARATOR :: 0 < i < |s| - 1 && s[i - 1] != SEPARATOR && s[i + 1] != SEPARATOR
  }

  lemma RunErrorMeaning(buf: seq<Byte>, from: nat, to: nat)
    requires from < to <= |buf| && buf[from] != SEPARATOR
    ensures RunError(buf, from, to).None? <==> SeparatorsSingle(buf[from..to])
  {
    var s := buf[from..to];
    assert forall i | 0 <= i < |s| :: s[i] == buf[from + i];
    assert forall j | from <= j < to :: buf[j] == s[j - from];
    if !SeparatorsSingle(s) {
      var i :| 0 <= i < |s| && s[i] == SEPARATOR
        && !(0 < i < |s| - 1 && s[i - 1] != SEPARATOR && s[i + 1] != SEPARATOR);
      if 0 < i < |s| - 1 && s[i - 1] != SEPARATOR { assert buf[from + i + 1] == SEPARATOR; }
    }
  }

  /** What a scan knows after a part of a run, with no adjacent separators so far. */
  ghost predicate Scanned(buf: seq<Byte>, from: nat, to: nat, hasSeparator: bool, isLastSeparator: bool) {
    && from < to <= |buf| && (buf[to - 1] == SEPARATOR) == isLastSeparator
    && SeparatorIn(buf, from, to) == hasSeparator && !AdjacentSeparatorsIn(buf, from, to)
  }

  /** One more byte, unless it is a second separator. */
  lemma ScannedNext(buf: seq<Byte>, from: nat, to: nat, hasSeparator: bool, isLastSeparator: bool)
    requires Scanned(buf, from, to, hasSeparator, isLastSeparator) && to < |buf|
    requires !(isLastSeparator && buf[to] == SEPARATOR)
    ensures Scanned(buf, from, to + 1, hasSeparator || buf[to] == SEPARATOR, buf[to] == SEPARATOR)
  {
  }

  lemma ScannedAdjacent(buf: seq<Byte>, from: nat, to: nat, end: nat, hasSeparator: bool)
    requires Scanned(buf, from, to, hasSeparator, true) && to < end <= |buf| && buf[to] == SEPARATOR
    ensures RunError(buf, from, end) == Some(AdjacentNumericSeparators)
  {
  }

  lemma ScannedAll(buf: seq<Byte>, from: nat, to: nat, hasSeparator: bool, isLastSeparator: bool)
    requires Scanned(buf, from, to, hasSeparator, isLastSeparator)
    ensures SeparatorIn(buf, from, to) == hasSeparator
    ensures RunError(buf, from, to) == if isLastSeparator then Some(TrailingNumericSeparator) else None
  {
  }

  /** The number that a run stands for in positional notation. */
  function Positional(radix: Radix, s: seq<Byte>): nat {
    if s == [] then 0
    else
      var before, last := Positional(radix, s[..|s| - 1]), Digit(radix, s[|s| - 1]);
      if last.None? then before else Times(radix, before) + last.value
  }

  function WithoutSeparators(s: seq<Byte>): seq<Byte> {
    if s == [] then []
    else WithoutSeparators(s[..|s| - 1]) + if s[|s| - 1] == SEPARATOR then [] else [s[|s| - 1]]
  }

  lemma {:induction false} NothingToRemove(s: seq<Byte>)
    requires SEPARATOR !in s
    ensures WithoutSeparators(s) == s
  {
    if s != [] { NothingToRemove(s[..|s| - 1]); }
  }

  /** The literal after a two-byte prefix: any run of digits whose separators are single. */
  function RadixLexeme(radix: Radix, buf: seq<Byte>, start: nat): (r: Outcome<Lexed>)
    ensures !r.Panic?
  {
    var first := if start + 2 < |buf| then start + 2 else |buf|;
    var end := RunEnd(radix, true, buf, first);
    if Digit(radix, At(buf, first)).None? then Err(MalformedNumericLiteral)
    else if RunError(buf, first, end).Some? then Err(RunError(buf, first, end).value)
    else if At(buf, end) == LOWER_N then Ok(Lexed(BigIntLiteral(buf[start + 2..end], Base(radix)), end + 1))
    else Ok(Lexed(NumberLiteral(Integer(Positional(radix, buf[first..end]))), end))
  }

  /** A literal that starts with zero and has octal digits only. */
  function LegacyOctalLexeme(buf: seq<Byte>, start: nat): Option<Lexed>
    requires start <= |buf|
  {
    var end := RunEnd(Octal, false, buf, start);
    if IsDecimalDigit(At(buf, end)) then None
    else Some(Lexed(NumberLiteral(Integer(Positional(Octal, buf[start..end]))), end))
  }

  lemma SliceExtends(buf: seq<Byte>, from: nat, mid: nat, to: nat)
    requires from <= mid <= to <= |buf|
    ensures buf[from..mid] + buf[mid..to] == buf[from..to]
  {
  }

  lemma SliceWithoutLast(buf: seq<Byte>, from: nat, to: nat)
    requires from <= to < |buf|
    ensures buf[from..to + 1][..to - from] == buf[from..to]
  {
  }

  /** The accumulator after the digits up to `to`: the number, or the mark that it does not fit a 64-bit word. */
  ghost predicate Accumulated(radix: Radix, buf: seq<Byte>, from: nat, to: nat, value: nat, overflows: bool) {
    && from <= to <= |buf|
    && overflows == (Positional(radix, buf[from..to]) >= U64_END)
    && (!overflows ==> value == Positional(radix, buf[from..to]))
  }

  method AddDigit(
    radix: Radix, value: nat, overflows: bool, digit: nat, ghost buf: seq<Byte>, ghost from: nat, ghost to: nat)
    returns (newValue: nat, newOverflows: bool)
    requires Accumulated(radix, buf, from, to, value, overflows) && to < |buf| && Digit(radix, buf[to]) == Some(digit)
    ensures Accumulated(radix, buf, from, to + 1, newValue, newOverflows)
  {
    SliceWithoutLast(buf, from, to);
    newValue, newOverflows := value, overflows;
    if Times(radix, newValue) < U64_END {
      newValue := Times(radix, newValue);
    } else {
      newOverflows := true;
    }
    if newValue + digit < U64_END {
      newValue := newValue + digit;
    } else {
      newOverflows := true;
    }
  }

  lemma EmptyAccumulated(radix: Radix, buf: seq<Byte>, p: nat)
    requires p <= |buf|
    ensures Accumulated(radix, buf, p, p, 0, false)
  {
  }

  lemma FirstDigit(radix: Radix, buf: seq<Byte>, p: nat, digit: nat)
    requires p < |buf| && Digit(radix, buf[p]) == Some(digit)
    ensures RadixScan(radix, buf, p, p + 1, digit, false, false)
    ensures RunEnd(radix, true, buf, p) == RunEnd(radix, true, buf, p + 1)
  {
    assert buf[p..p + 1] == [] + [buf[p]] && buf[p..p + 1][..0] == [];
  }

  lemma AccumulatedNumber(radix: Radix, buf: seq<Byte>, from: nat, to: nat, value: nat, overflows: bool)
    requires Accumulated(radix, buf, from, to, value, overflows)
    ensures
      var n := Positional(radix, buf[from..to]);
      Integer(n) == if overflows then Big(n) else Word(value)
  {
  }

  /** A scan of digits and separators, and its accumulator. */
  ghost predicate RadixScan(
    radix: Radix, buf: seq<Byte>, from: nat, to: nat, value: nat, overflows: bool, isLastSeparator: bool)
  {
    && from < to <= |buf| && Accumulated(radix, buf, from, to, value, overflows)
    && Scanned(buf, from, to, SeparatorIn(buf, from, to), isLastSeparator)
  }

  lemma RadixScanNext(
    radix: Radix, buf: seq<Byte>, from: nat, to: nat, value: nat, overflows: bool, isLastSeparator: bool)
    requires RadixScan(radix, buf, from, to, value, overflows, isLastSeparator) && to < |buf|
    ensures Accumulated(radix, buf, from, to, value, overflows)
    ensures !(isLastSeparator && buf[to] == SEPARATOR) ==>
      Scanned(buf, from, to + 1, SeparatorIn(buf, from, to + 1), buf[to] == SEPARATOR)
    ensures isLastSeparator && buf[to] == SEPARATOR ==>
      forall end | to < end <= |buf| :: RunError(buf, from, end) == Some(AdjacentNumericSeparators)
    ensures !isLastSeparator && buf[to] == SEPARATOR ==> RadixScan(radix, buf, from, to + 1, value, overflows, true)
  {
    hide Positional, Digit;
    if isLastSeparator && buf[to] == SEPARATOR {
      forall end | to < end <= |buf|
        ensures RunError(buf, from, end) == Some(AdjacentNumericSeparators)
      {
        ScannedAdjacent(buf, from, to, end, SeparatorIn(buf, from, to));
      }
    } else {
      ScannedNext(buf, from, to, SeparatorIn(buf, from, to), isLastSeparator);
      if buf[to] == SEPARATOR { SeparatorKeeps(radix, buf, from, to, value, overflows); }
    }
  }

  lemma RadixScanDigit(radix: Radix, buf: seq<Byte>, from: nat, to: nat, value: nat, overflows: bool)
    requires from < to <= |buf| && Accumulated(radix, buf, from, to, value, overflows)
    requires Scanned(buf, from, to, SeparatorIn(buf, from, to), false)
    ensures RadixScan(radix, buf, from, to, value, overflows, false)
  {
  }

  lemma RadixScanAll(
    radix: Radix, buf: seq<Byte>, from: nat, to: nat, value: nat, overflows: bool, isLastSeparator: bool)
    requires RadixScan(radix, buf, from, to, value, overflows, isLastSeparator)
    ensures Accumulated(radix, buf, from, to, value, overflows)
    ensures RunError(buf, from, to) == if isLastSeparator then Some(TrailingNumericSeparator) else None
  {
    ScannedAll(buf, from, to, SeparatorIn(buf, from, to), isLastSeparator);
  }

  lemma SeparatorKeeps(radix: Radix, buf: seq<Byte>, from: nat, to: nat, value: nat, overflows: bool)
    requires Accumulated(radix, buf, from, to, value, overflows) && to < |buf| && buf[to] == SEPARATOR
    ensures Accumulated(radix, buf, from, to + 1, value, overflows)
  {
    SliceWithoutLast(buf, from, to);
  }

  /** The word when it fits, a big integer otherwise. */
  function Integer(value: nat): Number {
    if value < U64_END then Word(value) else Big(value)
  }

  // Decimal literals.

  predicate IsDigits(s: seq<Byte>) {
    forall i | 0 <= i < |s| :: IsDecimalDigit(s[i])
  }

  predicate IsFraction(s: seq<Byte>) {
    s == [] || (s[0] == PERIOD && IsDigits(s[1..]))
  }

  predicate IsExponent(s: seq<Byte>) {
    s == [] ||
    (&& s[0] in [LOWER_E, UPPER_E]
     && var n := if |s| > 1 && s[1] in [PLUS, MINUS] then 2 else 1;
        n < |s| && IsDigits(s[n..]))
  }

  /** What converts to a double: digits, optional fraction, optional exponent, and some digit before it. */
  ghost predicate IsDecimalText(s: seq<Byte>) {
    exists whole, fraction, exponent ::
      && s == whole + fraction + exponent
      && IsDigits(whole) && IsFraction(fraction) && IsExponent(exponent)
      && (whole != [] || |fraction| > 1)
  }

  /** Separators stand alone between digits, and not in a literal that starts with zero. */
  predicate SeparatorsAllowed(s: seq<Byte>) {
    && (forall i | 0 <= i < |s| && s[i] == SEPARATOR ::
          0 < i < |s| - 1 && IsDecimalDigit(s[i - 1]) && IsDecimalDigit(s[i + 1]))
    && (s != [] && s[0] == ZERO ==> SEPARATOR !in s)
  }

  /** Where a part of digits that starts at `p` ends; it is empty unless it starts with a digit. */
  function DigitsEnd(separators: bool, buf: seq<Byte>, p: nat): (end: nat)
    requires p <= |buf|
    ensures p <= end <= |buf| && (p < end <==> IsDecimalDigit(At(buf, p)))
  {
    if IsDecimalDigit(At(buf, p)) then RunEnd(Decimal, separators, buf, p) else p
  }

  function FractionEnd(separators: bool, buf: seq<Byte>, p: nat): (end: nat)
    requires p <= |buf|
    ensures p <= end <= |buf|
  {
    if At(buf, p) == PERIOD then DigitsEnd(separators, buf, p + 1) else p
  }

  /** Where the digits of an exponent at `p` start. */
  function ExponentDigits(buf: seq<Byte>, p: nat): nat {
    if At(buf, p + 1) in [PLUS as nat, MINUS as nat] then p + 2 else p + 1
  }

  function PartError(buf: seq<Byte>, from: nat, to: nat): Option<LexError>
    requires to <= |buf|
  {
    if from < to then RunError(buf, from, to) else None
  }

  function ExponentEnd(separators: bool, buf: seq<Byte>, p: nat): (end: Outcome<nat>)
    requires p <= |buf|
    ensures !end.Panic? && (end.Ok? ==> p <= end.value <= |buf|)
  {
    var digits := ExponentDigits(buf, p);
    if At(buf, p) !in [LOWER_E as nat, UPPER_E as nat] then Ok(p)
    else if !IsDecimalDigit(At(buf, digits)) then Err(MalformedNumericLiteral)
    else
      var end := DigitsEnd(separators, buf, digits);
      if PartError(buf, digits, end).Some? then Err(PartError(buf, digits, end).value) else Ok(end)
  }

  /** The decimal literal at `start`, as the runs of digits in it decide. */
  function DecimalLexeme(buf: seq<Byte>, start: nat): (r: Outcome<Lexed>)
    requires start < |buf|
    ensures !r.Panic?
  {
    var separators := buf[start] != ZERO;
    var whole := DigitsEnd(separators, buf, start);
    var fraction := FractionEnd(separators, buf, whole);
    var end := ExponentEnd(separators, buf, fraction);
    if PartError(buf, start, whole).Some? then Err(PartError(buf, start, whole).value)
    else if At(buf, whole) == LOWER_N then
      if !separators && whole != start + 1 then Err(BigIntLeadingZero)
      else Ok(Lexed(BigIntLiteral(buf[start..whole], 10), whole + 1))
    else if PartError(buf, whole + 1, fraction).Some? then Err(PartError(buf, whole + 1, fraction).value)
    else if end.Err? then Err(end.error)
    else Ok(DecimalNumber(buf, start, end.value))
  }

  function DecimalNumber(buf: seq<Byte>, start: nat, end: nat): Lexed
    requires start <= end <= |buf|
  {
    Lexed(NumberLiteral(Text(WithoutSeparators(buf[start..end]))), end)
  }

  /** The parts of a number without an error. */
  ghost predicate NumberParts(buf: seq<Byte>, start: nat, whole: nat, fraction: nat, end: nat) {
    && start < |buf| && start <= whole <= fraction <= end <= |buf|
    && var separators := buf[start] != ZERO;
    && whole == DigitsEnd(separators, buf, start) && fraction == FractionEnd(separators, buf, whole)
    && ExponentEnd(separators, buf, fraction) == Ok(end)
  }

  lemma LexemeSeparators(buf: seq<Byte>, start: nat, whole: nat, fraction: nat, end: nat, hasSeparator: bool)
    requires NumberParts(buf, start, whole, fraction, end)
    requires hasSeparator ==
      (|| SeparatorIn(buf, start, whole)
       || (whole < fraction && SeparatorIn(buf, whole + 1, fraction))
       || (fraction < end && SeparatorIn(buf, ExponentDigits(buf, fraction), end)))
    ensures !hasSeparator ==> WithoutSeparators(buf[start..end]) == buf[start..end]
  {
    hide DigitsEnd;
    if !hasSeparator { NothingToRemove(buf[start..end]); }
  }
}
