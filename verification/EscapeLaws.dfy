/** What each escape stands for, in string and in template literals, spelled out by its characters. */
module EscapeLaws {
  import Identifiers
  import Lexemes
  import NumberLaws
  import opened NumberBases
  import opened Numbers
  import opened Options
  import TemplateLaws
  import opened TextLiterals
  import opened Tokens
  import opened Unicode
  import Wtf8

  /** The escape at `p` is the backslash and the character `c`. */
  predicate IsEscapeOf(buf: seq<Byte>, p: nat, c: char) {
    p + 1 < |buf| && buf[p] == '\\' as nat && buf[p + 1] == c as nat
  }

  /** Both kinds of literals read the escape at `p` as one piece. */
  ghost predicate Means(buf: seq<Byte>, p: nat, strict: bool, piece: Outcome<Piece>)
    requires p < |buf|
  {
    StringEscape(buf, p, strict) == piece && TemplateEscape(buf, p) == piece
  }

  /** The six letters for control characters. */
  lemma LetterEscapes(buf: seq<Byte>, p: nat, strict: bool)
    requires p < |buf|
    ensures IsEscapeOf(buf, p, 'n') ==> Means(buf, p, strict, Ok(Piece([0x0A], p + 2)))
    ensures IsEscapeOf(buf, p, 't') ==> Means(buf, p, strict, Ok(Piece([0x09], p + 2)))
    ensures IsEscapeOf(buf, p, 'r') ==> Means(buf, p, strict, Ok(Piece([0x0D], p + 2)))
    ensures IsEscapeOf(buf, p, 'b') ==> Means(buf, p, strict, Ok(Piece([0x08], p + 2)))
    ensures IsEscapeOf(buf, p, 'v') ==> Means(buf, p, strict, Ok(Piece([0x0B], p + 2)))
    ensures IsEscapeOf(buf, p, 'f') ==> Means(buf, p, strict, Ok(Piece([0x0C], p + 2)))
  {
  }

  /** A zero that no digit follows is the null character. */
  lemma NullEscape(buf: seq<Byte>, p: nat, strict: bool)
    requires IsEscapeOf(buf, p, '0') && !IsDecimal(At(buf, p + 2))
    ensures Means(buf, p, strict, Ok(Piece([0], p + 2)))
  {
  }

  /** The characters with a meaning of their own after a backslash. */
  predicate HasMeaning(c: nat) {
    IsDecimal(c) || c in [
      'n' as nat, 't' as nat, 'r' as nat, 'b' as nat, 'v' as nat, 'f' as nat, 'x' as nat, 'u' as nat, 0x0A, 0x0D]
  }

  /** Any other ASCII character stands for itself, quotes, backticks and the backslash among them. */
  lemma PlainEscapes(buf: seq<Byte>, p: nat, strict: bool)
    requires p + 1 < |buf| && buf[p] == '\\' as nat && buf[p + 1] < 0x80 && !HasMeaning(buf[p + 1])
    ensures Means(buf, p, strict, Ok(Piece([buf[p + 1]], p + 2)))
  {
    AsciiCharacterAt(buf, p + 1);
    hide Character, UnicodeNewlineLength;
  }

  lemma AsciiCharacterAt(buf: seq<Byte>, p: nat)
    requires p < |buf| && buf[p] < 0x80
    ensures Character(buf, p) == Ok(p + 1) && UnicodeNewlineLength(buf, p) == 0 && buf[p..p + 1] == [buf[p]]
  {
    assert buf[p..][0] == buf[p];
  }

  /** A line end after a backslash is left out: a line feed, a carriage return, or both in this order. */
  lemma LineContinuations(buf: seq<Byte>, p: nat, strict: bool)
    requires p + 1 < |buf| && buf[p] == '\\' as nat
    ensures buf[p + 1] == 0x0A ==> Means(buf, p, strict, Ok(Piece([], p + 2)))
    ensures buf[p + 1] == 0x0D ==>
      Means(buf, p, strict, Ok(Piece([], if At(buf, p + 2) == 0x0A then p + 3 else p + 2)))
  {
  }

  /** Other characters are kept, but a line or paragraph separator is left out like other line ends. */
  lemma OtherEscapes(buf: seq<Byte>, p: nat, strict: bool)
    requires p + 1 < |buf| && buf[p] == '\\' as nat && buf[p + 1] >= 0x80
    ensures
      var c := Wtf8.Step(buf[p + 1..]);
      if c.Err? then Means(buf, p, strict, Err(InvalidUnicode))
      else
        var next := p + 1 + c.length;
        next <= |buf|
        && Means(buf, p, strict,
                 Ok(Piece(if c.codePoint == 0x2028 || c.codePoint == 0x2029 then [] else buf[p + 1..next], next)))
  {
    OtherCharacterAt(buf, p + 1);
    hide Character, UnicodeNewlineLength, Wtf8.Step;
  }

  lemma OtherCharacterAt(buf: seq<Byte>, p: nat)
    requires p < |buf| && buf[p] >= 0x80
    ensures
      match Wtf8.Step(buf[p..])
      case Ok(c, length) =>
        Character(buf, p) == Ok(p + length)
        && (UnicodeNewlineLength(buf, p) > 0 <==> c == 0x2028 || c == 0x2029)
      case Err(_) => Character(buf, p) == Err(InvalidUnicode)
  {
  }

  // Escapes with digits.

  /** The digits in `[from, to)` are the longest run of at most three octal digits that fits a byte. */
  ghost predicate IsOctalEscape(buf: seq<Byte>, from: nat, to: nat) {
    && from < to <= from + 3 && to <= |buf| && (forall i | from <= i < to :: IsDigitOf(8, buf[i]))
    && SumOfDigits(8, buf[from..to]) <= 0xFF
    && (to == from + 3 || !IsDigitOf(8, At(buf, to)) || SumOfDigits(8, buf[from..to + 1]) > 0xFF)
  }

  /** Octal digits after a backslash: as many as fit a byte. In strict mode and in templates they are an error. */
  lemma OctalEscapes(buf: seq<Byte>, p: nat, strict: bool, end: nat)
    requires p + 1 < |buf| && buf[p] == '\\' as nat && IsDigitOf(8, buf[p + 1])
    requires !(buf[p + 1] == '0' as nat && !IsDecimal(At(buf, p + 2)))
    ensures TemplateEscape(buf, p) == Err(MalformedEscape)
    ensures strict ==> StringEscape(buf, p, strict) == Err(LegacyOctalEscapeInStrictMode)
    ensures !strict && IsOctalEscape(buf, p + 1, end) ==>
      StringEscape(buf, p, strict) == Ok(Piece(Wtf8.Encode(SumOfDigits(8, buf[p + 1..end])), end))
  {
    DigitIsDigitOf(Octal, buf[p + 1]);
    if IsOctalEscape(buf, p + 1, end) {
      OctalLengthIs(buf, p + 1, end);
      PositionalIsSum(Octal, buf[p + 1..end]);
    }
    hide OctalLength, Positional, SumOfDigits, Wtf8.Encode, Digit, DigitOf;
  }

  lemma OctalLengthIs(buf: seq<Byte>, p: nat, end: nat)
    requires p < |buf| && IsOctalEscape(buf, p, end)
    ensures end == p + OctalLength(buf, p)
  {
    forall i | p <= i < |buf| && i <= p + 2
      ensures Digit(Octal, buf[i]).Some? == IsDigitOf(8, buf[i])
      ensures Positional(Octal, buf[p..i + 1]) == SumOfDigits(8, buf[p..i + 1])
    {
      DigitIsDigitOf(Octal, buf[i]);
      PositionalIsSum(Octal, buf[p..i + 1]);
    }
    if AreDigits(Octal, buf, p, p + 2) { TwoDigitsFit(buf, p); }
    hide Digit, DigitOf, Positional, SumOfDigits;
  }

  lemma TwoDigitsFit(buf: seq<Byte>, p: nat)
    requires AreDigits(Octal, buf, p, p + 2)
    ensures Positional(Octal, buf[p..p + 2]) <= 0x3F
  {
    PositionalEmpty(Octal, buf, p);
    PositionalDigit(Octal, buf, p, p);
    PositionalDigit(Octal, buf, p, p + 1);
    hide Positional;
  }

  /** Eight and nine stand for themselves, in sloppy strings only. */
  lemma EightAndNine(buf: seq<Byte>, p: nat, strict: bool)
    requires IsEscapeOf(buf, p, '8') || IsEscapeOf(buf, p, '9')
    ensures TemplateEscape(buf, p) == Err(MalformedEscape)
    ensures
      StringEscape(buf, p, strict) ==
        if strict then Err(LegacyNonOctalEscapeInStrictMode) else Ok(Piece([buf[p + 1]], p + 2))
  {
  }

  ghost predicate AreHexDigits(buf: seq<Byte>, from: nat, to: nat) {
    from <= to <= |buf| && forall i | from <= i < to :: IsDigitOf(16, buf[i])
  }

  /** After `\x` two hexadecimal digits. */
  lemma HexEscapes(buf: seq<Byte>, p: nat, strict: bool)
    requires IsEscapeOf(buf, p, 'x')
    ensures
      if AreHexDigits(buf, p + 2, p + 4) then
        var n := SumOfDigits(16, buf[p + 2..p + 4]);
        n <= 0xFF && Means(buf, p, strict, Ok(Piece(Wtf8.Encode(n), p + 4)))
      else Means(buf, p, strict, Err(MalformedEscape))
  {
    HexEscapeIs(buf, p + 2);
    hide HexEscape, SumOfDigits, Wtf8.Encode, AreHexDigits;
  }

  lemma HexEscapeIs(buf: seq<Byte>, p: nat)
    ensures
      HexEscape(buf, p) ==
        if AreHexDigits(buf, p, p + 2) then Some(Escaped(SumOfDigits(16, buf[p..p + 2]), p + 2)) else None
  {
    DigitIsDigitOf(Hex, At(buf, p));
    DigitIsDigitOf(Hex, At(buf, p + 1));
    if AreHexDigits(buf, p, p + 2) { TwoHexDigits(buf, p); }
    hide SumOfDigits, Digit, DigitOf;
  }

  lemma TwoHexDigits(buf: seq<Byte>, p: nat)
    requires AreDigits(Hex, buf, p, p + 2)
    ensures SumOfDigits(16, buf[p..p + 2]) == 0x10 * Digit(Hex, buf[p]).value + Digit(Hex, buf[p + 1]).value
  {
    PositionalEmpty(Hex, buf, p);
    PositionalDigit(Hex, buf, p, p);
    PositionalDigit(Hex, buf, p, p + 1);
    PositionalIsSum(Hex, buf[p..p + 2]);
    hide Positional, SumOfDigits, Digit;
  }

  /** After `\u` four hexadecimal digits, or one to six in braces that are a code point. */
  ghost predicate IsUnicodeEscape(buf: seq<Byte>, p: nat, from: nat, to: nat, next: nat) {
    if At(buf, p) == '{' as nat then
      && from == p + 1 && AreHexDigits(buf, from, to) && 1 <= to - from <= 6 && At(buf, to) == '}' as nat
      && SumOfDigits(16, buf[from..to]) <= 0x10_FFFF && next == to + 1
    else from == p && to == p + 4 && AreHexDigits(buf, from, to) && next == to
  }

  ghost predicate HasUnicodeEscape(buf: seq<Byte>, p: nat) {
    exists from, to, next :: IsUnicodeEscape(buf, p, from, to, next)
  }

  lemma UnicodeEscapes(buf: seq<Byte>, p: nat, strict: bool, from: nat, to: nat, next: nat)
    requires IsEscapeOf(buf, p, 'u')
    ensures IsUnicodeEscape(buf, p + 2, from, to, next) ==>
      var n := SumOfDigits(16, buf[from..to]);
      n <= 0x10_FFFF && Means(buf, p, strict, Ok(Piece(Wtf8.Encode(n), next)))
    ensures !HasUnicodeEscape(buf, p + 2) ==> Means(buf, p, strict, Err(MalformedEscape))
  {
    UnicodeEscapeIs(buf, p + 2, from, to, next);
    hide UnicodeEscape, IsUnicodeEscape, SumOfDigits, Wtf8.Encode, HasUnicodeEscape;
  }

  lemma UnicodeEscapeIs(buf: seq<Byte>, p: nat, from: nat, to: nat, next: nat)
    requires p <= |buf|
    ensures IsUnicodeEscape(buf, p, from, to, next) ==>
      from <= to <= |buf| && UnicodeEscape(buf, p) == Some(Escaped(SumOfDigits(16, buf[from..to]), next))
    ensures UnicodeEscape(buf, p).Some? ==> HasUnicodeEscape(buf, p)
  {
    if At(buf, p) == '{' as nat {
      BracedEscape(buf, p, from, to, next);
    } else {
      PlainUnicodeEscape(buf, p, from, to, next);
    }
    hide UnicodeEscape, HasUnicodeEscape, IsUnicodeEscape, SumOfDigits;
  }

  lemma PlainUnicodeEscape(buf: seq<Byte>, p: nat, from: nat, to: nat, next: nat)
    requires p <= |buf| && At(buf, p) != '{' as nat
    ensures IsUnicodeEscape(buf, p, from, to, next) ==>
      from <= to <= |buf| && UnicodeEscape(buf, p) == Some(Escaped(SumOfDigits(16, buf[from..to]), next))
    ensures UnicodeEscape(buf, p).Some? ==> HasUnicodeEscape(buf, p)
  {
    HexDigitsAre(buf, p, p + 4);
    if AreHexDigits(buf, p, p + 4) {
      PositionalIsSum(Hex, buf[p..p + 4]);
      assert IsUnicodeEscape(buf, p, p, p + 4, p + 4);
    }
    hide Positional, SumOfDigits, AreDigits, AreHexDigits;
  }

  lemma HexDigitsAre(buf: seq<Byte>, from: nat, to: nat)
    requires from <= to
    ensures AreHexDigits(buf, from, to) == AreDigits(Hex, buf, from, to)
  {
    forall i | from <= i < to && i < |buf|
      ensures Digit(Hex, buf[i]).Some? == IsDigitOf(16, buf[i])
    {
      DigitIsDigitOf(Hex, buf[i]);
    }
    hide Digit, DigitOf;
  }

  lemma {:induction false} HexRunIs(buf: seq<Byte>, from: nat, to: nat)
    requires AreDigits(Hex, buf, from, to) && from <= to && Digit(Hex, At(buf, to)).None?
    ensures RunEnd(Hex, false, buf, from) == to
    decreases |buf| - from
  {
    hide Digit;
    if from < to { HexRunIs(buf, from + 1, to); }
  }

  lemma BracedEscape(buf: seq<Byte>, p: nat, from: nat, to: nat, next: nat)
    requires p <= |buf| && At(buf, p) == '{' as nat
    ensures IsUnicodeEscape(buf, p, from, to, next) ==>
      from <= to <= |buf| && UnicodeEscape(buf, p) == Some(Escaped(SumOfDigits(16, buf[from..to]), next))
    ensures UnicodeEscape(buf, p).Some? ==> HasUnicodeEscape(buf, p)
  {
    if IsUnicodeEscape(buf, p, from, to, next) {
      HexDigitsAre(buf, from, to);
      assert Digit(Hex, '}' as nat).None?;
      HexRunIs(buf, from, to);
      PositionalIsSum(Hex, buf[from..to]);
    }
    var end := RunEnd(Hex, false, buf, p + 1);
    if UnicodeEscape(buf, p).Some? {
      NumberLaws.RunMeaning(Hex, false, buf, p + 1);
      HexDigitsAre(buf, p + 1, end);
      PositionalIsSum(Hex, buf[p + 1..end]);
      assert IsUnicodeEscape(buf, p, p + 1, end, end + 1);
    }
    hide Digit, DigitOf, Positional, SumOfDigits, RunEnd;
  }

  // Whole literals.

  /** A byte that ends no string and starts no escape. */
  predicate IsPlain(b: Byte, quote: Byte) {
    b != quote && b != '\\' as nat && b != 0x0A && b != 0x0D
  }

  /** One plain character is kept, and no part of it is anything else. */
  lemma PlainCharacter(buf: seq<Byte>, p: nat, end: nat, quote: Byte, strict: bool)
    requires p < end <= |buf| && Wtf8.Canonical(buf[p..]) && IsQuote(quote) && IsPlain(buf[p], quote)
    requires end < |buf| ==> buf[end] < 0x80
    ensures Character(buf, p).Ok?
    ensures
      var next := Character(buf, p).value;
      && p < next <= end && Wtf8.Canonical(buf[next..])
      && StringValue(buf, p, quote, strict) == Prepend(buf[p..next], StringValue(buf, next, quote, strict))
  {
    CanonicalCharacter(buf, p);
    TemplateLaws.CharacterBytes(buf, p);
    hide Wtf8.Canonical, Wtf8.Step, Wtf8.Encode, Character, StringEscape;
  }

  /** Text without escapes stands for itself, up to the closing quote. */
  lemma {:induction false} PlainText(buf: seq<Byte>, p: nat, end: nat, quote: Byte, strict: bool)
    requires p <= end < |buf| && Wtf8.Canonical(buf[p..]) && IsQuote(quote) && buf[end] == quote
    requires forall i | p <= i < end :: IsPlain(buf[i], quote)
    ensures StringValue(buf, p, quote, strict) == Ok(Piece(buf[p..end], end + 1))
    decreases end - p
  {
    hide Wtf8.Canonical, Character, IsPlain;
    if p == end {
      assert buf[p..end] == [];
    } else {
      PlainCharacter(buf, p, end, quote, strict);
      var next := Character(buf, p).value;
      hide StringValue;
      PlainText(buf, next, end, quote, strict);
      SliceExtends(buf, p, next, end);
    }
  }

  /** A line end or the end of input before the closing quote is an error. */
  lemma {:induction false} Unterminated(buf: seq<Byte>, p: nat, end: nat, quote: Byte, strict: bool)
    requires p <= end <= |buf| && Wtf8.Canonical(buf[p..]) && IsQuote(quote)
    requires end < |buf| ==> buf[end] == 0x0A || buf[end] == 0x0D
    requires forall i | p <= i < end :: IsPlain(buf[i], quote)
    ensures StringValue(buf, p, quote, strict) == Err(UnterminatedStringLiteral)
    decreases end - p
  {
    hide Wtf8.Canonical, Character, IsPlain, StringEscape;
    if p < end {
      PlainCharacter(buf, p, end, quote, strict);
      hide StringValue;
      Unterminated(buf, Character(buf, p).value, end, quote, strict);
    }
  }

  /** A string that is read ends behind a quote like the one it starts with. */
  lemma {:induction false} StringEnds(buf: seq<Byte>, p: nat, quote: Byte, strict: bool, sliced: bool)
    requires p <= |buf| && StringRead(buf, p, quote, strict, sliced).Ok?
    ensures buf[StringRead(buf, p, quote, strict, sliced).value.next - 1] == quote
    decreases |buf| - p
  {
    hide StringEscape, ReadEscape, ReadCharacter;
    if buf[p] != quote {
      var isEscape := buf[p] == BACKSLASH;
      var piece := if isEscape then ReadEscape(buf, p, StringEscape(buf, p, strict)) else ReadCharacter(buf, p, sliced);
      StringEnds(buf, piece.value.next, quote, strict, sliced && !isEscape);
    }
  }

  /** Literals end behind their last delimiter: the quote, a backtick, or a dollar sign and a brace. */
  lemma LiteralBounds(buf: seq<Byte>, p: nat, strict: bool, isHead: bool)
    requires p < |buf|
    ensures IsQuote(buf[p]) && StringAt(buf, p, strict).Ok? ==>
      buf[StringAt(buf, p, strict).value.end - 1] == buf[p]
    ensures
      var r := TemplateLaws.TemplateAt(buf, p + 1, isHead);
      r.Ok? ==>
        if r.value.token.isTail then buf[r.value.end - 1] == '`' as nat
        else r.value.end >= 2 && buf[r.value.end - 2] == '$' as nat && buf[r.value.end - 1] == '{' as nat
  {
    if IsQuote(buf[p]) && StringAt(buf, p, strict).Ok? { StringEnds(buf, p + 1, buf[p], strict, true); }
    hide StringRead, TemplateLaws.TemplateRead;
  }

  /** The string of a single escape: a quote, a backslash, a character and the quote again. */
  lemma EscapeToken(classes: Identifiers.Classes, quote: Byte, c: Byte, value: seq<Byte>, strict: bool)
    requires IsQuote(quote)
    requires StringEscape([quote, '\\' as Byte, c, quote], 1, strict) == Ok(Piece(value, 3)) && c < 0x80
    ensures
      Lexemes.TokenAt(classes, [quote, '\\' as Byte, c, quote], 0, strict) == Ok(Lexed(StringLiteral(value), 4))
  {
    var buf := [quote, '\\' as Byte, c, quote];
    assert StringRead(buf, 3, quote, strict, false) == Ok(Piece([], 4));
    hide StringEscape;
    assert StringRead(buf, 1, quote, strict, true) == Prepend(value, Ok(Piece([], 4)));
    assert value + [] == value;
  }

  /** Such strings of control letters: `"\n"` is a line feed, `"\t"` a tab. */
  lemma LetterTokens(classes: Identifiers.Classes, strict: bool)
    ensures
      Lexemes.TokenAt(classes, ['"' as Byte, '\\' as Byte, 'n' as Byte, '"' as Byte], 0, strict)
      == Ok(Lexed(StringLiteral([0x0A]), 4))
    ensures
      Lexemes.TokenAt(classes, ['"' as Byte, '\\' as Byte, 't' as Byte, '"' as Byte], 0, strict)
      == Ok(Lexed(StringLiteral([0x09]), 4))
  {
    LetterEscapes(['"' as Byte, '\\' as Byte, 'n' as Byte, '"' as Byte], 1, strict);
    LetterEscapes(['"' as Byte, '\\' as Byte, 't' as Byte, '"' as Byte], 1, strict);
    hide StringEscape, TemplateEscape, Lexemes.TokenAt;
    EscapeToken(classes, '"' as Byte, 'n' as Byte, [0x0A], strict);
    EscapeToken(classes, '"' as Byte, 't' as Byte, [0x09], strict);
  }
}
