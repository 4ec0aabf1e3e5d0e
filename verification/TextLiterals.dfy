/**
  What string and template literals mean, position by position in the source, and what the lexer reads.

  In the meaning text outside escapes stands for its own bytes, so nothing there decodes a character in
  order to encode it again, and nothing distinguishes literals with escapes from those without. The
  lexer does both: from the first escape on it encodes again what it has decoded.
 */
module TextLiterals {
  import opened Numbers
  import opened NumberLaws
  import opened Options
  import opened Tokens
  import opened Unicode
  import Wtf8

  const BACKSLASH: Byte := 0x5C
  const LINE_FEED: Byte := 0x0A
  const CARRIAGE_RETURN: Byte := 0x0D
  const DOUBLE_QUOTE: Byte := 0x22
  const SINGLE_QUOTE: Byte := 0x27
  const BACKTICK: Byte := 0x60
  const DOLLAR: Byte := 0x24
  const LEFT_BRACE: Byte := 0x7B
  const RIGHT_BRACE: Byte := 0x7D
  const LOWER_X: Byte := 0x78
  const LOWER_U: Byte := 0x75

  /** Some bytes of a value, and where the source goes on. */
  datatype Piece = Piece(value: seq<Byte>, next: nat)

  predicate IsUnicodeNewline(c: CodePoint) {
    c == 0x2028 || c == 0x2029
  }

  /** The character at a position: the end of input is a panic, bytes that do not decode are an error. */
  function Character(buf: seq<Byte>, p: nat): (r: Outcome<nat>)
    requires p <= |buf|
    ensures r.Ok? ==> p < r.value <= |buf|
  {
    if p == |buf| then Panic
    else
      match Wtf8.Step(buf[p..])
      case Ok(_, length) => Ok(p + length)
      case Err(_) => Err(InvalidUnicode)
  }

  /** The bytes of a line or paragraph separator at a position, if there is one. */
  function UnicodeNewlineLength(buf: seq<Byte>, p: nat): (n: nat)
    requires p <= |buf|
    ensures p + n <= |buf|
  {
    if p < |buf| && buf[p] >= 0x80 && Wtf8.Step(buf[p..]).Ok? && IsUnicodeNewline(Wtf8.Step(buf[p..]).codePoint)
    then Wtf8.Step(buf[p..]).length else 0
  }

  // Escape sequences.

  predicate AreDigits(radix: Radix, buf: seq<Byte>, from: nat, to: nat) {
    to <= |buf| && forall i | from <= i < to :: Digit(radix, buf[i]).Some?
  }

  /** The control characters that have a letter. */
  function SingleEscape(c: nat): (r: Option<Byte>)
  {
    if c == 0x6E then Some(0x0A)
    else if c == 0x74 then Some(0x09)
    else if c == 0x72 then Some(0x0D)
    else if c == 0x62 then Some(0x08)
    else if c == 0x76 then Some(0x0B)
    else if c == 0x66 then Some(0x0C)
    else None
  }

  datatype Escaped = Escaped(codePoint: CodePoint, next: nat)

  /** What follows `\u`: one to six hexadecimal digits in braces, or four without. */
  function UnicodeEscape(buf: seq<Byte>, p: nat): (r: Option<Escaped>)
    requires p <= |buf|
    ensures r.Some? ==> p < r.value.next <= |buf| && r.value.codePoint <= MAX_CODE_POINT
  {
    if At(buf, p) == LEFT_BRACE then
      var end := RunEnd(Hex, false, buf, p + 1);
      var value := Positional(Hex, buf[p + 1..end]);
      if 1 <= end - (p + 1) <= 6 && At(buf, end) == RIGHT_BRACE && value <= MAX_CODE_POINT
      then Some(Escaped(value, end + 1)) else None
    else FourDigits(buf, p)
  }

  lemma PositionalEmpty(radix: Radix, buf: seq<Byte>, p: nat)
    requires p <= |buf|
    ensures Positional(radix, buf[p..p]) == 0
  {
  }

  /** The number up to a position, one digit further. */
  lemma PositionalDigit(radix: Radix, buf: seq<Byte>, from: nat, to: nat)
    requires from <= to < |buf| && Digit(radix, buf[to]).Some?
    ensures
      Positional(radix, buf[from..to + 1])
      == Times(radix, Positional(radix, buf[from..to])) + Digit(radix, buf[to]).value
  {
    SliceWithoutLast(buf, from, to);
  }

  lemma FourDigitsFit(buf: seq<Byte>, p: nat)
    requires AreDigits(Hex, buf, p, p + 4)
    ensures Positional(Hex, buf[p..p + 4]) <= 0xFFFF
  {
    PositionalEmpty(Hex, buf, p);
    PositionalDigit(Hex, buf, p, p);
    PositionalDigit(Hex, buf, p, p + 1);
    PositionalDigit(Hex, buf, p, p + 2);
    PositionalDigit(Hex, buf, p, p + 3);
    hide Positional;
  }

  function FourDigits(buf: seq<Byte>, p: nat): (r: Option<Escaped>)
    ensures r.Some? ==> r.value.next == p + 4 <= |buf| && r.value.codePoint <= MAX_CODE_POINT
  {
    if AreDigits(Hex, buf, p, p + 4) then
      FourDigitsFit(buf, p);
      Some(Escaped(Positional(Hex, buf[p..p + 4]), p + 4))
    else None
  }

  /** What follows `\x`: two hexadecimal digits. */
  function HexEscape(buf: seq<Byte>, p: nat): (r: Option<Escaped>)
    ensures r.Some? ==> r.value.next == p + 2 <= |buf| && r.value.codePoint <= 0xFF
  {
    if Digit(Hex, At(buf, p)).Some? && Digit(Hex, At(buf, p + 1)).Some?
    then Some(Escaped(0x10 * Digit(Hex, At(buf, p)).value + Digit(Hex, At(buf, p + 1)).value, p + 2))
    else None
  }

  function EscapedPiece(e: Option<Escaped>): (r: Outcome<Piece>)
    requires e.Some? ==> e.value.codePoint <= MAX_CODE_POINT
  {
    if e.None? then Err(MalformedEscape) else Ok(Piece(Wtf8.Encode(e.value.codePoint), e.value.next))
  }

  /** A character after a backslash that has no other meaning: itself, or nothing if it ends the line. */
  function EscapedCharacter(buf: seq<Byte>, p: nat): (r: Outcome<Piece>)
    requires p <= |buf|
    ensures r.Ok? ==> p < r.value.next <= |buf|
  {
    match Character(buf, p)
    case Ok(next) => Ok(Piece(if UnicodeNewlineLength(buf, p) > 0 then [] else buf[p..next], next))
    case Err(error) => Err(error)
    case Panic => Panic
  }

  /** The escape whose backslash is at `p`, unless it starts with a digit. */
  function Escape(buf: seq<Byte>, p: nat): (r: Outcome<Piece>)
    requires p < |buf|
    ensures r.Ok? ==> p < r.value.next <= |buf|
  {
    var c := At(buf, p + 1);
    if SingleEscape(c).Some? then Ok(Piece([SingleEscape(c).value], p + 2))
    else if c == LOWER_X then EscapedPiece(HexEscape(buf, p + 2))
    else if c == LOWER_U then EscapedPiece(UnicodeEscape(buf, p + 2))
    else if c == LINE_FEED then Ok(Piece([], p + 2))
    else if c == CARRIAGE_RETURN then Ok(Piece([], AfterReturn(buf, p + 1)))
    else EscapedCharacter(buf, p + 1)
  }

  /** How many octal digits a legacy escape takes: as many as keep it in one byte, three at most. */
  function OctalLength(buf: seq<Byte>, p: nat): (n: nat)
    requires p < |buf|
    ensures 1 <= n <= 3 && p + n <= |buf|
  {
    if AreDigits(Octal, buf, p, p + 3) && Positional(Octal, buf[p..p + 3]) <= 0xFF then 3
    else if AreDigits(Octal, buf, p, p + 2) then 2
    else 1
  }

  lemma OctalFitsByte(buf: seq<Byte>, p: nat)
    requires p < |buf| && Digit(Octal, buf[p]).Some?
    ensures Positional(Octal, buf[p..p + OctalLength(buf, p)]) <= 0xFF
  {
    PositionalEmpty(Octal, buf, p);
    PositionalDigit(Octal, buf, p, p);
    if OctalLength(buf, p) == 2 { PositionalDigit(Octal, buf, p, p + 1); }
  }

  /** An escape in a string literal, digits included. */
  function StringEscape(buf: seq<Byte>, p: nat, strict: bool): (r: Outcome<Piece>)
    requires p < |buf|
    ensures r.Ok? ==> p < r.value.next <= |buf|
  {
    var c := At(buf, p + 1);
    if c == ZERO && !IsDecimalDigit(At(buf, p + 2)) then Ok(Piece([0], p + 2))
    else if Digit(Octal, c).Some? then
      if strict then Err(LegacyOctalEscapeInStrictMode)
      else
        var end := p + 1 + OctalLength(buf, p + 1);
        OctalFitsByte(buf, p + 1);
        Ok(Piece(Wtf8.Encode(Positional(Octal, buf[p + 1..end])), end))
    else if IsDecimalDigit(c) then
      if strict then Err(LegacyNonOctalEscapeInStrictMode) else Ok(Piece([c], p + 2))
    else Escape(buf, p)
  }

  // String literals.

  function Prepend(value: seq<Byte>, rest: Outcome<Piece>): Outcome<Piece> {
    if rest.Ok? then Ok(Piece(value + rest.value.value, rest.value.next)) else rest
  }

  lemma PrependTwice(a: seq<Byte>, b: seq<Byte>, rest: Outcome<Piece>)
    ensures Prepend(a, Prepend(b, rest)) == Prepend(a + b, rest)
  {
    if rest.Ok? { assert a + (b + rest.value.value) == (a + b) + rest.value.value; }
  }

  /** The value from `p` on to the closing quote, and the position after it. */
  function StringValue(buf: seq<Byte>, p: nat, quote: Byte, strict: bool): (r: Outcome<Piece>)
    requires p <= |buf|
    ensures r.Ok? ==> p < r.value.next <= |buf|
    decreases |buf| - p
  {
    var c := At(buf, p);
    if c == quote then Ok(Piece([], p + 1))
    else if c == EOF_CHAR || c == LINE_FEED || c == CARRIAGE_RETURN then Err(UnterminatedStringLiteral)
    else if c == BACKSLASH then
      var piece := StringEscape(buf, p, strict);
      if !piece.Ok? then piece
      else Prepend(piece.value.value, StringValue(buf, piece.value.next, quote, strict))
    else
      match Character(buf, p)
      case Ok(next) => Prepend(buf[p..next], StringValue(buf, next, quote, strict))
      case Err(error) => Err(error)
      case Panic => Panic
  }

  // Template literals.

  /** Line ends as line feeds. */
  function Normalized(s: seq<Byte>): seq<Byte> {
    if s == [] then []
    else if s[0] == CARRIAGE_RETURN then
      [LINE_FEED] + Normalized(if |s| > 1 && s[1] == LINE_FEED then s[2..] else s[1..])
    else [s[0]] + Normalized(s[1..])
  }

  datatype TemplateEnd = TemplateEnd(rawEnd: nat, isTail: bool)

  /** Where the text of a template part ends: at the first backtick or `${` that no backslash precedes. */
  function EndOfTemplate(buf: seq<Byte>, p: nat): (r: Outcome<TemplateEnd>)
    requires p <= |buf|
    ensures r.Ok? ==>
      && p <= r.value.rawEnd < |buf|
      && if r.value.isTail then buf[r.value.rawEnd] == BACKTICK
         else buf[r.value.rawEnd] == DOLLAR && At(buf, r.value.rawEnd + 1) == LEFT_BRACE
    decreases |buf| - p
  {
    var c := At(buf, p);
    if c == BACKTICK then Ok(TemplateEnd(p, true))
    else if c == DOLLAR && At(buf, p + 1) == LEFT_BRACE then Ok(TemplateEnd(p, false))
    else
      match Character(buf, if c == BACKSLASH then p + 1 else p)
      case Ok(next) => EndOfTemplate(buf, next)
      case Err(error) => Err(error)
      case Panic => Panic
  }

  /** An escape in a template: of the digits only a zero that no digit follows. */
  function TemplateEscape(buf: seq<Byte>, p: nat): (r: Outcome<Piece>)
    requires p < |buf|
    ensures r.Ok? ==> p < r.value.next <= |buf|
  {
    if IsDecimalDigit(At(buf, p + 1)) then
      if At(buf, p + 1) == ZERO && !IsDecimalDigit(At(buf, p + 2)) then Ok(Piece([0], p + 2)) else Err(MalformedEscape)
    else Escape(buf, p)
  }

  function PrependText(value: seq<Byte>, rest: Option<seq<Byte>>): Option<seq<Byte>> {
    if rest.Some? then Some(value + rest.value) else None
  }

  lemma PrependTextTwice(a: seq<Byte>, b: seq<Byte>, rest: Option<seq<Byte>>)
    ensures PrependText(a, PrependText(b, rest)) == PrependText(a + b, rest)
  {
    if rest.Some? { assert a + (b + rest.value) == (a + b) + rest.value; }
  }

  /** Where the source goes on after a carriage return: a line feed after it belongs to it. */
  function AfterReturn(buf: seq<Byte>, p: nat): nat {
    if At(buf, p + 1) == LINE_FEED then p + 2 else p + 1
  }

  /** The cooked text from `p` to `end`: none if it has a malformed escape. */
  function Cooked(buf: seq<Byte>, p: nat, end: nat): Option<seq<Byte>>
    requires end < |buf|
    decreases |buf| - p
  {
    if p >= end then Some([])
    else if buf[p] == BACKSLASH then
      var piece := TemplateEscape(buf, p);
      if !piece.Ok? then None else PrependText(piece.value.value, Cooked(buf, piece.value.next, end))
    else if buf[p] == CARRIAGE_RETURN then
      PrependText([LINE_FEED], Cooked(buf, AfterReturn(buf, p), end))
    else PrependText([buf[p]], Cooked(buf, p + 1, end))
  }

  /** The bytes that a malformed escape may have been read over. */
  predicate IsEscapeByte(b: Byte) {
    Digit(Hex, b).Some? || b == LEFT_BRACE || b == RIGHT_BRACE
  }

  ghost predicate AreEscapeBytes(buf: seq<Byte>, from: nat, to: nat) {
    from <= to <= |buf| && forall i | from <= i < to :: IsEscapeByte(buf[i])
  }

  /** Behind its first two bytes an escape has nothing but digits and braces. */
  ghost predicate IsEscapeTail(buf: seq<Byte>, p: nat, q: nat) {
    p + 2 <= q && AreEscapeBytes(buf, p + 2, q)
  }

  /** The only carriage return among the bytes of an escape is the escaped character. */
  ghost predicate ReturnIsEscaped(buf: seq<Byte>, p: nat, q: nat) {
    p <= q <= |buf| && forall i | p <= i < q && buf[i] == CARRIAGE_RETURN :: i == p + 1
  }

  lemma TailHasNoReturn(buf: seq<Byte>, p: nat, q: nat)
    requires IsEscapeTail(buf, p, q) && buf[p] == BACKSLASH
    ensures ReturnIsEscaped(buf, p, q)
  {
  }

  lemma CharacterHasNoReturn(buf: seq<Byte>, p: nat, q: nat)
    requires p + 1 <= q <= |buf| && buf[p] == BACKSLASH && forall i | p + 1 <= i < q :: buf[i] >= 0x80
    ensures ReturnIsEscaped(buf, p, q)
  {
  }

  lemma PairHasNoReturn(buf: seq<Byte>, p: nat, q: nat)
    requires p + 2 <= |buf| && buf[p] == BACKSLASH
    requires q == p + 2 || (q == p + 3 <= |buf| && buf[p + 2] == LINE_FEED)
    ensures ReturnIsEscaped(buf, p, q) && (q == p + 2 ==> IsEscapeTail(buf, p, q))
  {
  }

  // Canonical sources, where encoding a decoded character gives its bytes back.

  lemma CanonicalCharacter(buf: seq<Byte>, p: nat)
    requires p < |buf| && Wtf8.Canonical(buf[p..])
    ensures Character(buf, p).Ok?
    ensures
      var d, next := Wtf8.Step(buf[p..]), Character(buf, p).value;
      && d.codePoint <= MAX_CODE_POINT && Wtf8.Encode(d.codePoint) == buf[p..next] && Wtf8.Canonical(buf[next..])
  {
    hide Wtf8.Step, Wtf8.Encode;
    Wtf8.CanonicalEncodes(buf[p..]);
    var next := Character(buf, p).value;
    assert buf[p..][..next - p] == buf[p..next] && buf[p..][next - p..] == buf[next..];
  }

  lemma {:induction false} CanonicalAscii(buf: seq<Byte>, from: nat, to: nat)
    requires from <= to <= |buf| && Wtf8.Canonical(buf[from..]) && forall i | from <= i < to :: buf[i] < 0x80
    ensures Wtf8.Canonical(buf[to..])
    decreases |buf| - from
  {
    if from < to {
      CanonicalCharacter(buf, from);
      CanonicalAscii(buf, from + 1, to);
    }
  }

  lemma EscapedAscii(buf: seq<Byte>, p: nat)
    requires p + 1 < |buf| && buf[p + 1] < 0x80
    ensures EscapedCharacter(buf, p + 1) == Ok(Piece([buf[p + 1]], p + 2))
  {
    assert buf[p + 1..p + 2] == [buf[p + 1]];
  }

  /** A character that is not ASCII, after a backslash. */
  lemma EscapedOther(buf: seq<Byte>, p: nat)
    requires p < |buf| && At(buf, p + 1) >= 0x80
    ensures
      var read := ReadEscape(buf, p, Escape(buf, p));
      if p + 1 == |buf| then read == Panic
      else
        match Wtf8.Decode(buf[p + 1..])
        case Err(_) => read == Err(InvalidUnicode)
        case Ok(c, length) =>
          read ==
            if IsUnicodeNewline(c) then Ok(Piece([], p + 1 + length))
            else if c <= MAX_CODE_POINT then Ok(Piece(Wtf8.Encode(c), p + 1 + length))
            else Panic
  {
    hide Wtf8.Decode, Wtf8.Encode;
  }

  /** After a backslash ASCII is read as described. */
  lemma EscapedSame(buf: seq<Byte>, p: nat, escape: Outcome<Piece>)
    requires p < |buf| && (escape.Ok? ==> p < escape.value.next <= |buf|) && At(buf, p + 1) < 0x80
    ensures ReadEscape(buf, p, escape) == escape
  {
  }

  lemma SliceByOne(buf: seq<Byte>, from: nat, p: nat)
    requires from <= p < |buf|
    ensures buf[from..p] + [buf[p]] == buf[from..p + 1]
    ensures buf[p..p + 1] == [buf[p]]
  {
  }

  // What the lexer reads: slices of the source at first, and code points that are encoded again from an escape on.

  /** What pushing a code point adds: a value past the last code point is a panic. */
  function Pushed(c: CodePoint): Outcome<seq<Byte>> {
    if c <= MAX_CODE_POINT then Ok(Wtf8.Encode(c)) else Panic
  }

  /** What one character adds to a value: its bytes, or what its code point encodes to. */
  function ReadCharacter(buf: seq<Byte>, p: nat, sliced: bool): (r: Outcome<Piece>)
    requires p <= |buf|
    ensures r.Ok? ==> p < r.value.next <= |buf|
  {
    match Character(buf, p)
    case Ok(next) =>
      if sliced then Ok(Piece(buf[p..next], next))
      else
        (match Pushed(Wtf8.Step(buf[p..]).codePoint)
         case Ok(bytes) => Ok(Piece(bytes, next))
         case Err(error) => Err(error)
         case Panic => Panic)
    case Err(error) => Err(error)
    case Panic => Panic
  }

  /** An escape at `p`: an escaped character outside ASCII is encoded again, unless it ends the line. */
  function ReadEscape(buf: seq<Byte>, p: nat, escape: Outcome<Piece>): (r: Outcome<Piece>)
    requires p < |buf| && (escape.Ok? ==> p < escape.value.next <= |buf|)
    ensures r.Ok? ==> p < r.value.next <= |buf|
  {
    if escape.Ok? && p + 1 < |buf| && buf[p + 1] >= 0x80 && escape.value.value != []
    then ReadCharacter(buf, p + 1, false) else escape
  }

  /** The value that is read from `p` on to the closing quote, on whatever source. */
  function StringRead(buf: seq<Byte>, p: nat, quote: Byte, strict: bool, sliced: bool): (r: Outcome<Piece>)
    requires p <= |buf|
    ensures r.Ok? ==> p < r.value.next <= |buf|
    decreases |buf| - p
  {
    var c := At(buf, p);
    if c == quote then Ok(Piece([], p + 1))
    else if c == EOF_CHAR || c == LINE_FEED || c == CARRIAGE_RETURN then Err(UnterminatedStringLiteral)
    else
      var isEscape := c == BACKSLASH;
      var piece :=
        if isEscape then ReadEscape(buf, p, StringEscape(buf, p, strict)) else ReadCharacter(buf, p, sliced);
      if !piece.Ok? then piece
      else Prepend(piece.value.value, StringRead(buf, piece.value.next, quote, strict, sliced && !isEscape))
  }

  /** The string literal at a quote. */
  function StringAt(buf: seq<Byte>, p: nat, strict: bool): (r: Outcome<Lexed>)
    requires p < |buf| && IsQuote(buf[p])
    ensures r.Ok? ==> r.value.token.StringLiteral? && p < r.value.end <= |buf|
  {
    match StringRead(buf, p + 1, buf[p], strict, true)
    case Ok(piece) => Ok(Lexed(StringLiteral(piece.value), piece.next))
    case Err(error) => Err(error)
    case Panic => Panic
  }

  predicate IsQuote(b: Byte) {
    b == DOUBLE_QUOTE || b == SINGLE_QUOTE
  }

  // Steps of reading a string literal.

  /** What a scan of a literal knows: the value read so far. */
  ghost predicate StringScan(
    buf: seq<Byte>, whole: Outcome<Piece>, p: nat, quote: Byte, strict: bool, sliced: bool, value: seq<Byte>)
  {
    p <= |buf| && whole == Prepend(value, StringRead(buf, p, quote, strict, sliced))
  }

  lemma StringScanStarts(buf: seq<Byte>, p: nat, quote: Byte, strict: bool)
    requires p <= |buf|
    ensures StringScan(buf, StringRead(buf, p, quote, strict, true), p, quote, strict, true, [])
  {
    var rest := StringRead(buf, p, quote, strict, true);
    if rest.Ok? { assert [] + rest.value.value == rest.value.value; }
  }

  lemma StringScanCharacter(
    buf: seq<Byte>, whole: Outcome<Piece>, p: nat, quote: Byte, strict: bool, sliced: bool, value: seq<Byte>)
    requires StringScan(buf, whole, p, quote, strict, sliced, value) && p < |buf|
    requires buf[p] !in [quote, LINE_FEED, CARRIAGE_RETURN, BACKSLASH]
    ensures
      var piece := ReadCharacter(buf, p, sliced);
      if piece.Ok? then StringScan(buf, whole, piece.value.next, quote, strict, sliced, value + piece.value.value)
      else whole == piece
  {
    hide ReadCharacter, ReadEscape, StringEscape;
    var piece := ReadCharacter(buf, p, sliced);
    if piece.Ok? {
      PrependTwice(value, piece.value.value, StringRead(buf, piece.value.next, quote, strict, sliced));
    }
  }

  /** One more character of a slice of the source. */
  lemma StringScanSlice(buf: seq<Byte>, whole: Outcome<Piece>, start: nat, p: nat, quote: Byte, strict: bool)
    requires start <= p < |buf| && StringScan(buf, whole, p, quote, strict, true, buf[start..p])
    requires buf[p] !in [quote, LINE_FEED, CARRIAGE_RETURN, BACKSLASH]
    ensures match Character(buf, p)
      case Ok(next) => StringScan(buf, whole, next, quote, strict, true, buf[start..next])
      case Err(error) => whole == Err(error)
      case Panic => whole == Panic
  {
    StringScanCharacter(buf, whole, p, quote, strict, true, buf[start..p]);
    hide StringScan, Character;
    if Character(buf, p).Ok? { SliceExtends(buf, start, p, Character(buf, p).value); }
  }

  /** An escape, which is read in the same way on both paths. */
  lemma StringScanEscape(
    buf: seq<Byte>, whole: Outcome<Piece>, p: nat, quote: Byte, strict: bool, sliced: bool, value: seq<Byte>)
    requires StringScan(buf, whole, p, quote, strict, sliced, value)
    requires p < |buf| && buf[p] == BACKSLASH && IsQuote(quote)
    ensures
      var piece := ReadEscape(buf, p, StringEscape(buf, p, strict));
      if piece.Ok? then StringScan(buf, whole, piece.value.next, quote, strict, false, value + piece.value.value)
      else whole == piece
    ensures StringScan(buf, whole, p, quote, strict, false, value)
  {
    hide ReadEscape, StringEscape;
    var piece := ReadEscape(buf, p, StringEscape(buf, p, strict));
    if piece.Ok? {
      PrependTwice(value, piece.value.value, StringRead(buf, piece.value.next, quote, strict, false));
    }
  }

  lemma StringScanEnds(
    buf: seq<Byte>, whole: Outcome<Piece>, p: nat, quote: Byte, strict: bool, sliced: bool, value: seq<Byte>)
    requires StringScan(buf, whole, p, quote, strict, sliced, value) && IsQuote(quote)
    ensures At(buf, p) == quote ==> whole == Ok(Piece(value, p + 1))
    ensures At(buf, p) in [LINE_FEED as nat, CARRIAGE_RETURN as nat, EOF_CHAR] ==>
      whole == Err(UnterminatedStringLiteral)
  {
    hide ReadCharacter, ReadEscape, StringEscape;
    assert value + [] == value;
  }

  /** Escapes are read from a canonical source as they are described. */
  lemma EscapeIsRead(buf: seq<Byte>, p: nat, strict: bool)
    requires p < |buf| && buf[p] == BACKSLASH && Wtf8.Canonical(buf[p..])
    ensures ReadEscape(buf, p, StringEscape(buf, p, strict)) == StringEscape(buf, p, strict)
    ensures ReadEscape(buf, p, Escape(buf, p)) == Escape(buf, p)
  {
    if p + 1 < |buf| && buf[p + 1] >= 0x80 {
      CanonicalAscii(buf, p, p + 1);
      CanonicalCharacter(buf, p + 1);
      hide Wtf8.Canonical, Wtf8.Step, Wtf8.Encode;
    }
    hide HexEscape, UnicodeEscape, Positional;
  }

  /** On a canonical source both paths read the value that text and escapes stand for. */
  lemma {:induction false} StringReadMeaning(buf: seq<Byte>, p: nat, quote: Byte, strict: bool, sliced: bool)
    requires p <= |buf| && Wtf8.Canonical(buf[p..]) && IsQuote(quote)
    ensures StringRead(buf, p, quote, strict, sliced) == StringValue(buf, p, quote, strict)
    decreases |buf| - p
  {
    hide Wtf8.Canonical, StringEscape, ReadEscape, Character, Wtf8.Encode, Wtf8.Step;
    if p < |buf| && buf[p] != quote {
      if buf[p] == BACKSLASH {
        EscapeIsRead(buf, p, strict);
        if StringEscape(buf, p, strict).Ok? {
          StringEscapeCanonical(buf, p, strict);
          StringReadMeaning(buf, StringEscape(buf, p, strict).value.next, quote, strict, false);
        }
      } else {
        CanonicalCharacter(buf, p);
        StringReadMeaning(buf, Character(buf, p).value, quote, strict, sliced);
      }
    }
  }

  lemma StringEscapeCanonical(buf: seq<Byte>, p: nat, strict: bool)
    requires p < |buf| && buf[p] == BACKSLASH && Wtf8.Canonical(buf[p..]) && StringEscape(buf, p, strict).Ok?
    ensures Wtf8.Canonical(buf[StringEscape(buf, p, strict).value.next..])
  {
    hide Wtf8.Canonical, Escape;
    var c, next := At(buf, p + 1), StringEscape(buf, p, strict).value.next;
    if IsDecimalDigit(c) {
      CanonicalAscii(buf, p, next);
    } else {
      EscapeCanonical(buf, p);
    }
  }

  lemma EscapeCanonical(buf: seq<Byte>, p: nat)
    requires p < |buf| && buf[p] == BACKSLASH && Wtf8.Canonical(buf[p..]) && Escape(buf, p).Ok?
    ensures Wtf8.Canonical(buf[Escape(buf, p).value.next..])
  {
    hide Wtf8.Canonical, Character, EscapedCharacter;
    var c, next := At(buf, p + 1), Escape(buf, p).value.next;
    if c == LOWER_U {
      UnicodeEscapeIsAscii(buf, p + 2);
      CanonicalAscii(buf, p, next);
    } else if SingleEscape(c).Some? || c == LOWER_X || c == LINE_FEED || c == CARRIAGE_RETURN {
      CanonicalAscii(buf, p, next);
    } else {
      CanonicalAscii(buf, p, p + 1);
      EscapedCharacterCanonical(buf, p + 1);
    }
  }

  lemma EscapedCharacterCanonical(buf: seq<Byte>, p: nat)
    requires p <= |buf| && Wtf8.Canonical(buf[p..]) && EscapedCharacter(buf, p).Ok?
    ensures Wtf8.Canonical(buf[EscapedCharacter(buf, p).value.next..])
  {
    CanonicalCharacter(buf, p);
    hide Wtf8.Canonical;
  }

  lemma DecodedBytes(buf: seq<Byte>, p: nat)
    requires p < |buf|
    ensures Wtf8.Decode(buf[p..]).Ok? ==> forall i | p <= i < p + Wtf8.Decode(buf[p..]).length :: buf[i] >= 0x80
  {
    var rest := buf[p..];
    assert forall i | p <= i < |buf| :: buf[i] == rest[i - p];
  }

  lemma HexEscapeIsAscii(buf: seq<Byte>, p: nat)
    requires HexEscape(buf, p).Some?
    ensures forall i | p <= i < p + 2 :: IsEscapeByte(buf[i]) && buf[i] < 0x80
  {
  }

  lemma UnicodeEscapeIsAscii(buf: seq<Byte>, p: nat)
    requires p <= |buf| && UnicodeEscape(buf, p).Some?
    ensures forall i | p <= i < UnicodeEscape(buf, p).value.next :: IsEscapeByte(buf[i]) && buf[i] < 0x80
  {
    if At(buf, p) == LEFT_BRACE { RunMeaning(Hex, false, buf, p + 1); }
  }

  // The value of a literal in a canonical source is canonical itself.

  lemma PieceIsText(buf: seq<Byte>, p: nat, strict: bool)
    requires p < |buf| && buf[p] == BACKSLASH && Wtf8.Canonical(buf[p..]) && StringEscape(buf, p, strict).Ok?
    ensures Wtf8.Canonical(StringEscape(buf, p, strict).value.value)
  {
    hide Wtf8.Canonical, Wtf8.Encode, Character, EscapedCharacter, Positional, HexEscape, UnicodeEscape;
    var c, value := At(buf, p + 1), StringEscape(buf, p, strict).value.value;
    EmptyIsText();
    if c >= 0x80 {
      CanonicalAscii(buf, p, p + 1);
      OtherPieceIsText(buf, p + 1);
    } else if c == LOWER_X {
      Wtf8.CanonicalCodePoint(HexEscape(buf, p + 2).value.codePoint);
    } else if c == LOWER_U {
      Wtf8.CanonicalCodePoint(UnicodeEscape(buf, p + 2).value.codePoint);
    } else if Digit(Octal, c).Some? && value != [0] {
      OctalFitsByte(buf, p + 1);
      Wtf8.CanonicalCodePoint(Positional(Octal, buf[p + 1..p + 1 + OctalLength(buf, p + 1)]));
    } else {
      EscapedAscii(buf, p);
      if value != [] { AsciiIsText(value); }
    }
  }

  lemma OtherPieceIsText(buf: seq<Byte>, p: nat)
    requires p <= |buf| && Wtf8.Canonical(buf[p..]) && EscapedCharacter(buf, p).Ok?
    ensures Wtf8.Canonical(EscapedCharacter(buf, p).value.value)
  {
    EmptyIsText();
    hide Wtf8.Canonical;
    CanonicalCharacter(buf, p);
    Wtf8.CanonicalCodePoint(Wtf8.Step(buf[p..]).codePoint);
  }

  lemma AsciiIsText(value: seq<Byte>)
    requires |value| == 1 && value[0] < 0x80
    ensures Wtf8.Canonical(value)
  {
    assert value == Wtf8.Encode(value[0]);
    Wtf8.CanonicalCodePoint(value[0]);
  }

  lemma EmptyIsText()
    ensures Wtf8.Canonical([])
  {
  }

  lemma CharacterIsText(buf: seq<Byte>, p: nat)
    requires p < |buf| && Wtf8.Canonical(buf[p..])
    ensures Character(buf, p).Ok?
    ensures
      var next := Character(buf, p).value;
      Wtf8.Canonical(buf[p..next]) && Wtf8.Canonical(buf[next..])
  {
    CanonicalCharacter(buf, p);
    hide Wtf8.Canonical, Wtf8.Encode, Wtf8.Step, Character;
    Wtf8.CanonicalCodePoint(Wtf8.Step(buf[p..]).codePoint);
  }

  /** A string literal of a canonical source has a value that reads as code points and encodes back. */
  lemma {:induction false} StringValueIsText(buf: seq<Byte>, p: nat, quote: Byte, strict: bool)
    requires p <= |buf| && Wtf8.Canonical(buf[p..]) && IsQuote(quote) && StringValue(buf, p, quote, strict).Ok?
    ensures Wtf8.Canonical(StringValue(buf, p, quote, strict).value.value)
    decreases |buf| - p
  {
    hide Wtf8.Canonical, StringEscape, Character;
    EmptyIsText();
    if buf[p] == quote {
    } else if buf[p] == BACKSLASH {
      var piece := StringEscape(buf, p, strict).value;
      PieceIsText(buf, p, strict);
      StringEscapeCanonical(buf, p, strict);
      StringValueIsText(buf, piece.next, quote, strict);
      Wtf8.CanonicalConcat(piece.value, StringValue(buf, piece.next, quote, strict).value.value);
    } else {
      CharacterIsText(buf, p);
      var next := Character(buf, p).value;
      StringValueIsText(buf, next, quote, strict);
      Wtf8.CanonicalConcat(buf[p..next], StringValue(buf, next, quote, strict).value.value);
    }
  }
}
