/** The lexer: a position in a buffer of bytes and the byte there. */
module Lexer {
  import opened Identifiers
  import opened Lexemes
  import opened Numbers
  import opened Options
  import opened Punctuators
  import opened TemplateLaws
  import opened TextLiterals
  import opened Tokens
  import opened Trivia
  import opened Unicode
  import Wtf8

  datatype Saved = Saved(current: nat, pos: nat)

  class Lexer {
    const buf: seq<Byte>
    const classes: Classes
    var pos: nat
    var current: nat
    var isNewLineBeforeCurrent: bool
    var inStrictMode: bool
    var allowHashbangComment: bool

    constructor (buf: seq<Byte>, classes: Classes)
      ensures Valid() && this.buf == buf && this.classes == classes && pos == 0
      ensures !isNewLineBeforeCurrent && !inStrictMode && allowHashbangComment
    {
      this.buf := buf;
      this.classes := classes;
      pos := 0;
      current := if buf == [] then EOF_CHAR else buf[0];
      isNewLineBeforeCurrent := false;
      inStrictMode := false;
      allowHashbangComment := true;
    }

    ghost predicate Valid()
      reads this
    {
      pos <= |buf| && current == At(buf, pos)
    }

    function Save(): Saved
      reads this
    {
      Saved(current, pos)
    }

    method Restore(saved: Saved)
      requires saved.pos <= |buf| && saved.current == At(buf, saved.pos)
      modifies this`pos, this`current
      ensures Valid() && pos == saved.pos
    {
      current := saved.current;
      pos := saved.pos;
    }

    method AdvanceN(n: nat)
      requires Valid()
      modifies this`pos, this`current
      ensures Valid() && pos == if old(pos) + n < |buf| then old(pos) + n else |buf|
    {
      pos := pos + n;
      if pos < |buf| {
        current := buf[pos];
      } else {
        current := EOF_CHAR;
        pos := |buf|;
      }
    }

    function PeekN(n: nat): nat
      reads this
    {
      At(buf, pos + n)
    }

    method Eat(c: nat) returns (eaten: bool)
      requires Valid() && c < 0x100
      modifies this`pos, this`current
      ensures Valid() && eaten == (old(current) == c) && pos == old(pos) + if eaten then 1 else 0
    {
      if current == c {
        AdvanceN(1);
        return true;
      }
      return false;
    }

    // Numeric literals.

    method SkipDecimalDigits(allowSeparator: bool) returns (r: Outcome<bool>)
      requires Valid()
      modifies this`pos, this`current
      ensures Valid()
      ensures
        var end := DigitsEnd(allowSeparator, buf, old(pos));
        match PartError(buf, old(pos), end)
        case Some(error) => r == Err(error)
        case None => r == Ok(SeparatorIn(buf, old(pos), end)) && pos == end
    {
      if !IsDecimalDigit(current) { return Ok(false); }
      ghost var start := pos;
      ghost var end := RunEnd(Decimal, allowSeparator, buf, pos);
      assert Scanned(buf, start, start + 1, false, false);
      hide Scanned, RunError, SeparatorIn;
      AdvanceN(1);
      var hasSeparator, isLastSeparator := false, false;
      while true
        invariant Valid() && start < pos <= end && end == RunEnd(Decimal, allowSeparator, buf, pos)
        invariant Scanned(buf, start, pos, hasSeparator, isLastSeparator)
        decreases |buf| - pos
      {
        if IsDecimalDigit(current) {
          ScannedNext(buf, start, pos, hasSeparator, isLastSeparator);
          isLastSeparator := false;
        } else if current == SEPARATOR && allowSeparator {
          if isLastSeparator {
            ScannedAdjacent(buf, start, pos, end, hasSeparator);
            return Err(AdjacentNumericSeparators);
          }
          ScannedNext(buf, start, pos, hasSeparator, isLastSeparator);
          hasSeparator := true;
          isLastSeparator := true;
        } else {
          break;
        }
        AdvanceN(1);
      }
      ScannedAll(buf, start, pos, hasSeparator, isLastSeparator);
      if isLastSeparator { return Err(TrailingNumericSeparator); }
      return Ok(hasSeparator);
    }

    /** The optional decimal point and the digits after it. */
    method SkipFraction(allowSeparator: bool) returns (r: Outcome<bool>)
      requires Valid()
      modifies this`pos, this`current
      ensures Valid()
      ensures
        var end := FractionEnd(allowSeparator, buf, old(pos));
        match PartError(buf, old(pos) + 1, end)
        case Some(error) => r == Err(error)
        case None => r == Ok(old(pos) < end && SeparatorIn(buf, old(pos) + 1, end)) && pos == end
    {
      hide DigitsEnd, RunError, SeparatorIn;
      if current == PERIOD {
        AdvanceN(1);
        r := SkipDecimalDigits(allowSeparator);
      } else {
        r := Ok(false);
      }
    }

    /** The optional exponent. */
    method SkipExponent(allowSeparator: bool) returns (r: Outcome<bool>)
      requires Valid()
      modifies this`pos, this`current
      ensures Valid()
      ensures match ExponentEnd(allowSeparator, buf, old(pos))
        case Ok(end) => pos == end && r == Ok(old(pos) < end && SeparatorIn(buf, ExponentDigits(buf, old(pos)), end))
        case Err(error) => r == Err(error)
    {
      hide DigitsEnd, RunError, SeparatorIn;
      if current == LOWER_E || current == UPPER_E {
        AdvanceN(1);
        if current == MINUS || current == PLUS { AdvanceN(1); }
        if !IsDecimalDigit(current) { return Err(MalformedNumericLiteral); }
        r := SkipDecimalDigits(allowSeparator);
      } else {
        r := Ok(false);
      }
    }

    method LexDecimalLiteral() returns (r: Outcome<(Token, Loc)>)
      requires Valid() && pos < |buf|
      modifies this`pos, this`current
      ensures Valid()
      ensures match DecimalLexeme(buf, old(pos))
        case Ok(lexed) => r == Ok((lexed.token, Loc(old(pos), lexed.end))) && pos == lexed.end
        case Err(error) => r == Err(error)
    {
      hide DigitsEnd, FractionEnd, ExponentEnd, PartError, WithoutSeparators, SeparatorIn;
      var startPos, hasSeparator := pos, false;
      var hasLeadingZero := current == ZERO;
      var allowSeparator := !hasLeadingZero;
      var separator :- SkipDecimalDigits(allowSeparator);
      hasSeparator := hasSeparator || separator;
      if current == LOWER_N {
        var digits := buf[startPos..pos];
        AdvanceN(1);
        if hasLeadingZero && pos - 2 != startPos { return Err(BigIntLeadingZero); }
        return Ok((BigIntLiteral(digits, 10), Loc(startPos, pos)));
      }
      ghost var whole := pos;
      separator :- SkipFraction(allowSeparator);
      hasSeparator := hasSeparator || separator;
      ghost var fraction := pos;
      separator :- SkipExponent(allowSeparator);
      hasSeparator := hasSeparator || separator;
      var text := buf[startPos..pos];
      LexemeSeparators(buf, startPos, whole, fraction, pos, hasSeparator);
      if hasSeparator { text := WithoutSeparators(text); }
      return Ok((NumberLiteral(Text(text)), Loc(startPos, pos)));
    }

    /** The digits of a literal, accumulated in a word, and whether they overflow it. */
    method AccumulateDigits(radix: Radix) returns (r: Outcome<(nat, bool)>)
      requires Valid() && Digit(radix, current).Some?
      modifies this`pos, this`current
      ensures Valid()
      ensures
        var end := RunEnd(radix, true, buf, old(pos));
        match RunError(buf, old(pos), end)
        case Some(error) => r == Err(error)
        case None => pos == end && r.Ok? && Accumulated(radix, buf, old(pos), end, r.value.0, r.value.1)
    {
      hide Digit, Base, RadixScan, Scanned, RunError, SeparatorIn, Accumulated;
      var digit := Digit(radix, current);
      ghost var first, end := pos, RunEnd(radix, true, buf, pos);
      FirstDigit(radix, buf, first, digit.value);
      var value, overflowsU64, isLastSeparator := digit.value, false, false;
      AdvanceN(1);
      while true
        invariant Valid() && first < pos <= end && end == RunEnd(radix, true, buf, pos)
        invariant RadixScan(radix, buf, first, pos, value, overflowsU64, isLastSeparator)
        decreases |buf| - pos
      {
        if pos < |buf| { RadixScanNext(radix, buf, first, pos, value, overflowsU64, isLastSeparator); }
        digit := Digit(radix, current);
        if digit.Some? {
          value, overflowsU64 := AddDigit(radix, value, overflowsU64, digit.value, buf, first, pos);
          isLastSeparator := false;
          RadixScanDigit(radix, buf, first, pos + 1, value, overflowsU64);
        } else if current == SEPARATOR {
          if isLastSeparator { return Err(AdjacentNumericSeparators); }
          isLastSeparator := true;
        } else {
          break;
        }
        AdvanceN(1);
      }
      RadixScanAll(radix, buf, first, pos, value, overflowsU64, isLastSeparator);
      if isLastSeparator { return Err(TrailingNumericSeparator); }
      return Ok((value, overflowsU64));
    }

    method LexLiteralWithBase(radix: Radix) returns (r: Outcome<(Token, Loc)>)
      requires Valid()
      modifies this`pos, this`current
      ensures Valid()
      ensures match RadixLexeme(radix, buf, old(pos))
        case Ok(lexed) => r == Ok((lexed.token, Loc(old(pos), lexed.end))) && pos == lexed.end
        case Err(error) => r == Err(error)
    {
      hide Digit, Base, RunEnd, RunError, Accumulated, Positional;
      var startPos := pos;
      AdvanceN(2);
      ghost var first := pos;
      if Digit(radix, current).None? { return Err(MalformedNumericLiteral); }
      var accumulated :- AccumulateDigits(radix);
      var (value, overflowsU64) := accumulated;
      if current == LOWER_N {
        var digits := buf[startPos + 2..pos];
        AdvanceN(1);
        return Ok((BigIntLiteral(digits, Base(radix)), Loc(startPos, pos)));
      }
      AccumulatedNumber(radix, buf, first, pos, value, overflowsU64);
      if overflowsU64 {
        return Ok((NumberLiteral(Big(Positional(radix, buf[startPos + 2..pos]))), Loc(startPos, pos)));
      }
      return Ok((NumberLiteral(Word(value)), Loc(startPos, pos)));
    }

    /** None, and nothing read, when a digit eight or nine follows the octal digits. */
    method LexLegacyOctalLiteral() returns (r: Option<Token>)
      requires Valid()
      modifies this`pos, this`current
      ensures Valid()
      ensures match LegacyOctalLexeme(buf, old(pos))
        case Some(lexed) => r == Some(lexed.token) && pos == lexed.end
        case None => r == None && pos == old(pos)
    {
      hide Accumulated, Positional;
      var saved, startPos := Save(), pos;
      var value, overflowsU64 := 0, false;
      EmptyAccumulated(Octal, buf, pos);
      var digit := Digit(Octal, current);
      while digit.Some?
        invariant Valid() && startPos <= pos && digit == Digit(Octal, current)
        invariant RunEnd(Octal, false, buf, startPos) == RunEnd(Octal, false, buf, pos)
        invariant Accumulated(Octal, buf, startPos, pos, value, overflowsU64)
        decreases |buf| - pos
      {
        value, overflowsU64 := AddDigit(Octal, value, overflowsU64, digit.value, buf, startPos, pos);
        AdvanceN(1);
        digit := Digit(Octal, current);
      }
      if current == 0x38 || current == 0x39 {
        Restore(saved);
        return None;
      }
      AccumulatedNumber(Octal, buf, startPos, pos, value, overflowsU64);
      if overflowsU64 {
        return Some(NumberLiteral(Big(Positional(Octal, buf[startPos..pos]))));
      }
      return Some(NumberLiteral(Word(value)));
    }

    // Characters and escapes.

    method LexUtf8CodePoint() returns (r: Outcome<CodePoint>)
      requires Valid()
      modifies this`pos, this`current
      ensures Valid() && old(pos) <= pos
      ensures old(pos) == |buf| ==> r.Panic?
      ensures old(pos) < |buf| ==>
        match Wtf8.Decode(buf[old(pos)..])
        case Ok(c, length) => r == Ok(c) && pos == old(pos) + length
        case Err(_) => r == Err(InvalidUnicode)
      ensures r.Ok? ==> forall i | old(pos) <= i < pos :: buf[i] >= 0x80
    {
      if pos == |buf| { return Panic; }
      DecodedBytes(buf, pos);
      var d := Wtf8.Decode(buf[pos..]);
      AdvanceN(d.length);
      match d {
        case Ok(c, _) => return Ok(c);
        case Err(_) => return Err(InvalidUnicode);
      }
    }

    method LexCharacter() returns (r: Outcome<CodePoint>)
      requires Valid()
      modifies this`pos, this`current
      ensures Valid() && old(pos) <= pos
      ensures match Character(buf, old(pos))
        case Ok(next) => r == Ok(Wtf8.Step(buf[old(pos)..]).codePoint) && pos == next
        case Err(error) => r == Err(error)
        case Panic => r.Panic?
      ensures r.Ok? ==> forall i | old(pos) < i < pos :: buf[i] >= 0x80
    {
      if current < 0x80 {
        r := Ok(current);
        AdvanceN(1);
      } else {
        r := LexUtf8CodePoint();
      }
    }

    method LexUnicodeEscape() returns (r: Outcome<CodePoint>)
      requires Valid()
      modifies this`pos, this`current
      ensures Valid() && old(pos) <= pos && AreEscapeBytes(buf, old(pos), pos)
      ensures match UnicodeEscape(buf, old(pos))
        case Some(escaped) => r == Ok(escaped.codePoint) && pos == escaped.next
        case None => r == Err(MalformedEscape)
    {
      hide Positional;
      ghost var start := pos;
      var inBraces := Eat(LEFT_BRACE);
      if inBraces {
        r := LexBracedEscape();
        return;
      }
      var value, i := 0, 0;
      PositionalEmpty(Hex, buf, pos);
      while i < 4
        invariant Valid() && i <= 4 && pos == start + i && value == Positional(Hex, buf[start..pos])
        invariant AreDigits(Hex, buf, start, pos)
      {
        var digit := Digit(Hex, current);
        if digit.None? { return Err(MalformedEscape); }
        PositionalDigit(Hex, buf, start, pos);
        AdvanceN(1);
        value := 0x10 * value + digit.value;
        i := i + 1;
      }
      return Ok(value);
    }

    /** The digits after `\u{`. */
    method LexBracedEscape() returns (r: Outcome<CodePoint>)
      requires Valid() && 0 < pos && buf[pos - 1] == LEFT_BRACE
      modifies this`pos, this`current
      ensures Valid() && old(pos) <= pos && AreEscapeBytes(buf, old(pos), pos)
      ensures match UnicodeEscape(buf, old(pos) - 1)
        case Some(escaped) => r == Ok(escaped.codePoint) && pos == escaped.next
        case None => r == Err(MalformedEscape)
    {
      hide Positional;
      ghost var start := pos;
      var isEmpty := Eat(RIGHT_BRACE);
      if isEmpty { return Err(MalformedEscape); }
      var value, i := 0, 0;
      PositionalEmpty(Hex, buf, pos);
      while i < 6
        invariant Valid() && i <= 6 && pos == start + i && value == Positional(Hex, buf[start..pos])
        invariant AreDigits(Hex, buf, start, pos) && RunEnd(Hex, false, buf, start) == RunEnd(Hex, false, buf, pos)
      {
        var digit := Digit(Hex, current);
        if digit.Some? {
          PositionalDigit(Hex, buf, start, pos);
          AdvanceN(1);
          value := 0x10 * value + digit.value;
        } else if current == RIGHT_BRACE {
          break;
        } else {
          return Err(MalformedEscape);
        }
        i := i + 1;
      }
      if current != RIGHT_BRACE { return Err(MalformedEscape); }
      AdvanceN(1);
      if value <= MAX_CODE_POINT { return Ok(value); } else { return Err(MalformedEscape); }
    }

    /** The two digits after `\x`. */
    method LexHexEscape() returns (r: Outcome<CodePoint>)
      requires Valid()
      modifies this`pos, this`current
      ensures Valid() && old(pos) <= pos && AreEscapeBytes(buf, old(pos), pos)
      ensures match HexEscape(buf, old(pos))
        case Some(escaped) => r == Ok(escaped.codePoint) && pos == escaped.next
        case None => r == Err(MalformedEscape)
    {
      var x1 := Digit(Hex, current);
      if x1.None? { return Err(MalformedEscape); }
      var x2 := Digit(Hex, PeekN(1));
      if x2.None? {
        AdvanceN(1);
        return Err(MalformedEscape);
      }
      AdvanceN(2);
      return Ok(x1.value * 0x10 + x2.value);
    }

    /** The digits of a legacy octal escape. */
    method LexOctalEscape() returns (value: nat)
      requires Valid() && Digit(Octal, current).Some?
      modifies this`pos, this`current
      ensures Valid() && pos == old(pos) + OctalLength(buf, old(pos))
      ensures value == Positional(Octal, buf[old(pos)..pos])
    {
      hide Positional;
      ghost var start := pos;
      var firstDigit := current;
      PositionalEmpty(Octal, buf, pos);
      PositionalDigit(Octal, buf, start, pos);
      value := Digit(Octal, firstDigit).value;
      AdvanceN(1);
      var next := Digit(Octal, current);
      if next.Some? {
        PositionalDigit(Octal, buf, start, pos);
        value := value * 8 + next.value;
        AdvanceN(1);
        next := Digit(Octal, current);
        if next.Some? { PositionalDigit(Octal, buf, start, pos); }
      }
      if firstDigit <= 0x33 {
        next := Digit(Octal, current);
        if next.Some? {
          value := value * 8 + next.value;
          AdvanceN(1);
        }
      }
    }

    /** An escape that does not start with a digit, and the bytes that it adds to the value. */
    method LexEscape() returns (r: Outcome<seq<Byte>>)
      requires Valid() && current == BACKSLASH
      modifies this`pos, this`current
      ensures Valid() && old(pos) < pos
      ensures r == Err(MalformedEscape) ==> IsEscapeTail(buf, old(pos), pos)
      ensures r.Ok? || r == Err(MalformedEscape) ==> ReturnIsEscaped(buf, old(pos), pos)
      ensures match ReadEscape(buf, old(pos), Escape(buf, old(pos)))
        case Ok(piece) => r == Ok(piece.value) && pos == piece.next
        case Err(error) => r == Err(error)
        case Panic => r.Panic?
    {
      hide Wtf8.Step, Wtf8.Encode, HexEscape, UnicodeEscape, ReadEscape;
      hide AreEscapeBytes, ReturnIsEscaped, IsEscapeByte, EscapedCharacter, Wtf8.Decode;
      ghost var start := pos;
      var c := PeekN(1);
      if c < 0x80 {
        EscapedSame(buf, start, Escape(buf, start));
        PairHasNoReturn(buf, start, start + 2);
        if c == CARRIAGE_RETURN && PeekN(2) == LINE_FEED { PairHasNoReturn(buf, start, start + 3); }
      }
      if SingleEscape(c).Some? {
        AdvanceN(2);
        return Ok([SingleEscape(c).value]);
      } else if c == LOWER_X {
        AdvanceN(2);
        var hex := LexHexEscape();
        TailHasNoReturn(buf, start, pos);
        var x :- hex;
        return Pushed(x);
      } else if c == LOWER_U {
        AdvanceN(2);
        var unicode := LexUnicodeEscape();
        TailHasNoReturn(buf, start, pos);
        var u :- unicode;
        return Pushed(u);
      } else if c == LINE_FEED {
        AdvanceN(2);
        return Ok([]);
      } else if c == CARRIAGE_RETURN {
        AdvanceN(2);
        var lineFeed := Eat(LINE_FEED);
        return Ok([]);
      } else if c < 0x80 {
        AdvanceN(2);
        EscapedAscii(buf, start);
        return Ok([c]);
      } else {
        r := LexEscapedOther();
      }
    }

    /** A backslash and a character outside ASCII, or nothing. */
    method LexEscapedOther() returns (r: Outcome<seq<Byte>>)
      requires Valid() && current == BACKSLASH && PeekN(1) >= 0x80
      modifies this`pos, this`current
      ensures Valid() && old(pos) < pos && r != Err(MalformedEscape)
      ensures r.Ok? ==> ReturnIsEscaped(buf, old(pos), pos)
      ensures match ReadEscape(buf, old(pos), Escape(buf, old(pos)))
        case Ok(piece) => r == Ok(piece.value) && pos == piece.next
        case Err(error) => r == Err(error)
        case Panic => r.Panic?
    {
      hide Wtf8.Step, Wtf8.Encode, Wtf8.Decode, Escape, ReadEscape, ReturnIsEscaped;
      EscapedOther(buf, pos);
      ghost var start := pos;
      AdvanceN(1);
      var other :- LexUtf8CodePoint();
      CharacterHasNoReturn(buf, start, pos);
      if IsUnicodeNewline(other) { return Ok([]); }
      return Pushed(other);
    }

    // String literals.

    /** An escape in a string literal, and the bytes that it adds to the value. */
    method LexStringEscape() returns (r: Outcome<seq<Byte>>)
      requires Valid() && current == BACKSLASH
      modifies this`pos, this`current
      ensures Valid() && old(pos) < pos
      ensures match ReadEscape(buf, old(pos), StringEscape(buf, old(pos), inStrictMode))
        case Ok(piece) => r == Ok(piece.value) && pos == piece.next
        case Err(error) => r == Err(error)
        case Panic => r.Panic?
    {
      hide Wtf8.Encode, Positional, Escape, ReadEscape;
      var c := PeekN(1);
      if c < 0x80 { EscapedSame(buf, pos, StringEscape(buf, pos, inStrictMode)); }
      if c == ZERO && !IsDecimalDigit(PeekN(2)) {
        AdvanceN(2);
        return Ok([0]);
      } else if Digit(Octal, c).Some? {
        AdvanceN(1);
        OctalFitsByte(buf, pos);
        var value := LexOctalEscape();
        if inStrictMode { return Err(LegacyOctalEscapeInStrictMode); }
        return Pushed(value);
      } else if IsDecimalDigit(c) {
        AdvanceN(2);
        if inStrictMode { return Err(LegacyNonOctalEscapeInStrictMode); }
        return Ok([c]);
      } else {
        r := LexEscape();
      }
    }

    /** The slow path: the value up to the first escape, and then the rest piece by piece. */
    method LexStringSlow(quote: Byte, start: nat, prefix: seq<Byte>, ghost whole: Outcome<Piece>)
      returns (r: Outcome<(Token, Loc)>)
      requires Valid() && IsQuote(quote) && StringScan(buf, whole, pos, quote, inStrictMode, false, prefix)
      modifies this`pos, this`current
      ensures Valid() && (r.Ok? ==> old(pos) < pos && r.value.1 == Loc(start, pos))
      ensures match whole
        case Ok(piece) => r == Ok((StringLiteral(piece.value), Loc(start, piece.next)))
        case Err(error) => r == Err(error)
        case Panic => r.Panic?
    {
      hide StringScan, StringEscape, ReadEscape, Character, Wtf8.Step, Wtf8.Encode;
      var value := prefix;
      while true
        invariant Valid() && old(pos) <= pos && StringScan(buf, whole, pos, quote, inStrictMode, false, value)
        decreases |buf| - pos
      {
        ghost var p := pos;
        StringScanEnds(buf, whole, p, quote, inStrictMode, false, value);
        if current == BACKSLASH {
          StringScanEscape(buf, whole, p, quote, inStrictMode, false, value);
          var escaped :- LexStringEscape();
          value := value + escaped;
        } else if current == quote {
          AdvanceN(1);
          return Ok((StringLiteral(value), Loc(start, pos)));
        } else if current == LINE_FEED || current == CARRIAGE_RETURN || current == EOF_CHAR {
          return Err(UnterminatedStringLiteral);
        } else {
          StringScanCharacter(buf, whole, p, quote, inStrictMode, false, value);
          var c :- LexCharacter();
          var bytes :- Pushed(c);
          value := value + bytes;
        }
      }
    }

    /** A slice of the source up to the closing quote, unless an escape asks for the slow path. */
    method LexStringLiteral() returns (r: Outcome<(Token, Loc)>)
      requires Valid() && pos < |buf| && IsQuote(buf[pos])
      modifies this`pos, this`current
      ensures Valid() && (r.Ok? ==> old(pos) < pos && r.value.1 == Loc(old(pos), pos))
      ensures Reads(StringAt(buf, old(pos), inStrictMode), old(pos), r)
    {
      hide StringScan, StringRead, StringEscape, Character, Wtf8.Step, Wtf8.Encode;
      var quote, start := current, pos;
      AdvanceN(1);
      var contentStart := pos;
      ghost var whole := StringRead(buf, pos, quote, inStrictMode, true);
      assert buf[pos..pos] == [];
      StringScanStarts(buf, pos, quote, inStrictMode);
      while true
        invariant Valid() && contentStart <= pos
        invariant StringScan(buf, whole, pos, quote, inStrictMode, true, buf[contentStart..pos])
        decreases |buf| - pos
      {
        ghost var p := pos;
        StringScanEnds(buf, whole, p, quote, inStrictMode, true, buf[contentStart..p]);
        if current == quote {
          var value := buf[contentStart..pos];
          AdvanceN(1);
          return Ok((StringLiteral(value), Loc(start, pos)));
        } else if current == BACKSLASH {
          break;
        } else if current == LINE_FEED || current == CARRIAGE_RETURN || current == EOF_CHAR {
          return Err(UnterminatedStringLiteral);
        } else {
          StringScanSlice(buf, whole, contentStart, p, quote, inStrictMode);
          var skipped :- LexCharacter();
        }
      }
      StringScanEscape(buf, whole, pos, quote, inStrictMode, true, buf[contentStart..pos]);
      r := LexStringSlow(quote, start, buf[contentStart..pos], whole);
    }

    // Template literals.

    method LexTemplateEscape() returns (r: Outcome<seq<Byte>>)
      requires Valid() && current == BACKSLASH
      modifies this`pos, this`current
      ensures Valid() && old(pos) < pos
      ensures r == Err(MalformedEscape) ==> IsEscapeTail(buf, old(pos), pos)
      ensures r.Ok? || r == Err(MalformedEscape) ==> ReturnIsEscaped(buf, old(pos), pos)
      ensures match ReadEscape(buf, old(pos), TemplateEscape(buf, old(pos)))
        case Ok(piece) => r == Ok(piece.value) && pos == piece.next
        case Err(error) => r == Err(error)
        case Panic => r.Panic?
    {
      hide Escape, ReadEscape;
      var c := PeekN(1);
      if c < 0x80 { EscapedSame(buf, pos, TemplateEscape(buf, pos)); }
      if c == ZERO {
        if PeekN(2) < 0x30 || PeekN(2) > 0x39 {
          AdvanceN(2);
          return Ok([0]);
        } else {
          AdvanceN(2);
          return Err(MalformedEscape);
        }
      } else if 0x31 <= c <= 0x39 {
        AdvanceN(2);
        return Err(MalformedEscape);
      } else {
        r := LexEscape();
      }
    }

    /** The slow path: the cooked text up to the first escape or carriage return, and then the rest piece by piece. */
    method LexTemplateSlow(start: nat, rawStart: nat, isHead: bool, prefix: seq<Byte>)
      returns (r: Outcome<(Token, Loc)>)
      requires Valid() && start <= rawStart <= pos && NoReturn(buf, rawStart, pos)
      requires TemplateScan(buf, TemplateRead(buf, rawStart, true), pos, false, prefix, false)
      modifies this`pos, this`current
      ensures Valid() && (r.Ok? ==> old(pos) < pos && r.value.1 == Loc(start, pos))
      ensures Reads(TemplateAt(buf, rawStart, isHead), start, r)
    {
      hide TemplateScan, TemplateRead, TemplateEscape, ReadEscape, Character, Normalized, Wtf8.Step, Wtf8.Encode;
      hide NoReturn, ReturnIsEscaped, IsEscapeTail;
      ghost var whole := TemplateRead(buf, rawStart, true);
      var value, hasCr, malformed := prefix, false, false;
      var rawEnd, isTail;
      while true
        invariant Valid() && old(pos) <= pos && TemplateScan(buf, whole, pos, false, value, malformed)
        invariant !hasCr ==> NoReturn(buf, rawStart, pos)
        decreases |buf| - pos
      {
        ghost var p := pos;
        if current == BACKSLASH {
          hasCr := hasCr || PeekN(1) == CARRIAGE_RETURN;
          ScanEscape(buf, whole, p, false, value, malformed);
          var escaped := LexTemplateEscape();
          match escaped {
            case Ok(bytes) =>
              if !hasCr { NoReturnInEscape(buf, rawStart, p, pos); }
              value := value + bytes;
            case Err(error) =>
              if error != MalformedEscape { return Err(error); }
              if !hasCr { NoReturnInEscape(buf, rawStart, p, pos); }
              ScanMalformed(buf, whole, p, pos, false, value, malformed);
              malformed := true;
            case Panic =>
              return Panic;
          }
        } else if current == DOLLAR && PeekN(1) == LEFT_BRACE {
          rawEnd, isTail := pos, false;
          ScanEnds(buf, whole, p, false, value, malformed);
          AdvanceN(2);
          break;
        } else if current == BACKTICK {
          rawEnd, isTail := pos, true;
          ScanEnds(buf, whole, p, false, value, malformed);
          AdvanceN(1);
          break;
        } else if current == CARRIAGE_RETURN {
          ScanReturn(buf, whole, p, false, value, malformed);
          AdvanceN(1);
          hasCr := true;
          value := value + [LINE_FEED];
          var lineFeed := Eat(LINE_FEED);
        } else {
          ScanCharacter(buf, whole, p, false, value, malformed);
          var c :- LexCharacter();
          if !hasCr { NoReturnInCharacter(buf, rawStart, p, pos); }
          var bytes :- Pushed(c);
          value := value + bytes;
        }
      }
      var raw := buf[rawStart..rawEnd];
      if hasCr {
        raw := NormalizeBySplitting(raw);
      } else {
        NormalizedSlice(buf, rawStart, rawEnd);
      }
      var cooked := if malformed then None else Some(value);
      return Ok((TemplatePart(raw, cooked, isHead, isTail), Loc(start, pos)));
    }

    /** A slice of the source up to the end of the text; an escape or a carriage return asks for the slow path. */
    method LexTemplateLiteral(start: nat, isHead: bool) returns (r: Outcome<(Token, Loc)>)
      requires Valid() && start <= pos
      modifies this`pos, this`current
      ensures Valid() && (r.Ok? ==> old(pos) < pos && r.value.1 == Loc(start, pos))
      ensures Reads(TemplateAt(buf, old(pos), isHead), start, r)
    {
      hide TemplateScan, TemplateRead, Character, Normalized, Wtf8.Step, Wtf8.Encode, NoReturn;
      var rawStart := pos;
      var rawEnd, isTail;
      ghost var whole := TemplateRead(buf, pos, true);
      ScanStarts(buf, pos);
      NoReturnStarts(buf, pos);
      while true
        invariant Valid() && rawStart <= pos && NoReturn(buf, rawStart, pos)
        invariant TemplateScan(buf, whole, pos, true, buf[rawStart..pos], false)
        decreases |buf| - pos
      {
        ghost var p := pos;
        if current == DOLLAR && PeekN(1) == LEFT_BRACE {
          rawEnd, isTail := pos, false;
          ScanEnds(buf, whole, p, true, buf[rawStart..p], false);
          AdvanceN(2);
          break;
        } else if current == BACKTICK {
          rawEnd, isTail := pos, true;
          ScanEnds(buf, whole, p, true, buf[rawStart..p], false);
          AdvanceN(1);
          break;
        } else if current == BACKSLASH || current == CARRIAGE_RETURN {
          if current == BACKSLASH {
            ScanEscape(buf, whole, p, true, buf[rawStart..p], false);
          } else {
            ScanReturn(buf, whole, p, true, buf[rawStart..p], false);
          }
          r := LexTemplateSlow(start, rawStart, isHead, buf[rawStart..pos]);
          return;
        } else {
          ScanSlice(buf, whole, rawStart, p);
          var skipped :- LexCharacter();
          NoReturnInCharacter(buf, rawStart, p, pos);
        }
      }
      var raw := buf[rawStart..rawEnd];
      NormalizedSlice(buf, rawStart, rawEnd);
      return Ok((TemplatePart(raw, Some(raw), isHead, isTail), Loc(start, pos)));
    }

    /** The part after a template expression, when the brace that ends the expression was read last. */
    method NextTemplatePart() returns (r: Outcome<(Token, Loc)>)
      requires Valid() && 0 < pos && buf[pos - 1] == RIGHT_BRACE
      modifies this`pos, this`current
      ensures Valid() && (r.Ok? ==> old(pos) < pos && r.value.1 == Loc(old(pos) - 1, pos))
      ensures Reads(TemplateAt(buf, old(pos), false), old(pos) - 1, r)
    {
      r := LexTemplateLiteral(pos - 1, false);
    }

    // Identifiers.

    method LexIdentifierEscape() returns (r: Outcome<CodePoint>)
      requires Valid() && current == BACKSLASH
      modifies this`pos, this`current
      ensures Valid() && old(pos) <= pos
      ensures match IdEscape(buf, old(pos))
        case Some(escaped) => r == Ok(escaped.codePoint) && pos == escaped.next
        case None => r == Err(MalformedEscape)
    {
      AdvanceN(1);
      if current == LOWER_U {
        AdvanceN(1);
        r := LexUnicodeEscape();
      } else {
        r := Err(MalformedEscape);
      }
    }

    /** An escape, or a character outside ASCII: ASCII does not decode here, and the end of input is a panic. */
    method LexIdentifierOther() returns (r: Outcome<CodePoint>)
      requires Valid()
      modifies this`pos, this`current
      ensures Valid() && old(pos) <= pos
      ensures
        var escaped := IdCharacter(buf, old(pos));
        if old(pos) == |buf| then r.Panic?
        else if IsAsciiAt(buf, old(pos)) then r == Err(InvalidUnicode)
        else if escaped.Some? then r == Ok(escaped.value.codePoint) && pos == escaped.value.next
        else r == Err(if buf[old(pos)] == BACKSLASH then MalformedEscape else InvalidUnicode)
    {
      if current == BACKSLASH {
        r := LexIdentifierEscape();
      } else {
        r := LexUtf8CodePoint();
      }
    }

    /** A slice of the source as long as the name is ASCII; the slow path takes over at the first other part. */
    method LexIdentifierAscii(start: nat) returns (r: Outcome<(Token, Loc)>)
      requires Valid() && start <= pos < |buf| && IsIdStartAscii(buf[pos])
      modifies this`pos, this`current
      ensures Valid() && (r.Ok? ==> old(pos) < pos && r.value.1 == Loc(start, pos))
      ensures
        var name := Prepend(buf[start..old(pos)], NameAt(classes, buf, old(pos), UnknownToken));
        Reads(IdentifierToken(name), start, r)
    {
      hide NameAt, NameRest, GoesOn, IdCharacter, CharacterText, NameScan, NameStop;
      ghost var name := Prepend(buf[start..pos], NameAt(classes, buf, pos, UnknownToken));
      NameScanStarts(classes, buf, start, pos, UnknownToken);
      AdvanceN(1);
      while true
        invariant Valid() && old(pos) < pos
        invariant NameScan(classes, buf, name, pos, true, buf[start..pos])
        decreases |buf| - pos
      {
        ghost var p := pos;
        if IsIdPartAscii(current) {
          AsciiText(classes, buf, p, true);
          NameScanGoesOn(classes, buf, name, p, true, buf[start..p]);
          SliceByOne(buf, start, p);
          AdvanceN(1);
        } else if current < 0x80 && current != BACKSLASH {
          AsciiText(classes, buf, p, true);
          NameScanStops(classes, buf, name, p, true, buf[start..p]);
          break;
        } else if current == EOF_CHAR {
          OtherGoesOn(classes, buf, p, true);
          NameScanStops(classes, buf, name, p, true, buf[start..p]);
          break;
        } else {
          var saved, asciiEnd := Save(), pos;
          OtherGoesOn(classes, buf, p, true);
          if !GoesOn(classes, buf, p, true) { NameScanStops(classes, buf, name, p, true, buf[start..p]); }
          var c :- LexIdentifierOther();
          if IsIdPart(classes, c) {
            NameScanGoesOn(classes, buf, name, p, true, buf[start..p]);
            var text := buf[start..asciiEnd] + Wtf8.Encode(c);
            r := LexIdentifierSlow(start, text, name);
            return;
          } else {
            Restore(saved);
            break;
          }
        }
      }
      return Ok((Identifier(buf[start..pos]), Loc(start, pos)));
    }

    method LexIdentifierSlow(start: nat, prefix: seq<Byte>, ghost name: Outcome<Piece>)
      returns (r: Outcome<(Token, Loc)>)
      requires Valid() && NameScan(classes, buf, name, pos, false, prefix)
      modifies this`pos, this`current
      ensures Valid() && (r.Ok? ==> old(pos) <= pos && r.value.1 == Loc(start, pos))
      ensures Reads(IdentifierToken(name), start, r)
    {
      hide NameRest, GoesOn, IdCharacter, CharacterText, NameScan, NameStop;
      var text: seq<Byte> := prefix;
      while true
        invariant Valid() && old(pos) <= pos
        invariant NameScan(classes, buf, name, pos, false, text)
        decreases |buf| - pos
      {
        ghost var p := pos;
        if pos < |buf| && IsAsciiAt(buf, p) {
          AsciiText(classes, buf, p, false);
        } else {
          OtherGoesOn(classes, buf, p, false);
        }
        if GoesOn(classes, buf, p, false) {
          NameScanGoesOn(classes, buf, name, p, false, text);
        } else {
          NameScanStops(classes, buf, name, p, false, text);
        }
        if current < 0x80 {
          if IsIdPartAscii(current) {
            text := text + [current];
            AdvanceN(1);
          } else if current == BACKSLASH {
            var c :- LexIdentifierOther();
            if !IsIdPart(classes, c) { return Err(UnknownToken); }
            text := text + Wtf8.Encode(c);
          } else {
            break;
          }
        } else if current == EOF_CHAR {
          break;
        } else {
          var saved := Save();
          var c :- LexIdentifierOther();
          if IsIdPartUnicode(classes, c) {
            text := text + Wtf8.Encode(c);
          } else {
            Restore(saved);
            break;
          }
        }
      }
      return Ok((Identifier(text), Loc(start, pos)));
    }

    method LexPrivateIdentifier(start: nat) returns (r: Outcome<(Token, Loc)>)
      requires Valid() && start == pos && current == HASH
      modifies this`pos, this`current
      ensures Valid() && (r.Ok? ==> start < pos && r.value.1 == Loc(start, pos))
      ensures Reads(PrivateToken(PrivateNameAt(classes, buf, start)), start, r)
    {
      hide NameAt, NameRest, IdCharacter, CharacterText, NameScan;
      AdvanceN(1);
      SliceByOne(buf, start, start);
      ghost var whole := PrivateNameAt(classes, buf, start);
      var name;
      if IsIdStartAscii(current) {
        StartDecides(classes, buf, pos);
        name :- LexIdentifierAscii(start);
      } else {
        NameAtCases(classes, buf, pos, HashNotFollowedByIdentifier);
        var c :- LexIdentifierOther();
        if !IsIdStart(classes, c) { return Err(HashNotFollowedByIdentifier); }
        name :- LexIdentifierSlow(start, [HASH] + Wtf8.Encode(c), whole);
      }
      return Ok((PrivateIdentifier(name.0.text), name.1));
    }

    /** Nothing is read, and no digit or start of a name follows an accepted number. */
    method ErrorIfCannotFollowNumber() returns (r: Outcome<()>)
      requires Valid()
      modifies this`pos, this`current
      ensures Valid() && (r.Ok? ==> pos == old(pos))
      ensures match FollowError(classes, buf, old(pos))
        case Some(error) => r == Err(error)
        case None => r.Ok?
    {
      if current < 0x80 {
        if IsIdStartAscii(current) || IsDecimalDigit(current) { return Err(InvalidNumericLiteralNextChar); }
      } else if current != EOF_CHAR {
        OtherCharacter(buf, pos);
        var saved := Save();
        var c :- LexUtf8CodePoint();
        if IsIdStartUnicode(classes, c) { return Err(InvalidNumericLiteralNextChar); }
        Restore(saved);
      }
      return Ok(());
    }

    // Comments.

    /** After `//` or `#!`: skips the rest of the line and its end. */
    method SkipLineComment() returns (r: Outcome<()>)
      requires Valid()
      modifies this`pos, this`current, this`isNewLineBeforeCurrent
      ensures Valid()
      ensures
        var end := LineEnd(buf, old(pos));
        if end.Err? then r == Err(end.error)
        else
          r.Ok? && end == Ok(pos)
          && isNewLineBeforeCurrent == (old(isNewLineBeforeCurrent) || HasNewline(buf, old(pos), pos))
    {
      hide Character, NewlineAt, OtherAt, Wtf8.Step, HasNewline;
      ghost var start := pos;
      NothingBetween(buf, start);
      while true
        invariant Valid() && start <= pos && isNewLineBeforeCurrent == old(isNewLineBeforeCurrent)
        invariant LineEnd(buf, start) == LineEnd(buf, pos) && !HasNewline(buf, start, pos)
        decreases |buf| - pos
      {
        ghost var p := pos;
        if p < |buf| { OneCharacter(buf, start, p); }
        if current == LINE_FEED || current == CARRIAGE_RETURN {
          AdvanceN(1);
          isNewLineBeforeCurrent := true;
          return Ok(());
        } else if current == EOF_CHAR {
          return Ok(());
        } else if current < 0x80 {
          AdvanceN(1);
        } else {
          var c :- LexUtf8CodePoint();
          if IsUnicodeNewline(c) {
            isNewLineBeforeCurrent := true;
            return Ok(());
          }
        }
      }
    }

    /** After the opening mark: skips to the closing one. */
    method SkipBlockComment() returns (r: Outcome<()>)
      requires Valid()
      modifies this`pos, this`current, this`isNewLineBeforeCurrent
      ensures Valid()
      ensures
        var end := BlockEnd(buf, old(pos));
        if end.Err? then r == Err(end.error)
        else
          r.Ok? && end == Ok(pos)
          && isNewLineBeforeCurrent == (old(isNewLineBeforeCurrent) || HasNewline(buf, old(pos), pos))
    {
      hide Character, NewlineAt, OtherAt, Wtf8.Step, HasNewline;
      ghost var start := pos;
      NothingBetween(buf, start);
      while true
        invariant Valid() && start <= pos && BlockEnd(buf, start) == BlockEnd(buf, pos)
        invariant isNewLineBeforeCurrent == (old(isNewLineBeforeCurrent) || HasNewline(buf, start, pos))
        decreases |buf| - pos
      {
        ghost var p := pos;
        if p < |buf| { OneCharacter(buf, start, p); }
        if current == STAR {
          if PeekN(1) == SLASH {
            OneCharacter(buf, start, p + 1);
            AdvanceN(2);
            break;
          } else if PeekN(1) == EOF_CHAR {
            return Err(UnterminatedComment);
          }
          AdvanceN(1);
        } else if current == LINE_FEED || current == CARRIAGE_RETURN {
          AdvanceN(1);
          isNewLineBeforeCurrent := true;
        } else if current == EOF_CHAR {
          return Err(UnterminatedComment);
        } else if current < 0x80 {
          AdvanceN(1);
        } else {
          var c :- LexUtf8CodePoint();
          if IsUnicodeNewline(c) { isNewLineBeforeCurrent := true; }
        }
      }
      return Ok(());
    }

    // Tokens.

    method LexNumber() returns (r: Outcome<(Token, Loc)>)
      requires Valid() && pos < |buf| && NumberStarts(buf, pos)
      modifies this`pos, this`current
      ensures Valid() && (r.Ok? ==> r.value.1 == Loc(old(pos), pos))
      ensures Reads(NumberAt(classes, buf, old(pos), inStrictMode), old(pos), r)
    {
      hide DecimalLexeme, RadixLexeme, LegacyOctalLexeme, FollowError;
      var start := pos;
      var c := PeekN(1);
      var token: (Token, Loc);
      if current != ZERO {
        token :- LexDecimalLiteral();
      } else if c == 0x62 || c == 0x42 {
        token :- LexLiteralWithBase(Binary);
      } else if c == 0x6F || c == 0x4F {
        token :- LexLiteralWithBase(Octal);
      } else if c == 0x78 || c == 0x58 {
        token :- LexLiteralWithBase(Hex);
      } else if IsDecimalDigit(c) && inStrictMode {
        AdvanceN(1);
        return Err(LegacyOctalLiteralInStrictMode);
      } else if IsDecimalDigit(c) {
        var octal := LexLegacyOctalLiteral();
        match octal {
          case Some(number) => token := (number, Loc(start, pos));
          case None => token :- LexDecimalLiteral();
        }
      } else {
        token :- LexDecimalLiteral();
      }
      var following :- ErrorIfCannotFollowNumber();
      return Ok(token);
    }

    /** A token that starts with an ASCII character, or the end. */
    method LexToken() returns (r: Outcome<(Token, Loc)>)
      requires Valid() && (current < 0x80 || current == EOF_CHAR)
      modifies this`pos, this`current
      ensures Valid() && (r.Ok? ==> r.value.1 == Loc(old(pos), pos))
      ensures Reads(TokenAt(classes, buf, old(pos), inStrictMode), old(pos), r)
    {
      hide NameAt, PrivateNameAt, NumericLexeme, FollowError, StringValue, EndOfTemplate, Cooked, Normalized;
      hide PunctuatorAt, Spell, Wtf8.Canonical, StringAt, TemplateAt, NumberAt;
      var start := pos;
      if IsDecimalDigit(current) || (current == PERIOD && IsDecimalDigit(PeekN(1))) {
        r := LexNumber();
      } else if PunctuatorAt(buf, pos).Some? {
        PunctuatorIsSpelled(buf, pos);
        var k := PunctuatorAt(buf, pos).value;
        AdvanceN(Spell(k).Length());
        return Ok((Punctuation(k), Loc(start, pos)));
      } else if current == HASH {
        r := LexPrivateIdentifier(start);
      } else if current == DOUBLE_QUOTE || current == SINGLE_QUOTE {
        r := LexStringLiteral();
      } else if current == BACKTICK {
        AdvanceN(1);
        r := LexTemplateLiteral(start, true);
      } else if current == EOF_CHAR {
        return Ok((Eof, Loc(start, pos)));
      } else if IsIdStartAscii(current) {
        PrependNothing(NameAt(classes, buf, pos, UnknownToken));
        assert buf[start..pos] == [];
        r := LexIdentifierAscii(start);
      } else if current == BACKSLASH {
        r := LexEscapedIdentifier(start);
      } else {
        AdvanceN(1);
        return Err(UnknownToken);
      }
    }

    method LexEscapedIdentifier(start: nat) returns (r: Outcome<(Token, Loc)>)
      requires Valid() && start == pos && current == BACKSLASH
      modifies this`pos, this`current
      ensures Valid() && (r.Ok? ==> start < pos && r.value.1 == Loc(start, pos))
      ensures Reads(IdentifierToken(NameAt(classes, buf, start, UnknownToken)), start, r)
    {
      hide NameAt, NameRest, IdCharacter, CharacterText, NameScan;
      NameAtCases(classes, buf, pos, UnknownToken);
      var c :- LexIdentifierOther();
      if !IsIdStart(classes, c) { return Err(UnknownToken); }
      r := LexIdentifierSlow(start, Wtf8.Encode(c), NameAt(classes, buf, start, UnknownToken));
    }

    /** White space and line ends in ASCII, which most trivia is. */
    method SkipAsciiWhitespace(ghost from: nat, ghost hashbang: bool)
      requires Valid() && GapScan(classes, buf, hashbang, from, pos, isNewLineBeforeCurrent)
      modifies this`pos, this`current, this`isNewLineBeforeCurrent
      ensures Valid() && old(pos) <= pos && GapScan(classes, buf, hashbang, from, pos, isNewLineBeforeCurrent)
      ensures !IsAsciiWhitespace(current) && !IsAsciiNewline(current)
    {
      hide GapScan;
      while IsAsciiWhitespace(current) || IsAsciiNewline(current)
        invariant Valid() && old(pos) <= pos && GapScan(classes, buf, hashbang, from, pos, isNewLineBeforeCurrent)
        decreases |buf| - pos
      {
        AsciiCharacter(buf, pos);
        GapCharacter(classes, buf, hashbang, from, pos, isNewLineBeforeCurrent);
        if IsAsciiNewline(current) { isNewLineBeforeCurrent := true; }
        AdvanceN(1);
      }
    }

    /** The comment at the position, if there is one. */
    method SkipComment(ghost from: nat) returns (r: Outcome<bool>)
      requires Valid() && GapScan(classes, buf, allowHashbangComment, from, pos, isNewLineBeforeCurrent)
      modifies this`pos, this`current, this`isNewLineBeforeCurrent
      ensures Valid() && !r.Panic?
      ensures r.Err? ==>
        forall flag :: ReadsOn(classes, buf, allowHashbangComment, inStrictMode, from, flag, Err(r.error))
      ensures r == Ok(true) ==>
        old(pos) < pos && GapScan(classes, buf, allowHashbangComment, from, pos, isNewLineBeforeCurrent)
      ensures r == Ok(false) ==>
        && pos == old(pos) && isNewLineBeforeCurrent == old(isNewLineBeforeCurrent)
        && !CommentStarts(buf, allowHashbangComment, pos) && !OpensComment(buf, pos)
    {
      hide ReadsOn, GapScan, TriviaEnd, HasNewline, LineEnd, BlockEnd;
      ghost var hashbang := allowHashbangComment;
      if CommentStarts(buf, hashbang, pos) || OpensComment(buf, pos) {
        CommentReads(classes, buf, hashbang, inStrictMode, from, pos, isNewLineBeforeCurrent);
      }
      if current == SLASH && PeekN(1) == SLASH {
        AdvanceN(2);
        var skipped :- SkipLineComment();
        return Ok(true);
      } else if current == SLASH && PeekN(1) == STAR {
        AdvanceN(2);
        var skipped :- SkipBlockComment();
        return Ok(true);
      } else if current == HASH && pos == 0 && PeekN(1) == BANG && allowHashbangComment {
        AdvanceN(2);
        var skipped :- SkipLineComment();
        return Ok(true);
      }
      return Ok(false);
    }

    /** The next token, behind all the trivia, or the end. */
    method Next() returns (r: Outcome<(Token, Loc)>)
      requires Valid()
      modifies this`pos, this`current, this`isNewLineBeforeCurrent
      ensures Valid() && (r.Ok? ==> r.value.1.end == pos)
      ensures ReadsOn(classes, buf, allowHashbangComment, inStrictMode, old(pos), isNewLineBeforeCurrent, r)
    {
      hide ReadsOn, Reads, TokenAt, GapScan, PieceEnd, TriviaEnd, HasNewline, LineEnd, BlockEnd;
      hide OtherAt, Character, NewlineAt, Wtf8.Decode, Wtf8.Step, IsIdStartUnicode;
      ghost var from, hashbang := pos, allowHashbangComment;
      isNewLineBeforeCurrent := false;
      GapStarts(classes, buf, hashbang, from);
      while true
        invariant Valid() && GapScan(classes, buf, hashbang, from, pos, isNewLineBeforeCurrent)
        decreases |buf| - pos
      {
        SkipAsciiWhitespace(from, hashbang);
        var start := pos;
        var isComment :- SkipComment(from);
        if isComment {
        } else if current < 0x80 || current == EOF_CHAR {
          NoPieceAtAscii(classes, buf, hashbang, pos);
          GapEnds(classes, buf, hashbang, from, pos, isNewLineBeforeCurrent);
          r := LexToken();
          GapReads(classes, buf, hashbang, inStrictMode, from, start, isNewLineBeforeCurrent, r);
          return;
        } else {
          OtherReads(classes, buf, hashbang, inStrictMode, from, pos, isNewLineBeforeCurrent);
          var c :- LexUtf8CodePoint();
          if IsIdStartUnicode(classes, c) {
            r := LexOtherIdentifier(start, c);
            GapReads(classes, buf, hashbang, inStrictMode, from, start, isNewLineBeforeCurrent, r);
            return;
          } else if IsUnicodeWhitespace(c) {
          } else if IsUnicodeNewline(c) {
            isNewLineBeforeCurrent := true;
          } else {
            return Err(UnknownToken);
          }
        }
      }
    }

    /** The rest of an identifier that starts with a character outside ASCII. */
    method LexOtherIdentifier(start: nat, c: CodePoint) returns (r: Outcome<(Token, Loc)>)
      requires Valid() && start < |buf| && buf[start] >= 0x80 && IsIdStartUnicode(classes, c)
      requires OtherAt(buf, start) == Some(c) && Character(buf, start) == Ok(pos)
      modifies this`pos, this`current
      ensures Valid() && (r.Ok? ==> start < pos && r.value.1 == Loc(start, pos))
      ensures Reads(TokenAt(classes, buf, start, inStrictMode), start, r)
    {
      hide NameAt, NameRest, CharacterText, NameScan, TokenAt;
      OtherToken(classes, buf, start, inStrictMode);
      NameAtCases(classes, buf, start, UnknownToken);
      r := LexIdentifierSlow(start, Wtf8.Encode(c), NameAt(classes, buf, start, UnknownToken));
    }

    /** Lexing token after token to the end or to the first failure. */
    method LexAll() returns (r: Outcome<seq<Placed>>)
      requires Valid() && pos == 0
      modifies this`pos, this`current, this`isNewLineBeforeCurrent
      ensures r == TokensFrom(classes, buf, allowHashbangComment, inStrictMode, 0)
    {
      hide TokenAt, TriviaEnd, HasNewline, TokenScan, TokensFrom, ReadsOn;
      var tokens: seq<Placed> := [];
      TokenScanStarts(classes, buf, allowHashbangComment, inStrictMode);
      while true
        invariant Valid() && TokenScan(classes, buf, allowHashbangComment, inStrictMode, pos, tokens)
        decreases |buf| - pos
      {
        ghost var p := pos;
        TokenScanExtends(classes, buf, allowHashbangComment, inStrictMode, p, tokens);
        var next := Next();
        NextIsRead(classes, buf, allowHashbangComment, inStrictMode, p, isNewLineBeforeCurrent, next);
        match next {
          case Err(error) => return Err(error);
          case Panic => return Panic;
          case Ok(token) =>
            tokens := tokens + [Placed(token.0, token.1, isNewLineBeforeCurrent)];
            if token.0 == Eof { return Ok(tokens); }
        }
      }
    }
  }
}
