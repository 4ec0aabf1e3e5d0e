/** When string and template literals of a canonical source cannot be read: exactly when lexing panics, and where. */
module LiteralEnds {
  import opened Identifiers
  import opened Lexemes
  import opened Numbers
  import opened Punctuators
  import opened TemplateLaws
  import opened TextLiterals
  import opened Tokens
  import opened Unicode
  import Wtf8

  /** The character at `i` belongs to an escape of a literal whose text starts at `p`. */
  predicate IsEscaped(buf: seq<Byte>, p: nat, i: nat)
    requires i < |buf|
  {
    i > 0 && i - 1 in EscapeStarts(buf, p, i)
  }

  // Template literals.

  ghost predicate NoTerminator(buf: seq<Byte>, p: nat) {
    forall i | p <= i < |buf| && IsTerminator(buf, i) :: IsEscaped(buf, p, i)
  }

  /** One character, or a backslash and the character after it, before the end of a template. */
  lemma NoTerminatorStep(buf: seq<Byte>, p: nat, next: nat)
    requires p < next <= |buf| && !IsTerminator(buf, p)
    requires
      var first := if buf[p] == BACKSLASH then p + 1 else p;
      first < next && forall i | first < i < next :: buf[i] >= 0x80
    ensures NoTerminator(buf, p) <==> NoTerminator(buf, next)
  {
    forall i | next <= i < |buf|
      ensures IsEscaped(buf, p, i) <==> IsEscaped(buf, next, i)
    {
      StartsStep(buf, p, next, i);
    }
    hide EscapeStarts;
    if buf[p] == BACKSLASH { SecondIsEscaped(buf, p); }
  }

  lemma SecondIsEscaped(buf: seq<Byte>, p: nat)
    requires p + 1 < |buf| && buf[p] == BACKSLASH
    ensures IsEscaped(buf, p, p + 1)
  {
    assert EscapeStarts(buf, p, p + 1)[0] == p;
  }

  /** In a canonical source a template part has no error, and no end exactly when every terminator is escaped. */
  lemma {:induction false} EndFails(buf: seq<Byte>, p: nat)
    requires p <= |buf| && Wtf8.Canonical(buf[p..])
    ensures !EndOfTemplate(buf, p).Err?
    ensures EndOfTemplate(buf, p).Panic? <==> NoTerminator(buf, p)
    decreases |buf| - p
  {
    hide Wtf8.Canonical, Wtf8.Step, Wtf8.Encode, NoTerminator, Character;
    if p == |buf| {
      NothingLeft(buf);
    } else if IsTerminator(buf, p) {
      NotEscaped(buf, p);
    } else {
      CanonicalCharacter(buf, p);
      var first := if buf[p] == BACKSLASH then p + 1 else p;
      if first == |buf| {
        NothingAfter(buf, p);
      } else {
        if first == p + 1 { CanonicalAscii(buf, p, p + 1); }
        CanonicalCharacter(buf, first);
        CharacterBytes(buf, first);
        var next := Character(buf, first).value;
        NoTerminatorStep(buf, p, next);
        EndFails(buf, next);
      }
    }
    hide IsTerminator;
  }

  lemma NothingLeft(buf: seq<Byte>)
    ensures NoTerminator(buf, |buf|) && EndOfTemplate(buf, |buf|) == Panic
  {
  }

  lemma NothingAfter(buf: seq<Byte>, p: nat)
    requires p + 1 == |buf| && buf[p] == BACKSLASH
    ensures NoTerminator(buf, p) && EndOfTemplate(buf, p) == Panic
  {
  }

  lemma NotEscaped(buf: seq<Byte>, p: nat)
    requires p < |buf| && IsTerminator(buf, p)
    ensures !NoTerminator(buf, p)
  {
    assert EscapeStarts(buf, p, p) == [];
    assert !IsEscaped(buf, p, p);
  }

  /** Reading a template part of a canonical source panics exactly when every terminator is escaped. */
  lemma TemplatePanics(buf: seq<Byte>, p: nat, isHead: bool)
    requires p <= |buf| && Wtf8.Canonical(buf[p..])
    ensures !TemplateAt(buf, p, isHead).Err?
    ensures TemplateAt(buf, p, isHead).Panic? <==>
      forall i | p <= i < |buf| && IsTerminator(buf, i) :: i > 0 && i - 1 in EscapeStarts(buf, p, i)
  {
    TemplateReadMeaning(buf, p, true);
    EndFails(buf, p);
    hide TemplateRead, EndOfTemplate, Cooked, Normalized, IsTerminator, EscapeStarts, Wtf8.Canonical;
  }

  // String literals.

  predicate EndsString(buf: seq<Byte>, i: nat, quote: Byte) {
    At(buf, i) == quote || At(buf, i) == LINE_FEED || At(buf, i) == CARRIAGE_RETURN
  }

  /** The same, where a line feed after an escaped carriage return belongs to the escape as well. */
  predicate InEscape(buf: seq<Byte>, p: nat, i: nat)
    requires i < |buf|
  {
    || IsEscaped(buf, p, i)
    || (i > 1 && i - 2 in EscapeStarts(buf, p, i) && buf[i - 1] == CARRIAGE_RETURN && buf[i] == LINE_FEED)
  }

  /** Nothing from `p` on to `last` ends the literal or is an error. */
  ghost predicate GoesOnTo(buf: seq<Byte>, p: nat, last: nat, quote: Byte, strict: bool)
    requires last < |buf|
  {
    && (forall i | p <= i < last && EndsString(buf, i, quote) :: InEscape(buf, p, i))
    && (forall i | i in EscapeStarts(buf, p, last) :: i < |buf| && StringEscape(buf, i, strict).Ok?)
  }

  /** The source ends with a backslash that starts an escape, and nothing before it ends the literal or is an error. */
  ghost predicate LoneBackslash(buf: seq<Byte>, p: nat, quote: Byte, strict: bool) {
    && p < |buf| && buf[|buf| - 1] == BACKSLASH && !IsEscaped(buf, p, |buf| - 1)
    && GoesOnTo(buf, p, |buf| - 1, quote, strict)
  }

  /** The bytes of an escape behind the first two: none starts another escape, or ends a string but in a pair. */
  ghost predicate EscapeTail(buf: seq<Byte>, p: nat, next: nat, quote: Byte) {
    p + 2 <= next <= |buf| && forall i | p + 2 <= i < next :: IsTailByte(buf, p, i, quote)
  }

  predicate IsTailByte(buf: seq<Byte>, p: nat, i: nat, quote: Byte)
    requires 0 < i < |buf|
  {
    && buf[i] != BACKSLASH
    && (EndsString(buf, i, quote) ==> i == p + 2 && buf[i - 1] == CARRIAGE_RETURN && buf[i] == LINE_FEED)
  }

  lemma DigitEscapeBytes(buf: seq<Byte>, p: nat, strict: bool)
    requires p < |buf| && IsDecimalDigit(At(buf, p + 1)) && StringEscape(buf, p, strict).Ok?
    ensures
      var next := StringEscape(buf, p, strict).value.next;
      p + 2 <= next <= |buf| && forall i | p + 1 <= i < next :: IsDecimalDigit(buf[i])
  {
    hide Positional, Wtf8.Encode, Escape;
  }

  lemma OtherEscapeBytes(buf: seq<Byte>, p: nat, quote: Byte)
    requires p < |buf| && IsQuote(quote) && Escape(buf, p).Ok?
    ensures EscapeTail(buf, p, Escape(buf, p).value.next, quote)
    ensures At(buf, p + 1) == CARRIAGE_RETURN && At(buf, p + 2) == LINE_FEED ==> Escape(buf, p).value.next == p + 3
  {
    hide UnicodeEscape, HexEscape, Wtf8.Encode;
    var c := At(buf, p + 1);
    if c == LOWER_U { UnicodeEscapeIsAscii(buf, p + 2); }
    if c == LOWER_X { HexEscapeIsAscii(buf, p + 2); }
    if p + 1 < |buf| && Character(buf, p + 1).Ok? { CharacterBytes(buf, p + 1); }
    hide Character;
    var next := Escape(buf, p).value.next;
    forall i | p + 2 <= i < next
      ensures IsTailByte(buf, p, i, quote)
    {
    }
  }

  /** The bytes of an escape behind the first two neither end the string nor start another escape. */
  lemma StringEscapeBytes(buf: seq<Byte>, p: nat, quote: Byte, strict: bool)
    requires p < |buf| && IsQuote(quote) && StringEscape(buf, p, strict).Ok?
    ensures EscapeTail(buf, p, StringEscape(buf, p, strict).value.next, quote)
    ensures
      At(buf, p + 1) == CARRIAGE_RETURN && At(buf, p + 2) == LINE_FEED ==>
        StringEscape(buf, p, strict).value.next == p + 3
  {
    if IsDecimalDigit(At(buf, p + 1)) {
      DigitEscapeBytes(buf, p, strict);
      DigitsAreTail(buf, p, StringEscape(buf, p, strict).value.next, quote);
    } else {
      OtherEscapeBytes(buf, p, quote);
    }
    hide Escape, Positional, Wtf8.Encode;
  }

  lemma DigitsAreTail(buf: seq<Byte>, p: nat, next: nat, quote: Byte)
    requires p + 2 <= next <= |buf| && IsQuote(quote) && forall i | p + 1 <= i < next :: IsDecimalDigit(buf[i])
    ensures EscapeTail(buf, p, next, quote)
  {
    forall i | p + 2 <= i < next
      ensures IsTailByte(buf, p, i, quote)
    {
      assert IsDecimalDigit(buf[i]);
    }
  }

  /** A step to `next` does not change what is escaped behind it. */
  lemma EscapedBehind(buf: seq<Byte>, p: nat, next: nat, i: nat)
    requires p < next <= i < |buf|
    requires
      var first := if buf[p] == BACKSLASH then p + 1 else p;
      first < next && forall j | first < j < next :: buf[j] != BACKSLASH
    requires buf[p] == BACKSLASH && At(buf, p + 1) == CARRIAGE_RETURN && At(buf, p + 2) == LINE_FEED ==> p + 3 <= next
    ensures EscapeStarts(buf, p, i) == (if buf[p] == BACKSLASH then [p] else []) + EscapeStarts(buf, next, i)
    ensures IsEscaped(buf, p, i) <==> IsEscaped(buf, next, i)
    ensures InEscape(buf, p, i) <==> InEscape(buf, next, i)
  {
    StartsStep(buf, p, next, i);
    hide EscapeStarts;
  }

  /** A step over bytes that neither end the string nor start an escape that fails. */
  lemma GoesOnStep(buf: seq<Byte>, p: nat, next: nat, last: nat, quote: Byte, strict: bool)
    requires p < next <= last < |buf| && !EndsString(buf, p, quote) && IsQuote(quote)
    requires
      var first := if buf[p] == BACKSLASH then p + 1 else p;
      first < next && forall j | first < j < next :: buf[j] != BACKSLASH
    requires buf[p] == BACKSLASH && At(buf, p + 1) == CARRIAGE_RETURN && At(buf, p + 2) == LINE_FEED ==> p + 3 <= next
    requires buf[p] == BACKSLASH ==> StringEscape(buf, p, strict).Ok?
    requires forall i | p < i < next && EndsString(buf, i, quote) :: InEscape(buf, p, i)
    ensures GoesOnTo(buf, p, last, quote, strict) <==> GoesOnTo(buf, next, last, quote, strict)
  {
    forall i | next <= i < |buf|
      ensures InEscape(buf, p, i) <==> InEscape(buf, next, i)
    {
      EscapedBehind(buf, p, next, i);
    }
    EscapedBehind(buf, p, next, last);
    hide EscapeStarts, StringEscape, InEscape;
    GoesOnEnds(buf, p, next, last, quote);
  }

  lemma GoesOnEnds(buf: seq<Byte>, p: nat, next: nat, last: nat, quote: Byte)
    requires p < next <= last < |buf| && !EndsString(buf, p, quote)
    requires forall i | p < i < next && EndsString(buf, i, quote) :: InEscape(buf, p, i)
    requires forall i | next <= i < |buf| :: InEscape(buf, p, i) <==> InEscape(buf, next, i)
    ensures
      (forall i | p <= i < last && EndsString(buf, i, quote) :: InEscape(buf, p, i))
      <==> forall i | next <= i < last && EndsString(buf, i, quote) :: InEscape(buf, next, i)
  {
    hide InEscape, EndsString;
  }

  lemma LoneCharacter(buf: seq<Byte>, p: nat, next: nat, quote: Byte, strict: bool)
    requires p < next <= |buf| && buf[p] != BACKSLASH && !EndsString(buf, p, quote) && IsQuote(quote)
    requires forall i | p < i < next :: buf[i] >= 0x80
    ensures LoneBackslash(buf, p, quote, strict) <==> LoneBackslash(buf, next, quote, strict)
  {
    hide EscapeStarts, StringEscape, GoesOnTo;
    if next < |buf| {
      EscapedBehind(buf, p, next, |buf| - 1);
      GoesOnStep(buf, p, next, |buf| - 1, quote, strict);
    } else {
      assert buf[|buf| - 1] != BACKSLASH;
    }
  }

  lemma LoneEscape(buf: seq<Byte>, p: nat, quote: Byte, strict: bool)
    requires p < |buf| && buf[p] == BACKSLASH && IsQuote(quote) && StringEscape(buf, p, strict).Ok?
    ensures
      LoneBackslash(buf, p, quote, strict) <==>
      LoneBackslash(buf, StringEscape(buf, p, strict).value.next, quote, strict)
  {
    hide StringEscape, GoesOnTo, EscapeStarts, IsEscaped, EndsString, InEscape;
    StringEscapeBytes(buf, p, quote, strict);
    var next := StringEscape(buf, p, strict).value.next;
    if next < |buf| {
      EscapeIsInside(buf, p, next, quote);
      NotAnEnd(buf, p, quote);
      hide EscapeTail;
      EscapedBehind(buf, p, next, |buf| - 1);
      GoesOnStep(buf, p, next, |buf| - 1, quote, strict);
    } else {
      EscapeEndsSource(buf, p, quote, strict);
    }
  }

  lemma NotAnEnd(buf: seq<Byte>, p: nat, quote: Byte)
    requires p < |buf| && buf[p] == BACKSLASH && IsQuote(quote)
    ensures !EndsString(buf, p, quote)
  {
  }

  /** A backslash in an escape that ends the source is escaped. */
  lemma EscapeEndsSource(buf: seq<Byte>, p: nat, quote: Byte, strict: bool)
    requires p < |buf| && buf[p] == BACKSLASH && EscapeTail(buf, p, |buf|, quote)
    ensures !LoneBackslash(buf, p, quote, strict)
  {
    SecondIsEscaped(buf, p);
    hide GoesOnTo, IsEscaped, EscapeStarts;
    if |buf| - 1 > p + 1 { assert IsTailByte(buf, p, |buf| - 1, quote); }
  }

  /** What would end the string within an escape belongs to it. */
  lemma EscapeIsInside(buf: seq<Byte>, p: nat, next: nat, quote: Byte)
    requires p < next < |buf| && buf[p] == BACKSLASH && IsQuote(quote) && EscapeTail(buf, p, next, quote)
    ensures forall j | p + 1 < j < next :: buf[j] != BACKSLASH
    ensures forall i | p < i < next && EndsString(buf, i, quote) :: InEscape(buf, p, i)
  {
    SecondIsEscaped(buf, p);
    if p + 2 < next { assert EscapeStarts(buf, p, p + 2)[0] == p; }
    hide EscapeStarts;
    forall i | p + 2 <= i < next
      ensures buf[i] != BACKSLASH && (EndsString(buf, i, quote) ==> InEscape(buf, p, i))
    {
      assert IsTailByte(buf, p, i, quote);
    }
  }

  /** Nothing is a lone backslash where the literal ends or an escape fails. */
  lemma NotLone(buf: seq<Byte>, p: nat, quote: Byte, strict: bool)
    requires p <= |buf| && IsQuote(quote)
    requires
      || p == |buf| || EndsString(buf, p, quote)
      || (buf[p] == BACKSLASH && p + 1 < |buf| && !StringEscape(buf, p, strict).Ok?)
    ensures !LoneBackslash(buf, p, quote, strict)
  {
    if p < |buf| - 1 {
      if EndsString(buf, p, quote) {
        assert EscapeStarts(buf, p, p) == [] && !InEscape(buf, p, p);
      } else {
        assert EscapeStarts(buf, p, |buf| - 1)[0] == p;
      }
    }
    hide EscapeStarts, StringEscape, InEscape;
  }

  lemma IsLone(buf: seq<Byte>, p: nat, quote: Byte, strict: bool)
    requires p + 1 == |buf| && buf[p] == BACKSLASH
    ensures LoneBackslash(buf, p, quote, strict) && StringEscape(buf, p, strict) == Panic
  {
  }

  /** In a canonical source an escape is a panic only if its backslash is the last byte. */
  lemma EscapePanics(buf: seq<Byte>, p: nat, strict: bool)
    requires p + 1 < |buf| && buf[p] == BACKSLASH && Wtf8.Canonical(buf[p..])
    ensures !StringEscape(buf, p, strict).Panic?
  {
    CanonicalAscii(buf, p, p + 1);
    CanonicalCharacter(buf, p + 1);
    hide Character, HexEscape, UnicodeEscape, Positional, Wtf8.Encode, Wtf8.Canonical, Wtf8.Step;
  }

  /** Reading a string of a canonical source panics exactly at a lone backslash at the end of the source. */
  lemma {:induction false} StringPanics(buf: seq<Byte>, p: nat, quote: Byte, strict: bool)
    requires p <= |buf| && Wtf8.Canonical(buf[p..]) && IsQuote(quote)
    ensures StringValue(buf, p, quote, strict).Panic? <==> LoneBackslash(buf, p, quote, strict)
    decreases |buf| - p
  {
    hide Wtf8.Canonical, Wtf8.Step, Wtf8.Encode, LoneBackslash, StringEscape, Character;
    if p == |buf| || EndsString(buf, p, quote) {
      NotLone(buf, p, quote, strict);
    } else if buf[p] == BACKSLASH {
      if p + 1 == |buf| {
        IsLone(buf, p, quote, strict);
      } else {
        EscapePanics(buf, p, strict);
        if StringEscape(buf, p, strict).Ok? {
          StringEscapeCanonical(buf, p, strict);
          LoneEscape(buf, p, quote, strict);
          StringPanics(buf, StringEscape(buf, p, strict).value.next, quote, strict);
        } else {
          NotLone(buf, p, quote, strict);
        }
      }
    } else {
      CanonicalCharacter(buf, p);
      CharacterBytes(buf, p);
      LoneCharacter(buf, p, Character(buf, p).value, quote, strict);
      StringPanics(buf, Character(buf, p).value, quote, strict);
    }
  }

  /** The same for the string literal at a quote. */
  lemma StringLiteralPanics(buf: seq<Byte>, p: nat, strict: bool)
    requires p < |buf| && Wtf8.Canonical(buf[p..]) && IsQuote(buf[p])
    ensures StringAt(buf, p, strict).Panic? <==> LoneBackslash(buf, p + 1, buf[p], strict)
  {
    CanonicalAscii(buf, p, p + 1);
    StringReadMeaning(buf, p + 1, buf[p], strict, true);
    StringPanics(buf, p + 1, buf[p], strict);
    hide StringRead, StringValue, LoneBackslash, Wtf8.Canonical;
  }

  // Tokens.

  /** Reading a token of a canonical source panics in exactly three cases. */
  lemma TokenPanics(classes: Classes, buf: seq<Byte>, p: nat, strict: bool)
    requires p <= |buf| && Wtf8.Canonical(buf[p..])
    ensures TokenAt(classes, buf, p, strict).Panic? <==>
      || (At(buf, p) == HASH && p + 1 == |buf|)
      || (At(buf, p) == BACKTICK && NoTerminator(buf, p + 1))
      || (p < |buf| && IsQuote(buf[p]) && LoneBackslash(buf, p + 1, buf[p], strict))
  {
    if p < |buf| {
      if IsQuote(buf[p]) { StringLiteralPanics(buf, p, strict); }
      if buf[p] == HASH { HashAlone(classes, buf, p); }
      if buf[p] == BACKTICK {
        CanonicalAscii(buf, p, p + 1);
        TemplatePanics(buf, p + 1, true);
      }
      if NumberStarts(buf, p) { NumbersDoNotPanic(classes, buf, p, strict); }
      if buf[p] >= 0x80 { OtherTokensDoNotPanic(classes, buf, p); }
      if IsQuote(buf[p]) || buf[p] == HASH || buf[p] == BACKTICK { PunctuatorStarts(buf, p); }
    }
    hide NumberAt, StringAt, TemplateAt, NameRest, IdCharacter, OtherTokenAt, PunctuatorAt, LoneBackslash;
    hide Wtf8.Canonical, IsTerminator, EscapeStarts;
  }

  lemma NumbersDoNotPanic(classes: Classes, buf: seq<Byte>, p: nat, strict: bool)
    requires p < |buf| && NumberStarts(buf, p)
    ensures !NumberAt(classes, buf, p, strict).Panic?
  {
    hide DecimalLexeme, RadixLexeme, LegacyOctalLexeme, FollowError;
  }

  lemma OtherTokensDoNotPanic(classes: Classes, buf: seq<Byte>, p: nat)
    requires p < |buf| && buf[p] >= 0x80
    ensures !OtherTokenAt(classes, buf, p).Panic?
  {
    hide NameRest, IdCharacter, Character;
  }

  /** No punctuator starts like a literal or a private name. */
  lemma PunctuatorStarts(buf: seq<Byte>, p: nat)
    requires p < |buf| && (IsQuote(buf[p]) || buf[p] == HASH || buf[p] == BACKTICK)
    ensures PunctuatorAt(buf, p).None? && !NumberStarts(buf, p)
  {
  }

  // The two paths on sources that are not canonical.

  /** A character adds the same bytes on both paths exactly if it is in range and not longer than it has to be. */
  lemma PathsAgree(buf: seq<Byte>, p: nat)
    requires p < |buf| && Character(buf, p).Ok?
    ensures
      var d := Wtf8.Step(buf[p..]);
      ReadCharacter(buf, p, true) == ReadCharacter(buf, p, false)
      <==> d.codePoint <= MAX_CODE_POINT && Wtf8.ByteCount(d.codePoint) == d.length
  {
    var rest := buf[p..];
    var next := Character(buf, p).value;
    assert rest[..next - p] == buf[p..next];
    if rest[0] >= 0x80 {
      Wtf8.DecodedIsCanonical(rest);
      hide Wtf8.Decode, Wtf8.Encode;
    } else {
      assert buf[p..next] == [buf[p]];
    }
  }

  /** Bytes that decode past the last code point are copied without an escape before them, and a panic after one. */
  lemma PathsDiffer()
    ensures
      var beyond := [0xF4, 0x90, 0x80, 0x80, DOUBLE_QUOTE];
      && StringAt([DOUBLE_QUOTE] + beyond, 0, false) == Ok(Lexed(StringLiteral(beyond[..4]), 6))
      && StringAt([DOUBLE_QUOTE, BACKSLASH, LINE_FEED] + beyond, 0, false) == Panic
  {
    var beyond := [0xF4, 0x90, 0x80, 0x80, DOUBLE_QUOTE];
    var s, t := [DOUBLE_QUOTE] + beyond, [DOUBLE_QUOTE, BACKSLASH, LINE_FEED] + beyond;
    BeyondIsRead(s, 1);
    BeyondIsRead(t, 3);
    assert StringRead(s, 5, DOUBLE_QUOTE, false, true) == Ok(Piece([], 6));
    assert s[1..5] + [] == beyond[..4];
    assert StringRead(s, 1, DOUBLE_QUOTE, false, true) == Ok(Piece(beyond[..4], 6));
    assert StringEscape(t, 1, false) == Ok(Piece([], 3));
    assert StringRead(t, 3, DOUBLE_QUOTE, false, false) == Panic;
    assert StringRead(t, 1, DOUBLE_QUOTE, false, true) == Panic;
  }

  lemma BeyondIsRead(buf: seq<Byte>, p: nat)
    requires p + 4 <= |buf| && buf[p] == 0xF4 && buf[p + 1] == 0x90 && buf[p + 2] == 0x80 && buf[p + 3] == 0x80
    ensures ReadCharacter(buf, p, true) == Ok(Piece(buf[p..p + 4], p + 4))
    ensures ReadCharacter(buf, p, false) == Panic
  {
  }

  // The shortest sources that panic.

  lemma ShortestPanics(classes: Classes)
    ensures StringAt([DOUBLE_QUOTE, BACKSLASH], 0, false) == Panic
    ensures TemplateAt([BACKTICK], 1, true) == Panic
    ensures PrivateNameAt(classes, [HASH], 0) == Panic
  {
    var s := [DOUBLE_QUOTE, BACKSLASH];
    assert StringEscape(s, 1, false) == Panic;
    assert StringRead(s, 1, DOUBLE_QUOTE, false, true) == Panic;
  }
}
