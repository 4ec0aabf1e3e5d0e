/** Identifier names in the source: letters, characters of the Unicode classes, and escapes for either. */
module Identifiers {
  import opened Numbers
  import opened Options
  import opened TextLiterals
  import opened Tokens
  import opened Unicode
  import Wtf8

  const HASH: Byte := 0x23

  /** The Unicode classes ID_Start and ID_Continue. */
  datatype Classes = Classes(start: CodePoint -> bool, part: CodePoint -> bool)

  predicate IsIdStartAscii(c: nat) {
    0x61 <= c <= 0x7A || 0x41 <= c <= 0x5A || c == 0x5F || c == DOLLAR
  }

  predicate IsIdPartAscii(c: nat) {
    IsIdStartAscii(c) || IsDecimalDigit(c)
  }

  predicate IsIdStartUnicode(classes: Classes, c: nat) {
    c <= MAX_CODE_POINT && classes.start(c)
  }

  predicate IsIdPartUnicode(classes: Classes, c: nat) {
    (c <= MAX_CODE_POINT && classes.part(c)) || c == 0x200C || c == 0x200D
  }

  predicate IsIdStart(classes: Classes, c: nat) {
    IsIdStartAscii(c) || IsIdStartUnicode(classes, c)
  }

  predicate IsIdPart(classes: Classes, c: nat) {
    IsIdPartAscii(c) || IsIdPartUnicode(classes, c)
  }

  /** The escape whose backslash is at `p`, as identifiers may have them. */
  function IdEscape(buf: seq<Byte>, p: nat): (r: Option<Escaped>)
    requires p < |buf|
    ensures r.Some? ==> p < r.value.next <= |buf| && r.value.codePoint <= MAX_CODE_POINT
  {
    if At(buf, p + 1) == LOWER_U then UnicodeEscape(buf, p + 2) else None
  }

  /** The character or escape at `p`. */
  function IdCharacter(buf: seq<Byte>, p: nat): (r: Option<Escaped>)
    requires p <= |buf|
    ensures r.Some? ==> p < r.value.next <= |buf|
  {
    if p == |buf| then None
    else if buf[p] == BACKSLASH then IdEscape(buf, p)
    else if Character(buf, p).Ok? then Some(Escaped(Wtf8.Step(buf[p..]).codePoint, Character(buf, p).value))
    else None
  }

  /** An ASCII character that stands for itself. */
  predicate IsAsciiAt(buf: seq<Byte>, p: nat) {
    At(buf, p) < 0x80 && At(buf, p) != BACKSLASH
  }

  /** Whether a name goes on; a plain one has nothing but ASCII so far, and looks every other character up as a part. */
  predicate GoesOn(classes: Classes, buf: seq<Byte>, p: nat, plain: bool)
    requires p <= |buf|
  {
    && IdCharacter(buf, p).Some?
    && var c := IdCharacter(buf, p).value.codePoint;
       if IsAsciiAt(buf, p) then IsIdPartAscii(c)
       else if plain || buf[p] == BACKSLASH then IsIdPart(classes, c)
       else IsIdPartUnicode(classes, c)
  }

  function CharacterText(buf: seq<Byte>, p: nat): seq<Byte>
    requires p <= |buf|
  {
    var c := IdCharacter(buf, p);
    if c.Some? && c.value.codePoint <= MAX_CODE_POINT then Wtf8.Encode(c.value.codePoint) else []
  }

  /** Where a name does not go on it ends, unless bytes there do not decode or an escape is out of place. */
  function NameStop(buf: seq<Byte>, p: nat, plain: bool): Outcome<Piece>
    requires p <= |buf|
  {
    if p == |buf| || IsAsciiAt(buf, p) then Ok(Piece([], p))
    else if buf[p] == BACKSLASH && IdEscape(buf, p).None? then Err(MalformedEscape)
    else if buf[p] == BACKSLASH && !plain then Err(UnknownToken)
    else if IdCharacter(buf, p).None? then Err(InvalidUnicode)
    else Ok(Piece([], p))
  }

  /** The rest of a name: its text with the escapes replaced, and where it ends. */
  function NameRest(classes: Classes, buf: seq<Byte>, p: nat, plain: bool): (r: Outcome<Piece>)
    requires p <= |buf|
    ensures !r.Panic? && (r.Ok? ==> p <= r.value.next <= |buf|)
    decreases |buf| - p
  {
    if GoesOn(classes, buf, p, plain)
    then Prepend(CharacterText(buf, p),
                 NameRest(classes, buf, IdCharacter(buf, p).value.next, plain && IsAsciiAt(buf, p)))
    else NameStop(buf, p, plain)
  }

  /** The name at `p`, or why there is none: `other` is the error for a character that starts no name. */
  function NameAt(classes: Classes, buf: seq<Byte>, p: nat, other: LexError): (r: Outcome<Piece>)
    requires p <= |buf|
    ensures r.Ok? ==> p < r.value.next <= |buf|
  {
    if p == |buf| then Panic
    else if IsIdStartAscii(buf[p]) then Prepend([buf[p]], NameRest(classes, buf, p + 1, true))
    else if buf[p] == BACKSLASH && IdEscape(buf, p).None? then Err(MalformedEscape)
    else if IsAsciiAt(buf, p) || IdCharacter(buf, p).None? then Err(InvalidUnicode)
    else if IsIdStart(classes, IdCharacter(buf, p).value.codePoint)
    then Prepend(CharacterText(buf, p), NameRest(classes, buf, IdCharacter(buf, p).value.next, false))
    else Err(other)
  }

  /** A private name: the hash belongs to it. */
  function PrivateNameAt(classes: Classes, buf: seq<Byte>, p: nat): (r: Outcome<Piece>)
    requires p < |buf|
    ensures r.Ok? ==> p + 1 < r.value.next <= |buf|
  {
    Prepend([HASH], NameAt(classes, buf, p + 1, HashNotFollowedByIdentifier))
  }

  // Steps of reading a name.

  /** An ASCII character is its own text. */
  lemma AsciiText(classes: Classes, buf: seq<Byte>, p: nat, plain: bool)
    requires p < |buf| && IsAsciiAt(buf, p)
    ensures GoesOn(classes, buf, p, plain) == IsIdPartAscii(buf[p])
    ensures IdCharacter(buf, p) == Some(Escaped(buf[p], p + 1)) && CharacterText(buf, p) == [buf[p]]
    ensures NameStop(buf, p, plain) == Ok(Piece([], p))
  {
  }

  /** What a scan of a name knows: the text read so far. */
  ghost predicate NameScan(
    classes: Classes, buf: seq<Byte>, name: Outcome<Piece>, p: nat, plain: bool, text: seq<Byte>)
  {
    p <= |buf| && name == Prepend(text, NameRest(classes, buf, p, plain))
  }

  lemma NameScanGoesOn(
    classes: Classes, buf: seq<Byte>, name: Outcome<Piece>, p: nat, plain: bool, text: seq<Byte>)
    requires NameScan(classes, buf, name, p, plain, text) && GoesOn(classes, buf, p, plain)
    ensures
      var c := IdCharacter(buf, p).value;
      && c.codePoint <= MAX_CODE_POINT && CharacterText(buf, p) == Wtf8.Encode(c.codePoint)
      && NameScan(classes, buf, name, c.next, plain && IsAsciiAt(buf, p), text + CharacterText(buf, p))
  {
    var next := IdCharacter(buf, p).value.next;
    PrependTwice(text, CharacterText(buf, p), NameRest(classes, buf, next, plain && IsAsciiAt(buf, p)));
    hide IdCharacter, Wtf8.Encode;
  }

  lemma NameScanStops(
    classes: Classes, buf: seq<Byte>, name: Outcome<Piece>, p: nat, plain: bool, text: seq<Byte>)
    requires NameScan(classes, buf, name, p, plain, text) && !GoesOn(classes, buf, p, plain)
    ensures
      var stop := NameStop(buf, p, plain);
      name == if stop.Ok? then Ok(Piece(text, p)) else stop
  {
    hide IdCharacter, IdEscape;
    assert text + [] == text;
  }

  /** A character outside ASCII or an escape: whether a name goes on there. */
  lemma OtherGoesOn(classes: Classes, buf: seq<Byte>, p: nat, plain: bool)
    requires p <= |buf| && !IsAsciiAt(buf, p)
    ensures
      var c := IdCharacter(buf, p);
      && GoesOn(classes, buf, p, plain) ==
         (c.Some? && if plain || buf[p] == BACKSLASH then IsIdPart(classes, c.value.codePoint)
                     else IsIdPartUnicode(classes, c.value.codePoint))
      && NameStop(buf, p, plain) ==
         if p == |buf| then Ok(Piece([], p))
         else if c.None? then Err(if buf[p] == BACKSLASH then MalformedEscape else InvalidUnicode)
         else if buf[p] == BACKSLASH && !plain then Err(UnknownToken)
         else Ok(Piece([], p))
  {
    hide IdEscape;
  }

  /** After the first character, an ASCII one. */
  lemma NameScanStarts(classes: Classes, buf: seq<Byte>, start: nat, p: nat, other: LexError)
    requires start <= p < |buf| && IsIdStartAscii(buf[p])
    ensures
      var name := Prepend(buf[start..p], NameAt(classes, buf, p, other));
      NameScan(classes, buf, name, p + 1, true, buf[start..p + 1])
  {
    hide NameRest;
    PrependTwice(buf[start..p], [buf[p]], NameRest(classes, buf, p + 1, true));
    SliceByOne(buf, start, p);
  }

  lemma StartDecides(classes: Classes, buf: seq<Byte>, p: nat)
    requires p < |buf| && IsIdStartAscii(buf[p])
    ensures forall e, f :: NameAt(classes, buf, p, e) == NameAt(classes, buf, p, f)
  {
    hide NameRest;
  }

  lemma PrependNothing(rest: Outcome<Piece>)
    ensures Prepend([], rest) == rest
  {
    if rest.Ok? { assert [] + rest.value.value == rest.value.value; }
  }

  /** A name that does not start with an ASCII character, alone or after a hash. */
  lemma NameAtCases(classes: Classes, buf: seq<Byte>, p: nat, other: LexError)
    requires p <= |buf| && !IsIdStartAscii(At(buf, p))
    ensures
      var name, c := NameAt(classes, buf, p, other), IdCharacter(buf, p);
      if p == |buf| then name == Panic
      else if IsAsciiAt(buf, p) then name == Err(InvalidUnicode)
      else if c.None? then name == Err(if buf[p] == BACKSLASH then MalformedEscape else InvalidUnicode)
      else if !IsIdStart(classes, c.value.codePoint) then name == Err(other)
      else
        && c.value.codePoint <= MAX_CODE_POINT
        && NameScan(classes, buf, name, c.value.next, false, Wtf8.Encode(c.value.codePoint))
        && NameScan(classes, buf, Prepend([HASH], name), c.value.next, false, [HASH] + Wtf8.Encode(c.value.codePoint))
  {
    hide NameRest, Wtf8.Encode, IdEscape;
    var c := IdCharacter(buf, p);
    if c.Some? && c.value.codePoint <= MAX_CODE_POINT {
      PrependTwice([HASH], Wtf8.Encode(c.value.codePoint), NameRest(classes, buf, c.value.next, false));
    }
  }

  // What names are.

  /** Where a name stops, and what decides there: it is plain as long as nothing but ASCII was read. */
  lemma {:induction false} NameStopsAt(classes: Classes, buf: seq<Byte>, p: nat, plain: bool)
    returns (q: nat, stillPlain: bool, text: seq<Byte>)
    requires p <= |buf|
    ensures p <= q <= |buf| && !GoesOn(classes, buf, q, stillPlain)
    ensures stillPlain <==> plain && forall i | p <= i < q :: IsAsciiAt(buf, i)
    ensures NameRest(classes, buf, p, plain) == Prepend(text, NameStop(buf, q, stillPlain))
    decreases |buf| - p
  {
    hide IdCharacter, CharacterText, NameStop;
    if GoesOn(classes, buf, p, plain) {
      var next := IdCharacter(buf, p).value.next;
      if IsAsciiAt(buf, p) { AsciiText(classes, buf, p, plain); }
      q, stillPlain, text := NameStopsAt(classes, buf, next, plain && IsAsciiAt(buf, p));
      PrependTwice(CharacterText(buf, p), text, NameStop(buf, q, stillPlain));
      text := CharacterText(buf, p) + text;
    } else {
      q, stillPlain, text := p, plain, [];
      var stop := NameStop(buf, p, plain);
      if stop.Ok? { assert [] + stop.value.value == stop.value.value; }
    }
  }

  /** The text of a name reads as code points and encodes back, whatever the source is. */
  lemma {:induction false} NameIsText(classes: Classes, buf: seq<Byte>, p: nat, plain: bool)
    requires p <= |buf| && NameRest(classes, buf, p, plain).Ok?
    ensures Wtf8.Canonical(NameRest(classes, buf, p, plain).value.value)
    decreases |buf| - p
  {
    hide Wtf8.Canonical, Wtf8.Encode, IdCharacter, IdEscape;
    EmptyIsText();
    if GoesOn(classes, buf, p, plain) {
      var next := IdCharacter(buf, p).value.next;
      NameIsText(classes, buf, next, plain && IsAsciiAt(buf, p));
      Wtf8.CanonicalCodePoint(IdCharacter(buf, p).value.codePoint);
      Wtf8.CanonicalConcat(
        CharacterText(buf, p), NameRest(classes, buf, next, plain && IsAsciiAt(buf, p)).value.value);
    }
  }

  lemma {:induction false} PlainNameIsSlice(classes: Classes, buf: seq<Byte>, p: nat, plain: bool)
    requires p <= |buf| && Wtf8.Canonical(buf[p..]) && NameRest(classes, buf, p, plain).Ok?
    requires forall i | p <= i < NameRest(classes, buf, p, plain).value.next :: buf[i] != BACKSLASH
    ensures
      var name := NameRest(classes, buf, p, plain).value;
      name.value == buf[p..name.next]
    decreases |buf| - p
  {
    hide Wtf8.Canonical, IdCharacter, CharacterText;
    var name := NameRest(classes, buf, p, plain).value;
    if GoesOn(classes, buf, p, plain) {
      CharacterIsSlice(buf, p);
      var next := IdCharacter(buf, p).value.next;
      hide GoesOn;
      PlainNameIsSlice(classes, buf, next, plain && IsAsciiAt(buf, p));
      SliceExtends(buf, p, next, name.next);
    }
  }

  /** In a canonical source a name without escapes is a slice of it. */
  lemma NameIsSlice(classes: Classes, buf: seq<Byte>, p: nat, plain: bool)
    requires p <= |buf| && Wtf8.Canonical(buf[p..]) && NameRest(classes, buf, p, plain).Ok?
    requires BACKSLASH !in buf[p..NameRest(classes, buf, p, plain).value.next]
    ensures
      var name := NameRest(classes, buf, p, plain).value;
      name.value == buf[p..name.next]
  {
    hide Wtf8.Canonical, NameRest;
    var end := NameRest(classes, buf, p, plain).value.next;
    assert forall i | p <= i < end :: buf[i] == buf[p..end][i - p];
    PlainNameIsSlice(classes, buf, p, plain);
  }

  lemma CharacterIsSlice(buf: seq<Byte>, p: nat)
    requires p < |buf| && Wtf8.Canonical(buf[p..]) && buf[p] != BACKSLASH
    ensures IdCharacter(buf, p).Some?
    ensures
      var next := IdCharacter(buf, p).value.next;
      CharacterText(buf, p) == buf[p..next] && Wtf8.Canonical(buf[next..])
  {
    CanonicalCharacter(buf, p);
    hide Wtf8.Step, Wtf8.Encode, Wtf8.Canonical;
  }

  /** The rest of a name fails only at an escape or at bytes that do not decode. */
  lemma {:induction false} RestFails(classes: Classes, buf: seq<Byte>, p: nat, plain: bool)
    requires p <= |buf| && NameRest(classes, buf, p, plain).Err?
    ensures NameRest(classes, buf, p, plain).error in [MalformedEscape, UnknownToken, InvalidUnicode]
    decreases |buf| - p
  {
    hide IdCharacter, IdEscape, CharacterText;
    if GoesOn(classes, buf, p, plain) {
      RestFails(classes, buf, IdCharacter(buf, p).value.next, plain && IsAsciiAt(buf, p));
    }
  }

  /**
    A hash without a name. At the end of input it is a panic. Only before an escape or a character outside
    ASCII is it reported as what it is; before another ASCII character it is invalid Unicode.
   */
  lemma HashAlone(classes: Classes, buf: seq<Byte>, p: nat)
    requires p < |buf|
    ensures PrivateNameAt(classes, buf, p).Panic? <==> p + 1 == |buf|
    ensures
      var c := IdCharacter(buf, p + 1);
      PrivateNameAt(classes, buf, p) == Err(HashNotFollowedByIdentifier)
      <==> c.Some? && !IsAsciiAt(buf, p + 1) && !IsIdStart(classes, c.value.codePoint)
    ensures p + 1 < |buf| && !IsStartAt(classes, buf, p + 1) ==>
      (PrivateNameAt(classes, buf, p) == Err(InvalidUnicode)
       <==> IsAsciiAt(buf, p + 1) || (buf[p + 1] != BACKSLASH && IdCharacter(buf, p + 1).None?))
  {
    hide NameRest, IdEscape, CharacterText, Wtf8.Step;
    if p + 1 < |buf| {
      var c := IdCharacter(buf, p + 1);
      if IsAsciiAt(buf, p + 1) { AsciiText(classes, buf, p + 1, true); }
      if IsIdStartAscii(buf[p + 1]) {
        if NameRest(classes, buf, p + 2, true).Err? { RestFails(classes, buf, p + 2, true); }
      } else if c.Some? && NameRest(classes, buf, c.value.next, false).Err? {
        RestFails(classes, buf, c.value.next, false);
      }
    }
  }

  /** Whether a name starts at a position: outside escapes an ASCII character is looked up as such. */
  predicate IsStartAt(classes: Classes, buf: seq<Byte>, p: nat)
    requires p <= |buf|
  {
    var c := IdCharacter(buf, p);
    c.Some? && if IsAsciiAt(buf, p) then IsIdStartAscii(c.value.codePoint) else IsIdStart(classes, c.value.codePoint)
  }
}
