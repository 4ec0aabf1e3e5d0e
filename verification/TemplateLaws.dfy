/** Laws of template literals, and the steps of reading them. */
module TemplateLaws {
  import opened Numbers
  import opened Options
  import opened TextLiterals
  import opened Tokens
  import opened Unicode
  import Wtf8

  predicate IsPlain(b: Byte) {
    b != BACKSLASH && b != CARRIAGE_RETURN
  }

  // Line ends.

  lemma {:induction false} NormalizedPlain(s: seq<Byte>, t: seq<Byte>)
    requires CARRIAGE_RETURN !in s
    ensures Normalized(s + t) == s + Normalized(t)
  {
    if s == [] {
      assert s + t == t;
    } else {
      assert (s + t)[1..] == s[1..] + t;
      NormalizedPlain(s[1..], t);
    }
  }

  ghost predicate NoReturn(buf: seq<Byte>, from: nat, to: nat) {
    from <= to <= |buf| && forall i | from <= i < to :: buf[i] != CARRIAGE_RETURN
  }

  lemma NoReturnStarts(buf: seq<Byte>, p: nat)
    requires p <= |buf|
    ensures NoReturn(buf, p, p) && buf[p..p] == []
  {
  }

  lemma NoReturnInCharacter(buf: seq<Byte>, from: nat, p: nat, q: nat)
    requires NoReturn(buf, from, p) && p < q <= |buf| && buf[p] != CARRIAGE_RETURN
    requires forall i | p < i < q :: buf[i] >= 0x80
    ensures NoReturn(buf, from, q)
  {
  }

  lemma NoReturnInEscape(buf: seq<Byte>, from: nat, p: nat, q: nat)
    requires NoReturn(buf, from, p) && ReturnIsEscaped(buf, p, q) && At(buf, p + 1) != CARRIAGE_RETURN
    ensures NoReturn(buf, from, q)
  {
  }

  lemma NormalizedSlice(buf: seq<Byte>, from: nat, to: nat)
    requires NoReturn(buf, from, to)
    ensures Normalized(buf[from..to]) == buf[from..to]
  {
    NormalizedKeeps(buf[from..to]);
  }

  lemma NormalizedKeeps(s: seq<Byte>)
    requires CARRIAGE_RETURN !in s
    ensures Normalized(s) == s
  {
    NormalizedPlain(s, []);
    assert s + [] == s;
  }

  /** Normalized text has no carriage return, and normalizing it again changes nothing. */
  lemma {:induction false} NormalizedOnce(s: seq<Byte>)
    ensures CARRIAGE_RETURN !in Normalized(s) && Normalized(Normalized(s)) == Normalized(s)
  {
    if s != [] {
      NormalizedOnce(if s[0] == CARRIAGE_RETURN && |s| > 1 && s[1] == LINE_FEED then s[2..] else s[1..]);
    }
    NormalizedKeeps(Normalized(s));
  }

  lemma LineEndFirst(rest: seq<Byte>)
    ensures Normalized([0x0D, 0x0A] + rest) == [0x0A] + Normalized(rest)
    ensures rest == [] || rest[0] != 0x0A ==> Normalized([0x0D] + rest) == [0x0A] + Normalized(rest)
  {
    assert ([0x0D, 0x0A] + rest)[2..] == rest && ([0x0D] + rest)[1..] == rest;
  }

  /** Each line end becomes one line feed, and other text is kept. */
  lemma LineEndsNormalized(text: seq<Byte>, rest: seq<Byte>)
    requires 0x0D !in text
    ensures Normalized(text) == text
    ensures Normalized(text + ([0x0D, 0x0A] + rest)) == text + ([0x0A] + Normalized(rest))
    ensures rest == [] || rest[0] != 0x0A ==> Normalized(text + ([0x0D] + rest)) == text + ([0x0A] + Normalized(rest))
  {
    NormalizedKeeps(text);
    LineEndFirst(rest);
    NormalizedPlain(text, [0x0D, 0x0A] + rest);
    NormalizedPlain(text, [0x0D] + rest);
    hide Normalized;
  }

  method FindReturn(raw: seq<Byte>, from: nat) returns (to: nat)
    requires from <= |raw|
    ensures from <= to <= |raw| && CARRIAGE_RETURN !in raw[from..to] && (to < |raw| ==> raw[to] == CARRIAGE_RETURN)
  {
    to := from;
    while to < |raw| && raw[to] != CARRIAGE_RETURN
      invariant from <= to <= |raw| && CARRIAGE_RETURN !in raw[from..to]
    {
      to := to + 1;
    }
  }

  /** The rewrite of a text: split on carriage returns, and join the pieces with line feeds. */
  method NormalizeBySplitting(raw: seq<Byte>) returns (newRaw: seq<Byte>)
    ensures newRaw == Normalized(raw)
  {
    hide Normalized, Joined;
    newRaw := [];
    var i, from, to := 0, 0, 0;
    ghost var rest := Normalized(raw);
    assert raw[0..] == raw && newRaw + rest == rest;
    while true
      invariant from <= |raw| && (i == 0 ==> from == 0) && (i != 0 ==> from > 0 && raw[from - 1] == CARRIAGE_RETURN)
      invariant Normalized(raw) == newRaw + rest
      invariant rest == Normalized(raw[if i == 0 then 0 else from - 1..])
      decreases |raw| - from
    {
      to := FindReturn(raw, from);
      SplitPiece(raw, i, from, to);
      var slice := Joined(i, raw[from..to]);
      rest := Normalized(raw[to..]);
      Associative(newRaw, slice, rest);
      newRaw := newRaw + slice;
      if to == |raw| {
        assert raw[to..] == [];
        break;
      }
      i, from := i + 1, to + 1;
    }
    assert newRaw + [] == newRaw;
  }

  /** What a piece adds: all but the first stand after a carriage return and lose the line feed of a pair. */
  function Joined(i: nat, slice: seq<Byte>): seq<Byte> {
    if i == 0 then slice
    else [LINE_FEED] + if slice != [] && slice[0] == LINE_FEED then slice[1..] else slice
  }

  lemma Associative(a: seq<Byte>, b: seq<Byte>, c: seq<Byte>)
    ensures a + (b + c) == (a + b) + c
  {
  }

  lemma SplitPiece(raw: seq<Byte>, i: nat, from: nat, to: nat)
    requires from <= to <= |raw| && CARRIAGE_RETURN !in raw[from..to] && (i == 0 ==> from == 0)
    requires to < |raw| ==> raw[to] == CARRIAGE_RETURN
    requires i != 0 ==> from > 0 && raw[from - 1] == CARRIAGE_RETURN
    ensures Normalized(raw[if i == 0 then 0 else from - 1..]) == Joined(i, raw[from..to]) + Normalized(raw[to..])
    ensures Normalized([]) == []
  {
    var slice, rest := raw[from..to], raw[to..];
    if i == 0 {
      NormalizedPlain(slice, rest);
      assert raw[0..] == slice + rest;
    } else {
      var dropped := if slice != [] && slice[0] == LINE_FEED then slice[1..] else slice;
      NormalizedPlain(dropped, rest);
      LineFeedOfPair(raw, from, to);
      hide Normalized;
      Associative([LINE_FEED], dropped, Normalized(rest));
    }
  }

  lemma LineFeedOfPair(raw: seq<Byte>, from: nat, to: nat)
    requires 0 < from <= to <= |raw| && CARRIAGE_RETURN !in raw[from..to] && raw[from - 1] == CARRIAGE_RETURN
    requires to < |raw| ==> raw[to] == CARRIAGE_RETURN
    ensures
      var slice := raw[from..to];
      Normalized(raw[from - 1..])
      == [LINE_FEED] + Normalized((if slice != [] && slice[0] == LINE_FEED then slice[1..] else slice) + raw[to..])
  {
    var s, slice := raw[from - 1..], raw[from..to];
    assert |s| > 1 ==> s[1] == raw[from];
    if slice != [] && slice[0] == LINE_FEED {
      assert s[2..] == slice[1..] + raw[to..];
    } else {
      assert s[1..] == slice + raw[to..];
    }
  }

  // The end of the text.

  lemma {:induction false} EndSkips(buf: seq<Byte>, from: nat, to: nat)
    requires from <= to <= |buf|
    requires forall i | from <= i < to :: buf[i] < 0x80 && buf[i] !in [BACKTICK, DOLLAR, BACKSLASH]
    ensures EndOfTemplate(buf, from) == EndOfTemplate(buf, to)
    decreases |buf| - from
  {
    if from < to {
      EndSkips(buf, from + 1, to);
      assert Character(buf, from) == Ok(from + 1);
    }
  }

  /** Behind the character after the backslash, an escape has nothing that could end the text. */
  lemma EscapeBytes(buf: seq<Byte>, p: nat)
    requires p < |buf| && buf[p] == BACKSLASH && At(buf, p + 1) < 0x80 && TemplateEscape(buf, p).Ok?
    ensures
      var next := TemplateEscape(buf, p).value.next;
      p + 2 <= next && forall i | p + 2 <= i < next :: buf[i] < 0x80 && buf[i] !in [BACKTICK, DOLLAR, BACKSLASH]
  {
    hide UnicodeEscape, HexEscape, Wtf8.Encode;
    var c := At(buf, p + 1);
    if c == LOWER_U { UnicodeEscapeIsAscii(buf, p + 2); }
    if c == LOWER_X { HexEscapeIsAscii(buf, p + 2); }
  }

  /** What an escape is when no ASCII character follows the backslash. */
  lemma EscapeOfOther(buf: seq<Byte>, p: nat)
    requires p < |buf| && buf[p] == BACKSLASH && At(buf, p + 1) >= 0x80
    ensures match Character(buf, p + 1)
      case Ok(next) => TemplateEscape(buf, p).Ok? && TemplateEscape(buf, p).value.next == next
      case Err(error) => TemplateEscape(buf, p) == Err(error) && error == InvalidUnicode
      case Panic => TemplateEscape(buf, p) == Panic
  {
    hide UnicodeEscape, HexEscape, Wtf8.Step;
  }

  lemma EscapeOfAscii(buf: seq<Byte>, p: nat)
    requires p < |buf| && buf[p] == BACKSLASH && At(buf, p + 1) < 0x80
    ensures Character(buf, p + 1) == Ok(p + 2)
    ensures TemplateEscape(buf, p).Ok? || TemplateEscape(buf, p) == Err(MalformedEscape)
  {
    hide UnicodeEscape, HexEscape;
  }

  /** An escape does not end the text. */
  lemma EndAfterEscape(buf: seq<Byte>, p: nat)
    requires p < |buf| && buf[p] == BACKSLASH
    ensures match TemplateEscape(buf, p)
      case Ok(piece) => EndOfTemplate(buf, p) == EndOfTemplate(buf, piece.next)
      case Err(error) =>
        if error == MalformedEscape then p + 2 <= |buf| && EndOfTemplate(buf, p) == EndOfTemplate(buf, p + 2)
        else EndOfTemplate(buf, p) == Err(error)
      case Panic => EndOfTemplate(buf, p) == Panic
  {
    hide TemplateEscape, Character;
    if At(buf, p + 1) < 0x80 {
      EscapeOfAscii(buf, p);
      if TemplateEscape(buf, p).Ok? {
        EscapeBytes(buf, p);
        EndSkips(buf, p + 2, TemplateEscape(buf, p).value.next);
      }
    } else {
      EscapeOfOther(buf, p);
    }
  }

  /** A character that is not special is part of the text. */
  lemma EndAfterCharacter(buf: seq<Byte>, p: nat)
    requires p < |buf| && buf[p] !in [BACKTICK, BACKSLASH] && !(buf[p] == DOLLAR && At(buf, p + 1) == LEFT_BRACE)
    ensures match Character(buf, p)
      case Ok(next) => EndOfTemplate(buf, p) == EndOfTemplate(buf, next)
      case Err(error) => EndOfTemplate(buf, p) == Err(error)
      case Panic => EndOfTemplate(buf, p) == Panic
  {
  }

  // The cooked text.

  lemma {:induction false} CookedPlain(buf: seq<Byte>, from: nat, to: nat, end: nat)
    requires from <= to <= end < |buf| && forall i | from <= i < to :: IsPlain(buf[i])
    ensures Cooked(buf, from, end) == PrependText(buf[from..to], Cooked(buf, to, end))
    decreases |buf| - from
  {
    var rest := Cooked(buf, to, end);
    if from < to {
      CookedPlain(buf, from + 1, to, end);
      PrependTextTwice([buf[from]], buf[from + 1..to], rest);
      assert [buf[from]] + buf[from + 1..to] == buf[from..to];
    } else if rest.Some? {
      assert buf[from..to] + rest.value == rest.value;
    }
  }

  /** Without escapes the cooked text is the raw text. */
  lemma {:induction false} CookedWithoutEscapes(buf: seq<Byte>, p: nat, end: nat)
    requires p <= end < |buf| && buf[end] != LINE_FEED && forall i | p <= i < end :: buf[i] != BACKSLASH
    ensures Cooked(buf, p, end) == Some(Normalized(buf[p..end]))
    decreases |buf| - p
  {
    if p < end {
      var next := if buf[p] == CARRIAGE_RETURN && buf[p + 1] == LINE_FEED then p + 2 else p + 1;
      CookedWithoutEscapes(buf, next, end);
      assert buf[p..end][next - p..] == buf[next..end];
    }
  }

  /** The backslashes that start an escape: those that no other such backslash precedes directly. */
  function EscapeStarts(buf: seq<Byte>, p: nat, end: nat): seq<nat>
    requires end < |buf|
    decreases |buf| - p
  {
    if p >= end then []
    else if buf[p] == BACKSLASH then [p] + EscapeStarts(buf, p + 2, end)
    else EscapeStarts(buf, p + 1, end)
  }

  /** There is no cooked text exactly when some escape is malformed. */
  lemma {:induction false} CookedIsAbsent(buf: seq<Byte>, p: nat, end: nat)
    requires end < |buf| && EscapesDecode(buf, p, end)
    ensures Cooked(buf, p, end).None? <==>
      exists i | 0 <= i < |EscapeStarts(buf, p, end)| :: IsMalformed(buf, EscapeStarts(buf, p, end)[i])
    decreases |buf| - p
  {
    if p < end {
      var starts := EscapeStarts(buf, p, end);
      if buf[p] == BACKSLASH {
        if IsMalformed(buf, p) {
          assert starts[0] == p;
        } else {
          var next := TemplateEscape(buf, p).value.next;
          EscapeStartsSkip(buf, p, end);
          CookedIsAbsent(buf, next, end);
          var rest := EscapeStarts(buf, p + 2, end);
          assert forall i | 0 <= i < |rest| :: starts[i + 1] == rest[i];
        }
      } else {
        var next := if buf[p] == CARRIAGE_RETURN && At(buf, p + 1) == LINE_FEED then p + 2 else p + 1;
        CookedIsAbsent(buf, next, end);
        assert EscapeStarts(buf, p, end) == EscapeStarts(buf, next, end);
      }
    }
  }

  predicate IsMalformed(buf: seq<Byte>, p: nat) {
    p < |buf| && TemplateEscape(buf, p) == Err(MalformedEscape)
  }

  /** No escape is followed by bytes that do not decode. */
  ghost predicate EscapesDecode(buf: seq<Byte>, p: nat, end: nat)
    requires end < |buf|
  {
    forall i | p <= i < end && buf[i] == BACKSLASH :: TemplateEscape(buf, i).Ok? || IsMalformed(buf, i)
  }

  /** What belongs to an escape besides its first character starts no other escape. */
  lemma EscapeStartsSkip(buf: seq<Byte>, p: nat, end: nat)
    requires p < end < |buf| && buf[p] == BACKSLASH && TemplateEscape(buf, p).Ok?
    ensures EscapeStarts(buf, TemplateEscape(buf, p).value.next, end) == EscapeStarts(buf, p + 2, end)
  {
    hide TemplateEscape, EscapeStarts, Character;
    if At(buf, p + 1) < 0x80 {
      EscapeBytes(buf, p);
    } else {
      EscapeOfOther(buf, p);
      CharacterBytes(buf, p + 1);
    }
    StartsSkip(buf, p + 2, TemplateEscape(buf, p).value.next, end);
  }

  lemma {:induction false} StartsSkip(buf: seq<Byte>, from: nat, to: nat, end: nat)
    requires from <= to <= |buf| && end < |buf| && forall i | from <= i < to :: buf[i] != BACKSLASH
    ensures EscapeStarts(buf, from, end) == EscapeStarts(buf, to, end)
    decreases |buf| - from
  {
    if from < to { StartsSkip(buf, from + 1, to, end); }
  }

  lemma CharacterBytes(buf: seq<Byte>, p: nat)
    requires p < |buf| && Character(buf, p).Ok?
    ensures forall i | p < i < Character(buf, p).value :: buf[i] >= 0x80
    ensures buf[p] < 0x80 ==> Character(buf, p).value == p + 1
  {
    DecodedBytes(buf, p);
  }

  lemma {:induction false} CanonicalEscapesDecode(buf: seq<Byte>, p: nat, end: nat)
    requires p <= end < |buf| && Wtf8.Canonical(buf[p..])
    ensures EscapesDecode(buf, p, end)
    decreases |buf| - p
  {
    hide Wtf8.Step, Wtf8.Canonical, Wtf8.Encode, TemplateEscape, Character, IsMalformed;
    if p < end {
      CanonicalCharacter(buf, p);
      CharacterBytes(buf, p);
      var next := Character(buf, p).value;
      if buf[p] == BACKSLASH { EscapeDecodes(buf, p); }
      if next <= end { CanonicalEscapesDecode(buf, next, end); }
    }
  }

  lemma EscapeDecodes(buf: seq<Byte>, p: nat)
    requires p + 1 < |buf| && buf[p] == BACKSLASH && Wtf8.Canonical(buf[p..])
    ensures TemplateEscape(buf, p).Ok? || IsMalformed(buf, p)
  {
    hide Wtf8.Step, Wtf8.Canonical, Wtf8.Encode, TemplateEscape, Character;
    if buf[p + 1] < 0x80 {
      EscapeOfAscii(buf, p);
    } else {
      CanonicalAscii(buf, p, p + 1);
      CanonicalCharacter(buf, p + 1);
      EscapeOfOther(buf, p);
    }
  }

  /** The meaning of a template part in a canonical source. */
  lemma TemplateMeaning(buf: seq<Byte>, p: nat)
    requires p <= |buf| && Wtf8.Canonical(buf[p..]) && EndOfTemplate(buf, p).Ok?
    ensures
      var end := EndOfTemplate(buf, p).value.rawEnd;
      var starts := EscapeStarts(buf, p, end);
      && (Cooked(buf, p, end).None? <==> exists i | 0 <= i < |starts| :: IsMalformed(buf, starts[i]))
      && (BACKSLASH !in buf[p..end] ==> Cooked(buf, p, end) == Some(Normalized(buf[p..end])))
  {
    var end := EndOfTemplate(buf, p).value.rawEnd;
    CanonicalEscapesDecode(buf, p, end);
    CookedIsAbsent(buf, p, end);
    if BACKSLASH !in buf[p..end] {
      assert forall i | p <= i < end :: buf[i] == buf[p..end][i - p];
      CookedWithoutEscapes(buf, p, end);
    }
  }

  /** One step towards the end: a character that is no terminator, or any character after a backslash. */
  lemma EndStep(buf: seq<Byte>, p: nat) returns (next: nat)
    requires p <= |buf| && EndOfTemplate(buf, p).Ok? && p < EndOfTemplate(buf, p).value.rawEnd
    ensures p < next <= |buf| && EndOfTemplate(buf, next) == EndOfTemplate(buf, p) && !IsTerminator(buf, p)
    ensures
      var first := if buf[p] == BACKSLASH then p + 1 else p;
      first < next && forall i | first < i < next :: buf[i] >= 0x80
  {
    var first := if buf[p] == BACKSLASH then p + 1 else p;
    next := Character(buf, first).value;
    CharacterBytes(buf, first);
    hide Character;
  }

  lemma StartsStep(buf: seq<Byte>, p: nat, next: nat, end: nat)
    requires p < end < |buf| && p < next <= |buf|
    requires
      var first := if buf[p] == BACKSLASH then p + 1 else p;
      first < next && forall i | first < i < next :: buf[i] != BACKSLASH
    ensures
      EscapeStarts(buf, p, end) == (if buf[p] == BACKSLASH then [p] else []) + EscapeStarts(buf, next, end)
  {
    StartsSkip(buf, if buf[p] == BACKSLASH then p + 2 else p + 1, next, end);
  }

  /** The text ends at the first terminator that is not escaped. */
  lemma {:induction false} EndIsFirst(buf: seq<Byte>, p: nat, i: nat)
    requires p <= |buf| && EndOfTemplate(buf, p).Ok?
    ensures
      var end := EndOfTemplate(buf, p).value.rawEnd;
      && IsTerminator(buf, end)
      && (p <= i < end && IsTerminator(buf, i) ==> i > 0 && i - 1 in EscapeStarts(buf, p, end))
    decreases |buf| - p
  {
    hide EndOfTemplate, EscapeStarts;
    var end := EndOfTemplate(buf, p).value.rawEnd;
    if p < end {
      var next := EndStep(buf, p);
      EndIsFirst(buf, next, i);
      StartsStep(buf, p, next, end);
    }
  }

  // What the lexer reads.

  /** The cooked text, unless an escape is malformed, and the end of the raw text. */
  datatype TemplateText = TemplateText(cooked: Option<seq<Byte>>, end: TemplateEnd)

  function PrependCooked(value: seq<Byte>, rest: Outcome<TemplateText>): Outcome<TemplateText> {
    if rest.Ok? then Ok(rest.value.(cooked := PrependText(value, rest.value.cooked))) else rest
  }

  function WithoutCooked(rest: Outcome<TemplateText>): Outcome<TemplateText> {
    if rest.Ok? then Ok(rest.value.(cooked := None)) else rest
  }

  predicate IsTerminator(buf: seq<Byte>, p: nat) {
    At(buf, p) == BACKTICK || (At(buf, p) == DOLLAR && At(buf, p + 1) == LEFT_BRACE)
  }

  /** The text that is read from `p` on, on whatever source. */
  function TemplateRead(buf: seq<Byte>, p: nat, sliced: bool): (r: Outcome<TemplateText>)
    requires p <= |buf|
    ensures r.Ok? ==> p <= r.value.end.rawEnd < |buf| && IsTerminator(buf, r.value.end.rawEnd)
    ensures r.Ok? ==> r.value.end.isTail == (buf[r.value.end.rawEnd] == BACKTICK)
    decreases |buf| - p
  {
    if IsTerminator(buf, p) then Ok(TemplateText(Some([]), TemplateEnd(p, buf[p] == BACKTICK)))
    else if At(buf, p) == BACKSLASH then
      var piece := ReadEscape(buf, p, TemplateEscape(buf, p));
      (match piece
       case Ok(piece) => PrependCooked(piece.value, TemplateRead(buf, piece.next, false))
       case Err(error) =>
         if error != MalformedEscape then Err(error)
         else
           ReadMalformed(buf, p);
           WithoutCooked(TemplateRead(buf, p + 2, false))
       case Panic => Panic)
    else if At(buf, p) == CARRIAGE_RETURN then PrependCooked([LINE_FEED], TemplateRead(buf, AfterReturn(buf, p), false))
    else
      (match ReadCharacter(buf, p, sliced)
       case Ok(piece) => PrependCooked(piece.value, TemplateRead(buf, piece.next, sliced))
       case Err(error) => Err(error)
       case Panic => Panic)
  }

  /** The template part whose text starts at `rawStart`. */
  function TemplateAt(buf: seq<Byte>, rawStart: nat, isHead: bool): (r: Outcome<Lexed>)
    requires rawStart <= |buf|
    ensures r.Ok? ==> r.value.token.TemplatePart? && rawStart < r.value.end <= |buf|
  {
    match TemplateRead(buf, rawStart, true)
    case Ok(text) =>
      var raw := Normalized(buf[rawStart..text.end.rawEnd]);
      var token := TemplatePart(raw, text.cooked, isHead, text.end.isTail);
      Ok(Lexed(token, text.end.rawEnd + if text.end.isTail then 1 else 2))
    case Err(error) => Err(error)
    case Panic => Panic
  }

  lemma MalformedIsAscii(buf: seq<Byte>, p: nat)
    requires p < |buf| && buf[p] == BACKSLASH && TemplateEscape(buf, p) == Err(MalformedEscape)
    ensures At(buf, p + 1) < 0x80
  {
    if At(buf, p + 1) >= 0x80 { EscapeOfOther(buf, p); }
    hide TemplateEscape;
  }

  /** A malformed escape has an ASCII character after its backslash. */
  lemma ReadMalformed(buf: seq<Byte>, p: nat)
    requires p < |buf| && buf[p] == BACKSLASH
    requires ReadEscape(buf, p, TemplateEscape(buf, p)) == Err(MalformedEscape)
    ensures p + 2 <= |buf| && At(buf, p + 1) < 0x80 && TemplateEscape(buf, p) == Err(MalformedEscape)
  {
    if At(buf, p + 1) >= 0x80 {
      EscapeOfOther(buf, p);
    } else {
      EscapedSame(buf, p, TemplateEscape(buf, p));
    }
    hide TemplateEscape, Wtf8.Step, Wtf8.Encode;
  }

  lemma EscapeBytesAreAscii(buf: seq<Byte>, from: nat, to: nat)
    requires to <= |buf| && forall i | from <= i < to :: IsEscapeByte(buf[i])
    ensures forall i | from <= i < to :: buf[i] < 0x80 && buf[i] !in [BACKTICK, DOLLAR, BACKSLASH]
  {
  }

  // Steps of reading a template.

  lemma PrependCookedTwice(a: seq<Byte>, b: seq<Byte>, rest: Outcome<TemplateText>)
    ensures PrependCooked(a, PrependCooked(b, rest)) == PrependCooked(a + b, rest)
    ensures WithoutCooked(PrependCooked(b, rest)) == WithoutCooked(rest)
    ensures PrependCooked(a, WithoutCooked(rest)) == WithoutCooked(rest) == WithoutCooked(WithoutCooked(rest))
  {
    if rest.Ok? { PrependTextTwice(a, b, rest.value.cooked); }
  }

  lemma PrependNoText(rest: Outcome<TemplateText>)
    ensures PrependCooked([], rest) == rest
  {
    if rest.Ok? && rest.value.cooked.Some? { assert [] + rest.value.cooked.value == rest.value.cooked.value; }
  }

  /** What a scan of a template knows: the text read so far, unless an escape was malformed. */
  ghost predicate TemplateScan(
    buf: seq<Byte>, whole: Outcome<TemplateText>, p: nat, sliced: bool, value: seq<Byte>, malformed: bool)
  {
    && p <= |buf|
    && var rest := TemplateRead(buf, p, sliced);
       whole == if malformed then WithoutCooked(rest) else PrependCooked(value, rest)
  }

  lemma ScanStarts(buf: seq<Byte>, p: nat)
    requires p <= |buf|
    ensures TemplateScan(buf, TemplateRead(buf, p, true), p, true, [], false)
  {
    hide TemplateRead;
    PrependNoText(TemplateRead(buf, p, true));
  }

  /** One character that is neither special nor a carriage return. */
  lemma ScanCharacter(
    buf: seq<Byte>, whole: Outcome<TemplateText>, p: nat, sliced: bool, value: seq<Byte>, malformed: bool)
    requires TemplateScan(buf, whole, p, sliced, value, malformed) && !IsTerminator(buf, p)
    requires At(buf, p) != BACKSLASH && At(buf, p) != CARRIAGE_RETURN
    ensures match ReadCharacter(buf, p, sliced)
      case Ok(piece) => TemplateScan(buf, whole, piece.next, sliced, value + piece.value, malformed)
      case Err(error) => whole == Err(error)
      case Panic => whole == Panic
  {
    hide ReadCharacter, ReadEscape, TemplateEscape, IsTerminator, PrependText;
    var piece := ReadCharacter(buf, p, sliced);
    if piece.Ok? {
      PrependCookedTwice(value, piece.value.value, TemplateRead(buf, piece.value.next, sliced));
    }
  }

  /** One more character of a slice of the source. */
  lemma ScanSlice(buf: seq<Byte>, whole: Outcome<TemplateText>, rawStart: nat, p: nat)
    requires rawStart <= p <= |buf| && TemplateScan(buf, whole, p, true, buf[rawStart..p], false)
    requires !IsTerminator(buf, p) && At(buf, p) != BACKSLASH && At(buf, p) != CARRIAGE_RETURN
    ensures match Character(buf, p)
      case Ok(next) => TemplateScan(buf, whole, next, true, buf[rawStart..next], false)
      case Err(error) => whole == Err(error)
      case Panic => whole == Panic
  {
    ScanCharacter(buf, whole, p, true, buf[rawStart..p], false);
    hide TemplateScan, Character, IsTerminator;
    if Character(buf, p).Ok? { SliceExtends(buf, rawStart, p, Character(buf, p).value); }
  }

  lemma ScanReturn(
    buf: seq<Byte>, whole: Outcome<TemplateText>, p: nat, sliced: bool, value: seq<Byte>, malformed: bool)
    requires TemplateScan(buf, whole, p, sliced, value, malformed) && At(buf, p) == CARRIAGE_RETURN
    ensures TemplateScan(buf, whole, AfterReturn(buf, p), false, value + [LINE_FEED], malformed)
    ensures TemplateScan(buf, whole, p, false, value, malformed)
  {
    hide ReadCharacter, ReadEscape, TemplateEscape, PrependText;
    PrependCookedTwice(value, [LINE_FEED], TemplateRead(buf, AfterReturn(buf, p), false));
  }

  /** An escape that is read, or that ends the scan. */
  lemma ScanEscape(
    buf: seq<Byte>, whole: Outcome<TemplateText>, p: nat, sliced: bool, value: seq<Byte>, malformed: bool)
    requires TemplateScan(buf, whole, p, sliced, value, malformed) && At(buf, p) == BACKSLASH
    ensures match ReadEscape(buf, p, TemplateEscape(buf, p))
      case Ok(piece) => TemplateScan(buf, whole, piece.next, false, value + piece.value, malformed)
      case Err(error) => error == MalformedEscape || whole == Err(error)
      case Panic => whole == Panic
    ensures TemplateScan(buf, whole, p, false, value, malformed)
  {
    hide ReadCharacter, ReadEscape, TemplateEscape, PrependText;
    var piece := ReadEscape(buf, p, TemplateEscape(buf, p));
    if piece.Ok? {
      PrependCookedTwice(value, piece.value.value, TemplateRead(buf, piece.value.next, false));
    }
  }

  /** A malformed escape that was read up to `q`: there is no cooked text any more. */
  lemma ScanMalformed(
    buf: seq<Byte>, whole: Outcome<TemplateText>, p: nat, q: nat, sliced: bool, value: seq<Byte>, malformed: bool)
    requires TemplateScan(buf, whole, p, sliced, value, malformed) && At(buf, p) == BACKSLASH
    requires ReadEscape(buf, p, TemplateEscape(buf, p)) == Err(MalformedEscape)
    requires IsEscapeTail(buf, p, q)
    ensures TemplateScan(buf, whole, q, false, value, true)
  {
    hide ReadCharacter, ReadEscape, TemplateEscape, PrependText;
    PrependCookedTwice(value, [], TemplateRead(buf, p + 2, false));
    EscapeBytesAreAscii(buf, p + 2, q);
    ReadSkips(buf, p + 2, q);
  }

  /** ASCII bytes that are not special change nothing but the cooked text. */
  lemma {:induction false} ReadSkips(buf: seq<Byte>, from: nat, to: nat)
    requires from <= to <= |buf|
    requires forall i | from <= i < to ::
      buf[i] < 0x80 && buf[i] !in [BACKTICK, DOLLAR, BACKSLASH, CARRIAGE_RETURN]
    ensures WithoutCooked(TemplateRead(buf, from, false)) == WithoutCooked(TemplateRead(buf, to, false))
    decreases |buf| - from
  {
    if from < to {
      assert ReadCharacter(buf, from, false) == Ok(Piece([buf[from]], from + 1));
      hide ReadCharacter, ReadEscape, TemplateEscape, PrependText;
      ReadSkips(buf, from + 1, to);
      PrependCookedTwice([], [buf[from]], TemplateRead(buf, from + 1, false));
    }
  }

  /** The scan is at the end of the text. */
  lemma ScanEnds(
    buf: seq<Byte>, whole: Outcome<TemplateText>, p: nat, sliced: bool, value: seq<Byte>, malformed: bool)
    requires TemplateScan(buf, whole, p, sliced, value, malformed) && p < |buf| && IsTerminator(buf, p)
    ensures whole == Ok(TemplateText(if malformed then None else Some(value), TemplateEnd(p, buf[p] == BACKTICK)))
  {
    hide ReadCharacter, ReadEscape, TemplateEscape;
    assert value + [] == value;
  }

  // What is read from a canonical source.

  /** The text as end and cooked text describe it. */
  function TextAt(buf: seq<Byte>, p: nat): Outcome<TemplateText>
    requires p <= |buf|
  {
    match EndOfTemplate(buf, p)
    case Ok(end) => Ok(TemplateText(Cooked(buf, p, end.rawEnd), end))
    case Err(error) => Err(error)
    case Panic => Panic
  }

  lemma ReturnStep(buf: seq<Byte>, p: nat)
    requires p < |buf| && Wtf8.Canonical(buf[p..]) && buf[p] == CARRIAGE_RETURN
    ensures Wtf8.Canonical(buf[AfterReturn(buf, p)..])
    ensures EndOfTemplate(buf, p) == EndOfTemplate(buf, AfterReturn(buf, p))
    ensures EndOfTemplate(buf, p).Ok? ==>
      var end := EndOfTemplate(buf, p).value.rawEnd;
      Cooked(buf, p, end) == PrependText([LINE_FEED], Cooked(buf, AfterReturn(buf, p), end))
  {
    hide Wtf8.Canonical, EndOfTemplate, Cooked, Normalized, TemplateEscape, Character, PrependText;
    ReturnBytes(buf, p);
    hide AfterReturn;
    CanonicalAscii(buf, p, AfterReturn(buf, p));
    EndSkips(buf, p, AfterReturn(buf, p));
    if EndOfTemplate(buf, p).Ok? { CookedReturn(buf, p, EndOfTemplate(buf, p).value.rawEnd); }
  }

  lemma ReturnBytes(buf: seq<Byte>, p: nat)
    requires p < |buf| && buf[p] == CARRIAGE_RETURN
    ensures p < AfterReturn(buf, p) <= |buf|
    ensures forall i | p <= i < AfterReturn(buf, p) ::
      buf[i] < 0x80 && buf[i] !in [BACKTICK, DOLLAR, BACKSLASH]
  {
  }

  lemma CookedReturn(buf: seq<Byte>, p: nat, end: nat)
    requires p < end < |buf| && buf[p] == CARRIAGE_RETURN
    ensures Cooked(buf, p, end) == PrependText([LINE_FEED], Cooked(buf, AfterReturn(buf, p), end))
  {
    hide TemplateEscape;
  }

  lemma TemplateEscapeCanonical(buf: seq<Byte>, p: nat)
    requires p < |buf| && buf[p] == BACKSLASH && Wtf8.Canonical(buf[p..]) && TemplateEscape(buf, p).Ok?
    ensures Wtf8.Canonical(buf[TemplateEscape(buf, p).value.next..])
  {
    if IsDecimalDigit(At(buf, p + 1)) {
      CanonicalAscii(buf, p, p + 2);
    } else {
      EscapeCanonical(buf, p);
    }
  }

  lemma CookedMalformed(buf: seq<Byte>, p: nat, end: nat)
    requires p < end < |buf| && buf[p] == BACKSLASH && TemplateEscape(buf, p) == Err(MalformedEscape)
    ensures Cooked(buf, p, end).None?
  {
    hide TemplateEscape;
  }

  lemma TextAfterReturn(buf: seq<Byte>, p: nat)
    requires p < |buf| && Wtf8.Canonical(buf[p..]) && buf[p] == CARRIAGE_RETURN
    ensures Wtf8.Canonical(buf[AfterReturn(buf, p)..])
    ensures TextAt(buf, p) == PrependCooked([LINE_FEED], TextAt(buf, AfterReturn(buf, p)))
  {
    hide Wtf8.Canonical, EndOfTemplate, Cooked, PrependText;
    ReturnStep(buf, p);
  }

  lemma TextAfterCharacter(buf: seq<Byte>, p: nat)
    requires p < |buf| && Wtf8.Canonical(buf[p..]) && IsPlain(buf[p]) && !IsTerminator(buf, p)
    ensures Character(buf, p).Ok? && Wtf8.Canonical(buf[Character(buf, p).value..])
    ensures
      var next := Character(buf, p).value;
      TextAt(buf, p) == PrependCooked(buf[p..next], TextAt(buf, next))
  {
    CanonicalCharacter(buf, p);
    EndAfterCharacter(buf, p);
    if buf[p] >= 0x80 { CharacterBytes(buf, p); }
    hide Wtf8.Canonical, Wtf8.Step, Wtf8.Encode;
    var next := Character(buf, p).value;
    if EndOfTemplate(buf, p).Ok? { CookedPlain(buf, p, next, EndOfTemplate(buf, p).value.rawEnd); }
  }

  lemma TextAfterEscape(buf: seq<Byte>, p: nat)
    requires p < |buf| && Wtf8.Canonical(buf[p..]) && buf[p] == BACKSLASH
    ensures match TemplateEscape(buf, p)
      case Ok(piece) =>
        Wtf8.Canonical(buf[piece.next..]) && TextAt(buf, p) == PrependCooked(piece.value, TextAt(buf, piece.next))
      case Err(error) =>
        if error == MalformedEscape then
          p + 2 <= |buf| && Wtf8.Canonical(buf[p + 2..]) && TextAt(buf, p) == WithoutCooked(TextAt(buf, p + 2))
        else TextAt(buf, p) == Err(error)
      case Panic => TextAt(buf, p) == Panic
  {
    EndAfterEscape(buf, p);
    if TemplateEscape(buf, p).Ok? {
      TemplateEscapeCanonical(buf, p);
    } else if TemplateEscape(buf, p) == Err(MalformedEscape) {
      MalformedIsAscii(buf, p);
      CanonicalAscii(buf, p, p + 2);
      if EndOfTemplate(buf, p).Ok? { CookedMalformed(buf, p, EndOfTemplate(buf, p).value.rawEnd); }
    }
    hide Wtf8.Canonical, EndOfTemplate, TemplateEscape, PrependText;
  }

  lemma TemplateEscapeIsRead(buf: seq<Byte>, p: nat)
    requires p < |buf| && buf[p] == BACKSLASH && Wtf8.Canonical(buf[p..])
    ensures ReadEscape(buf, p, TemplateEscape(buf, p)) == TemplateEscape(buf, p)
  {
    EscapeIsRead(buf, p, false);
    hide Escape, Wtf8.Canonical;
  }

  /** On a canonical source both paths read the text that end and cooked text describe. */
  lemma {:induction false} TemplateReadMeaning(buf: seq<Byte>, p: nat, sliced: bool)
    requires p <= |buf| && Wtf8.Canonical(buf[p..])
    ensures TemplateRead(buf, p, sliced) == TextAt(buf, p)
    decreases |buf| - p
  {
    hide Wtf8.Canonical, Wtf8.Step, Wtf8.Encode, TemplateEscape, ReadEscape, Character, EndOfTemplate, Cooked;
    if p == |buf| {
      ReadsNothing(buf);
    } else if IsTerminator(buf, p) {
      TextEnds(buf, p);
    } else if buf[p] == BACKSLASH {
      TemplateEscapeIsRead(buf, p);
      TextAfterEscape(buf, p);
      var piece := TemplateEscape(buf, p);
      if piece.Ok? {
        TemplateReadMeaning(buf, piece.value.next, false);
      } else if piece == Err(MalformedEscape) {
        TemplateReadMeaning(buf, p + 2, false);
      }
    } else if buf[p] == CARRIAGE_RETURN {
      TextAfterReturn(buf, p);
      TemplateReadMeaning(buf, AfterReturn(buf, p), false);
    } else {
      CanonicalCharacter(buf, p);
      TextAfterCharacter(buf, p);
      TemplateReadMeaning(buf, Character(buf, p).value, sliced);
    }
    hide TextAt, PrependText;
  }

  lemma ReadsNothing(buf: seq<Byte>)
    ensures forall sliced :: TemplateRead(buf, |buf|, sliced) == Panic
    ensures TextAt(buf, |buf|) == Panic
  {
  }

  lemma TextEnds(buf: seq<Byte>, p: nat)
    requires p < |buf| && IsTerminator(buf, p)
    ensures TextAt(buf, p) == Ok(TemplateText(Some([]), TemplateEnd(p, buf[p] == BACKTICK)))
  {
  }
}
