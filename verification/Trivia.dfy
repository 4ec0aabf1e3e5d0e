/** What may stand between tokens: white space, line terminators and comments. */
module Trivia {
  import opened Identifiers
  import opened Options
  import opened Punctuators
  import opened TextLiterals
  import opened Tokens
  import opened Unicode
  import Wtf8

  predicate IsAsciiWhitespace(c: nat) {
    c == 0x20 || c == 0x09 || c == 0x0B || c == 0x0C
  }

  predicate IsAsciiNewline(c: nat) {
    c == LINE_FEED || c == CARRIAGE_RETURN
  }

  predicate IsUnicodeWhitespace(c: nat) {
    || c == 0xA0 || c == 0x1680 || 0x2000 <= c <= 0x200A || c == 0x202F || c == 0x205F || c == 0x3000
    || c == 0xFEFF
  }

  /** The character that is not ASCII at a position. */
  function OtherAt(buf: seq<Byte>, p: nat): (c: Option<CodePoint>)
    requires p <= |buf|
    ensures c.Some? ==> Character(buf, p).Ok?
  {
    if p < |buf| && buf[p] >= 0x80 && Wtf8.Step(buf[p..]).Ok? then Some(Wtf8.Step(buf[p..]).codePoint) else None
  }

  predicate NewlineAt(buf: seq<Byte>, p: nat)
    requires p <= |buf|
  {
    IsAsciiNewline(At(buf, p)) || (OtherAt(buf, p).Some? && IsUnicodeNewline(OtherAt(buf, p).value))
  }

  predicate HasNewline(buf: seq<Byte>, from: nat, to: nat)
    requires to <= |buf|
  {
    exists i | from <= i < to :: NewlineAt(buf, i)
  }

  predicate CommentStarts(buf: seq<Byte>, hashbang: bool, p: nat) {
    || (At(buf, p) == SLASH && At(buf, p + 1) == SLASH)
    || (p == 0 && hashbang && At(buf, 0) == HASH && At(buf, 1) == BANG)
  }

  predicate ClosesComment(buf: seq<Byte>, p: nat) {
    At(buf, p) == STAR && At(buf, p + 1) == SLASH
  }

  predicate OpensComment(buf: seq<Byte>, p: nat) {
    At(buf, p) == SLASH && At(buf, p + 1) == STAR
  }

  /** Where the line goes on after the line terminator, read character by character. */
  function LineEnd(buf: seq<Byte>, p: nat): (r: Outcome<nat>)
    requires p <= |buf|
    ensures !r.Panic? && (r.Ok? ==> p <= r.value <= |buf|)
    decreases |buf| - p
  {
    if p == |buf| then Ok(p)
    else if !Character(buf, p).Ok? || NewlineAt(buf, p) then Character(buf, p)
    else LineEnd(buf, Character(buf, p).value)
  }

  /** Where a comment goes on after its closing mark, read character by character. */
  function BlockEnd(buf: seq<Byte>, p: nat): (r: Outcome<nat>)
    requires p <= |buf|
    ensures !r.Panic? && (r.Ok? ==> p < r.value <= |buf|)
    decreases |buf| - p
  {
    if ClosesComment(buf, p) then Ok(p + 2)
    else if p == |buf| then Err(UnterminatedComment)
    else if !Character(buf, p).Ok? then Character(buf, p)
    else BlockEnd(buf, Character(buf, p).value)
  }

  /** White space, a line terminator or a comment at `p`, if there is one, and where it ends. */
  function PieceEnd(classes: Classes, buf: seq<Byte>, hashbang: bool, p: nat): (r: Option<Outcome<nat>>)
    requires p <= |buf|
    ensures r.Some? ==> !r.value.Panic? && (r.value.Ok? ==> p < r.value.value <= |buf|)
  {
    var other := OtherAt(buf, p);
    if IsAsciiWhitespace(At(buf, p)) || IsAsciiNewline(At(buf, p)) then Some(Ok(p + 1))
    else if CommentStarts(buf, hashbang, p) then Some(LineEnd(buf, p + 2))
    else if OpensComment(buf, p) then Some(BlockEnd(buf, p + 2))
    else if other.Some? && !IsIdStartUnicode(classes, other.value)
            && (IsUnicodeWhitespace(other.value) || IsUnicodeNewline(other.value))
    then Some(Character(buf, p))
    else None
  }

  /** Where everything ends that may stand before a token. */
  function TriviaEnd(classes: Classes, buf: seq<Byte>, hashbang: bool, p: nat): (r: Outcome<nat>)
    requires p <= |buf|
    ensures !r.Panic? && (r.Ok? ==> p <= r.value <= |buf|)
    decreases |buf| - p
  {
    match PieceEnd(classes, buf, hashbang, p)
    case None => Ok(p)
    case Some(end) => if end.Ok? then TriviaEnd(classes, buf, hashbang, end.value) else end
  }

  // Steps of skipping.

  lemma NewlineExtends(buf: seq<Byte>, from: nat, mid: nat, to: nat)
    requires from <= mid <= to <= |buf|
    ensures HasNewline(buf, from, to) == (HasNewline(buf, from, mid) || HasNewline(buf, mid, to))
  {
    hide NewlineAt;
  }

  /** No character starts inside another one. */
  lemma InsideCharacter(buf: seq<Byte>, p: nat, i: nat)
    requires p < |buf| && Character(buf, p).Ok? && p < i < Character(buf, p).value
    ensures !NewlineAt(buf, i) && !ClosesComment(buf, i)
  {
    var rest := buf[p..];
    assert rest[i - p] == buf[i] && Wtf8.IsContinuation(buf[i]);
    assert buf[i..][0] == buf[i];
  }

  lemma CharacterNewline(buf: seq<Byte>, p: nat)
    requires p < |buf| && Character(buf, p).Ok?
    ensures NewlineAt(buf, p) == HasNewline(buf, p, Character(buf, p).value)
  {
    forall i | p < i < Character(buf, p).value
      ensures !NewlineAt(buf, i)
    {
      InsideCharacter(buf, p, i);
    }
    hide NewlineAt, Character;
  }

  lemma AsciiCharacter(buf: seq<Byte>, p: nat)
    requires p < |buf| && buf[p] < 0x80
    ensures Character(buf, p) == Ok(p + 1) && OtherAt(buf, p).None? && NewlineAt(buf, p) == IsAsciiNewline(buf[p])
  {
  }

  lemma OtherCharacter(buf: seq<Byte>, p: nat)
    requires p < |buf| && buf[p] >= 0x80
    ensures
      match Wtf8.Decode(buf[p..])
      case Ok(c, length) =>
        && Character(buf, p) == Ok(p + length) && OtherAt(buf, p) == Some(c) && NewlineAt(buf, p) == IsUnicodeNewline(c)
      case Err(_) => Character(buf, p) == Err(InvalidUnicode) && OtherAt(buf, p).None?
  {
  }

  lemma NothingBetween(buf: seq<Byte>, p: nat)
    requires p <= |buf|
    ensures !HasNewline(buf, p, p)
  {
  }

  /** One more character of a comment. */
  lemma OneCharacter(buf: seq<Byte>, from: nat, p: nat)
    requires from <= p < |buf|
    ensures
      if buf[p] < 0x80 then Character(buf, p) == Ok(p + 1) && NewlineAt(buf, p) == IsAsciiNewline(buf[p])
      else
        match Wtf8.Decode(buf[p..])
        case Ok(c, length) => Character(buf, p) == Ok(p + length) && NewlineAt(buf, p) == IsUnicodeNewline(c)
        case Err(_) => Character(buf, p) == Err(InvalidUnicode)
    ensures Character(buf, p).Ok? ==>
      HasNewline(buf, from, Character(buf, p).value) == (HasNewline(buf, from, p) || NewlineAt(buf, p))
  {
    if buf[p] < 0x80 { AsciiCharacter(buf, p); } else { OtherCharacter(buf, p); }
    if Character(buf, p).Ok? {
      CharacterNewline(buf, p);
      NewlineExtends(buf, from, p, Character(buf, p).value);
    }
    hide Character, NewlineAt, HasNewline, Wtf8.Decode;
  }

  /** No trivia starts with an ASCII character that starts neither a comment nor white space. */
  lemma NoPieceAtAscii(classes: Classes, buf: seq<Byte>, hashbang: bool, p: nat)
    requires p <= |buf| && (At(buf, p) < 0x80 || p == |buf|)
    requires !IsAsciiWhitespace(At(buf, p)) && !IsAsciiNewline(At(buf, p))
    requires !CommentStarts(buf, hashbang, p) && !OpensComment(buf, p)
    ensures PieceEnd(classes, buf, hashbang, p).None?
  {
  }

  lemma PieceAtOther(classes: Classes, buf: seq<Byte>, hashbang: bool, p: nat)
    requires p < |buf| && buf[p] >= 0x80
    ensures
      var other := OtherAt(buf, p);
      PieceEnd(classes, buf, hashbang, p) ==
        if other.Some? && !IsIdStartUnicode(classes, other.value)
           && (IsUnicodeWhitespace(other.value) || IsUnicodeNewline(other.value))
        then Some(Character(buf, p)) else None
  {
  }

  /** What a scan of a gap knows: where the gap ends, and whether a line ended in it so far. */
  ghost predicate GapScan(
    classes: Classes, buf: seq<Byte>, hashbang: bool, from: nat, p: nat, newLine: bool)
  {
    && from <= p <= |buf| && newLine == HasNewline(buf, from, p)
    && TriviaEnd(classes, buf, hashbang, from) == TriviaEnd(classes, buf, hashbang, p)
  }

  lemma GapStarts(classes: Classes, buf: seq<Byte>, hashbang: bool, from: nat)
    requires from <= |buf|
    ensures GapScan(classes, buf, hashbang, from, from, false)
  {
  }

  /** One more piece. */
  lemma GapExtends(classes: Classes, buf: seq<Byte>, hashbang: bool, from: nat, p: nat, newLine: bool)
    requires GapScan(classes, buf, hashbang, from, p, newLine) && PieceEnd(classes, buf, hashbang, p).Some?
    ensures
      var end := PieceEnd(classes, buf, hashbang, p).value;
      if end.Ok? then GapScan(classes, buf, hashbang, from, end.value, newLine || HasNewline(buf, p, end.value))
      else TriviaEnd(classes, buf, hashbang, from) == end
  {
    hide PieceEnd, HasNewline;
    var end := PieceEnd(classes, buf, hashbang, p).value;
    if end.Ok? { NewlineExtends(buf, from, p, end.value); }
  }

  /** A piece of one character. */
  lemma GapCharacter(classes: Classes, buf: seq<Byte>, hashbang: bool, from: nat, p: nat, newLine: bool)
    requires GapScan(classes, buf, hashbang, from, p, newLine) && p < |buf| && Character(buf, p).Ok?
    requires PieceEnd(classes, buf, hashbang, p) == Some(Character(buf, p))
    ensures
      GapScan(classes, buf, hashbang, from, Character(buf, p).value, newLine || NewlineAt(buf, p))
  {
    GapExtends(classes, buf, hashbang, from, p, newLine);
    CharacterNewline(buf, p);
    hide PieceEnd, GapScan, NewlineAt, Character;
  }

  lemma GapComment(classes: Classes, buf: seq<Byte>, hashbang: bool, from: nat, p: nat, newLine: bool)
    requires GapScan(classes, buf, hashbang, from, p, newLine)
    requires CommentStarts(buf, hashbang, p) || OpensComment(buf, p)
    ensures p + 2 <= |buf|
    ensures
      var end := if CommentStarts(buf, hashbang, p) then LineEnd(buf, p + 2) else BlockEnd(buf, p + 2);
      if end.Ok? then GapScan(classes, buf, hashbang, from, end.value, newLine || HasNewline(buf, p + 2, end.value))
      else TriviaEnd(classes, buf, hashbang, from) == end
  {
    GapExtends(classes, buf, hashbang, from, p, newLine);
    var end := PieceEnd(classes, buf, hashbang, p).value;
    AsciiCharacter(buf, p);
    AsciiCharacter(buf, p + 1);
    hide GapScan, LineEnd, BlockEnd;
    if end.Ok? { NewlineExtends(buf, p, p + 2, end.value); }
  }

  lemma GapEnds(classes: Classes, buf: seq<Byte>, hashbang: bool, from: nat, p: nat, newLine: bool)
    requires GapScan(classes, buf, hashbang, from, p, newLine) && PieceEnd(classes, buf, hashbang, p).None?
    ensures TriviaEnd(classes, buf, hashbang, from) == Ok(p) && newLine == HasNewline(buf, from, p)
  {
  }

  // What comments are.

  /** A line comment ends after the first line terminator, or at the end of input. */
  lemma {:induction false} LineEndMeaning(buf: seq<Byte>, p: nat)
    requires p <= |buf| && LineEnd(buf, p).Ok?
    ensures
      var end := LineEnd(buf, p).value;
      && (forall i | p <= i < end && NewlineAt(buf, i) :: Character(buf, i) == Ok(end))
      && (end < |buf| ==> HasNewline(buf, p, end))
    decreases |buf| - p
  {
    if p < |buf| {
      CharacterNewline(buf, p);
      var next := Character(buf, p).value;
      hide NewlineAt, Character;
      if !NewlineAt(buf, p) {
        LineEndMeaning(buf, next);
        NewlineExtends(buf, p, next, LineEnd(buf, next).value);
      }
      hide HasNewline;
    }
  }

  /** A block comment ends after the first closing mark. */
  lemma {:induction false} BlockEndMeaning(buf: seq<Byte>, p: nat)
    requires p <= |buf| && BlockEnd(buf, p).Ok?
    ensures
      var end := BlockEnd(buf, p).value;
      && p + 2 <= end && ClosesComment(buf, end - 2)
      && forall i | p <= i < end - 2 :: !ClosesComment(buf, i)
    decreases |buf| - p
  {
    if !ClosesComment(buf, p) {
      var next := Character(buf, p).value;
      forall i | p < i < next
        ensures !ClosesComment(buf, i)
      {
        InsideCharacter(buf, p, i);
      }
      hide ClosesComment, Character;
      BlockEndMeaning(buf, next);
    }
  }

  /** In a canonical source a line comment always ends, and a block comment fails only for want of a closing mark. */
  lemma {:induction false} CommentsFail(buf: seq<Byte>, p: nat)
    requires p <= |buf| && Wtf8.Canonical(buf[p..])
    ensures LineEnd(buf, p).Ok?
    ensures BlockEnd(buf, p).Err? <==> forall i | p <= i < |buf| :: !ClosesComment(buf, i)
    ensures BlockEnd(buf, p).Err? ==> BlockEnd(buf, p).error == UnterminatedComment
    decreases |buf| - p
  {
    if BlockEnd(buf, p).Ok? { BlockEndMeaning(buf, p); }
    if p < |buf| {
      CanonicalCharacter(buf, p);
      var next := Character(buf, p).value;
      CommentsFail(buf, next);
      forall i | p < i < next
        ensures !ClosesComment(buf, i)
      {
        InsideCharacter(buf, p, i);
      }
      hide Wtf8.Canonical, Character, NewlineAt;
    }
  }
}
