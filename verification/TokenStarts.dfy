/** Which characters start which tokens, and which stand between tokens, spelled out by the characters themselves. */
module TokenStarts {
  import opened Identifiers
  import opened Lexemes
  import opened NumberBases
  import opened Options
  import opened Punctuators
  import opened TemplateLaws
  import opened TextLiterals
  import opened Tokens
  import opened Trivia
  import opened Unicode
  import Wtf8

  predicate IsLetter(c: nat) {
    'a' as nat <= c <= 'z' as nat || 'A' as nat <= c <= 'Z' as nat || c == '_' as nat || c == '$' as nat
  }

  predicate StartsPunctuator(c: nat) {
    c in [
      '+' as nat, '-' as nat, '*' as nat, '/' as nat, '%' as nat, '&' as nat, '|' as nat, '^' as nat, '<' as nat,
      '>' as nat, '=' as nat, '!' as nat, '~' as nat, '(' as nat, ')' as nat, '{' as nat, '}' as nat, '[' as nat,
      ']' as nat, ';' as nat, ',' as nat, '.' as nat, '?' as nat, ':' as nat]
  }

  /** A name starts with a letter, an underscore or a dollar sign, and goes on with these and digits. */
  lemma NameCharacters(c: nat)
    ensures IsIdStartAscii(c) <==> IsLetter(c)
    ensures IsIdPartAscii(c) <==> IsLetter(c) || IsDecimal(c)
  {
  }

  /** Other characters of a name: those of the Unicode classes, and within a name the two joiners. */
  lemma OtherNameCharacters(classes: Classes, c: nat)
    ensures IsIdStart(classes, c) <==> IsLetter(c) || (c <= 0x10_FFFF && classes.start(c))
    ensures
      IsIdPart(classes, c) <==>
        IsLetter(c) || IsDecimal(c) || (c <= 0x10_FFFF && classes.part(c)) || c == 0x200C || c == 0x200D
  {
  }

  lemma PunctuatorStarts(buf: seq<Byte>, p: nat)
    ensures PunctuatorAt(buf, p).Some? <==> StartsPunctuator(At(buf, p))
  {
  }

  /** The kind of token that an ASCII character starts, if it starts one at all. */
  lemma AsciiToken(classes: Classes, buf: seq<Byte>, p: nat, strict: bool)
    requires p < |buf| && buf[p] < 0x80
    ensures
      var c, r := buf[p], TokenAt(classes, buf, p, strict);
      if IsDecimal(c) || (c == '.' as nat && IsDecimal(At(buf, p + 1))) then
        r.Ok? ==> r.value.token.NumberLiteral? || r.value.token.BigIntLiteral?
      else if StartsPunctuator(c) then r.Ok? && r.value.token.Punctuation?
      else if IsLetter(c) || c == '\\' as nat then r.Ok? ==> r.value.token.Identifier?
      else if c == '"' as nat || c == '\'' as nat then r.Ok? ==> r.value.token.StringLiteral?
      else if c == '`' as nat then r.Ok? ==> r.value.token.TemplatePart? && r.value.token.isHead
      else if c == '#' as nat then r.Ok? ==> r.value.token.PrivateIdentifier?
      else r == Err(UnknownToken)
  {
    PunctuatorStarts(buf, p);
    NameCharacters(buf[p]);
    hide IsLetter, IsIdStartAscii, PunctuatorAt, NumberAt, NameAt, OtherTokenAt, TemplateRead, StringRead;
  }

  /** A name has its first ASCII character as its first byte. */
  lemma NameStarts(classes: Classes, buf: seq<Byte>, p: nat, strict: bool)
    requires p < |buf| && IsLetter(buf[p])
    ensures
      var r := TokenAt(classes, buf, p, strict);
      r.Ok? ==> r.value.token.Identifier? && r.value.token.text != [] && r.value.token.text[0] == buf[p]
  {
    PunctuatorStarts(buf, p);
    NameCharacters(buf[p]);
    hide PunctuatorAt, NumberAt, NameRest, OtherTokenAt, IsIdStartAscii;
  }

  /** The hash belongs to a private name. */
  lemma PrivateNameStarts(classes: Classes, buf: seq<Byte>, p: nat, strict: bool)
    requires p < |buf| && buf[p] == '#' as nat
    ensures
      var r := TokenAt(classes, buf, p, strict);
      r.Ok? ==>
        r.value.token.PrivateIdentifier? && r.value.token.text != [] && r.value.token.text[0] == '#' as nat
        && NameAt(classes, buf, p + 1, HashNotFollowedByIdentifier) == Ok(Piece(r.value.token.text[1..], r.value.end))
  {
    PunctuatorStarts(buf, p);
    var name := NameAt(classes, buf, p + 1, HashNotFollowedByIdentifier);
    if name.Ok? { assert ([HASH] + name.value.value)[1..] == name.value.value; }
    hide PunctuatorAt, NumberAt, NameAt, OtherTokenAt;
  }

  // Between tokens.

  /** Tab, line feed, vertical tab, form feed, carriage return and space. */
  predicate IsAsciiSpace(c: nat) {
    c in [0x09, 0x0A, 0x0B, 0x0C, 0x0D, 0x20]
  }

  /** No-break and other spaces, the byte order mark, and the line and paragraph separators. */
  predicate IsOtherSpace(c: nat) {
    c in [0xA0, 0x1680, 0x202F, 0x205F, 0x3000, 0xFEFF, 0x2028, 0x2029] || 0x2000 <= c <= 0x200A
  }

  predicate Follow(buf: seq<Byte>, p: nat, a: char, b: char) {
    p + 1 < |buf| && buf[p] == a as nat && buf[p + 1] == b as nat
  }

  /** What stands at `p` and is no part of a token. */
  lemma TriviaStarts(classes: Classes, buf: seq<Byte>, hashbang: bool, p: nat)
    requires p < |buf|
    ensures
      var r := PieceEnd(classes, buf, hashbang, p);
      if Follow(buf, p, '/', '/') || (p == 0 && hashbang && Follow(buf, p, '#', '!')) then
        r == Some(LineEnd(buf, p + 2))
      else if Follow(buf, p, '/', '*') then r == Some(BlockEnd(buf, p + 2))
      else if buf[p] < 0x80 then r == if IsAsciiSpace(buf[p]) then Some(Ok(p + 1)) else None
      else
        var c := Wtf8.Step(buf[p..]);
        r == if c.Ok? && IsOtherSpace(c.codePoint) && !IsIdStartUnicode(classes, c.codePoint)
             then Some(Ok(p + c.length)) else None
  {
    CommentCharacters(buf, hashbang, p);
    SpaceCharacters(buf[p]);
    if buf[p] >= 0x80 {
      OtherCharacterStep(buf, p);
      var c := Wtf8.Step(buf[p..]);
      if c.Ok? { SpaceCharacters(c.codePoint); }
    } else {
      AsciiCharacter(buf, p);
    }
    hide LineEnd, BlockEnd, Wtf8.Step, Character, OtherAt, Follow, CommentStarts, OpensComment, IsOtherSpace;
    hide IsAsciiSpace, IsAsciiWhitespace, IsAsciiNewline, IsUnicodeWhitespace, IsUnicodeNewline;
  }

  lemma CommentCharacters(buf: seq<Byte>, hashbang: bool, p: nat)
    requires p < |buf|
    ensures
      CommentStarts(buf, hashbang, p)
      <==> Follow(buf, p, '/', '/') || (p == 0 && hashbang && Follow(buf, p, '#', '!'))
    ensures OpensComment(buf, p) <==> Follow(buf, p, '/', '*')
    ensures buf[p] >= 0x80 || IsAsciiSpace(buf[p]) ==> !CommentStarts(buf, hashbang, p) && !OpensComment(buf, p)
  {
  }

  lemma SpaceCharacters(c: nat)
    ensures IsAsciiSpace(c) <==> IsAsciiWhitespace(c) || IsAsciiNewline(c)
    ensures IsOtherSpace(c) <==> IsUnicodeWhitespace(c) || IsUnicodeNewline(c)
    ensures IsAsciiSpace(c) ==> c < 0x80
  {
  }

  lemma OtherCharacterStep(buf: seq<Byte>, p: nat)
    requires p < |buf| && buf[p] >= 0x80
    ensures
      match Wtf8.Step(buf[p..])
      case Ok(c, length) => Character(buf, p) == Ok(p + length) && OtherAt(buf, p) == Some(c)
      case Err(_) => OtherAt(buf, p).None?
  {
  }

  /** The characters that end a line. */
  lemma LineEnds(buf: seq<Byte>, p: nat)
    requires p < |buf|
    ensures
      var c := Wtf8.Step(buf[p..]);
      NewlineAt(buf, p) <==>
        if buf[p] < 0x80 then buf[p] == 0x0A || buf[p] == 0x0D
        else c.Ok? && (c.codePoint == 0x2028 || c.codePoint == 0x2029)
  {
    hide Wtf8.Step;
  }

  // Tokens and the gaps before them.

  /** The text from `from` to `to` is `n` pieces of trivia. */
  ghost predicate IsGap(classes: Classes, buf: seq<Byte>, hashbang: bool, n: nat, from: nat, to: nat) {
    && from <= |buf|
    && if n == 0 then from == to
       else
         var piece := PieceEnd(classes, buf, hashbang, from);
         piece.Some? && piece.value.Ok? && IsGap(classes, buf, hashbang, n - 1, piece.value.value, to)
  }

  lemma {:induction false} GapIsUnique(classes: Classes, buf: seq<Byte>, hashbang: bool, n: nat, from: nat, to: nat)
    requires to <= |buf| && IsGap(classes, buf, hashbang, n, from, to)
    requires PieceEnd(classes, buf, hashbang, to).None?
    ensures TriviaEnd(classes, buf, hashbang, from) == Ok(to)
  {
    hide PieceEnd;
    if n > 0 {
      GapIsUnique(classes, buf, hashbang, n - 1, PieceEnd(classes, buf, hashbang, from).value.value, to);
    }
  }

  lemma {:induction false} GapExists(classes: Classes, buf: seq<Byte>, hashbang: bool, from: nat) returns (n: nat)
    requires from <= |buf| && TriviaEnd(classes, buf, hashbang, from).Ok?
    ensures
      var to := TriviaEnd(classes, buf, hashbang, from).value;
      IsGap(classes, buf, hashbang, n, from, to) && PieceEnd(classes, buf, hashbang, to).None?
    decreases |buf| - from
  {
    hide PieceEnd;
    if PieceEnd(classes, buf, hashbang, from).None? {
      n := 0;
    } else {
      n := GapExists(classes, buf, hashbang, PieceEnd(classes, buf, hashbang, from).value.value);
      n := n + 1;
    }
  }

  /** Trivia leads to the start of a token, where none is, and the token is read there. */
  ghost predicate IsNext(
    classes: Classes, buf: seq<Byte>, hashbang: bool, strict: bool, p: nat, n: nat, next: Placed)
  {
    && p <= next.loc.start <= |buf| && IsGap(classes, buf, hashbang, n, p, next.loc.start)
    && PieceEnd(classes, buf, hashbang, next.loc.start).None?
    && TokenAt(classes, buf, next.loc.start, strict) == Ok(Lexed(next.token, next.loc.end))
    && next.newLineBefore == exists i | p <= i < next.loc.start :: NewlineAt(buf, i)
  }

  /** What is read next: the token behind all trivia, with its place and whether a line ended before it. */
  lemma NextMeaning(classes: Classes, buf: seq<Byte>, hashbang: bool, strict: bool, p: nat, next: Placed)
    requires p <= |buf|
    ensures
      NextAt(classes, buf, hashbang, strict, p) == Ok(next)
      <==> exists n: nat :: IsNext(classes, buf, hashbang, strict, p, n, next)
  {
    hide PieceEnd, TokenAt, TriviaEnd, IsGap, NewlineAt;
    if NextAt(classes, buf, hashbang, strict, p) == Ok(next) {
      var n := GapExists(classes, buf, hashbang, p);
      assert IsNext(classes, buf, hashbang, strict, p, n, next);
    }
    if n: nat :| IsNext(classes, buf, hashbang, strict, p, n, next) {
      GapIsUnique(classes, buf, hashbang, n, p, next.loc.start);
    }
  }
}
