/** What the source spells at each position, and what repeated lexing covers. */
module Lexemes {
  import opened Identifiers
  import opened Numbers
  import opened Options
  import opened Punctuators
  import opened TemplateLaws
  import opened TextLiterals
  import opened Tokens
  import opened Trivia
  import opened Unicode
  import Wtf8

  /** The numeric literal at a digit, or at a period before one. */
  function NumericLexeme(buf: seq<Byte>, start: nat, strict: bool): Outcome<Lexed>
    requires start < |buf|
  {
    var c := At(buf, start + 1);
    if buf[start] != ZERO then DecimalLexeme(buf, start)
    else if c == 0x62 || c == 0x42 then RadixLexeme(Binary, buf, start)
    else if c == 0x6F || c == 0x4F then RadixLexeme(Octal, buf, start)
    else if c == 0x78 || c == 0x58 then RadixLexeme(Hex, buf, start)
    else if !IsDecimalDigit(c) then DecimalLexeme(buf, start)
    else if strict then Err(LegacyOctalLiteralInStrictMode)
    else
      match LegacyOctalLexeme(buf, start)
      case Some(lexed) => Ok(lexed)
      case None => DecimalLexeme(buf, start)
  }

  /** What is wrong with the source after a number: a digit, the start of a name, or bytes that do not decode. */
  function FollowError(classes: Classes, buf: seq<Byte>, p: nat): Option<LexError>
    requires p <= |buf|
  {
    if At(buf, p) < 0x80 && IsIdPartAscii(At(buf, p)) then Some(InvalidNumericLiteralNextChar)
    else if At(buf, p) < 0x80 || p == |buf| then None
    else if OtherAt(buf, p).None? then Some(InvalidUnicode)
    else if IsIdStartUnicode(classes, OtherAt(buf, p).value) then Some(InvalidNumericLiteralNextChar)
    else None
  }

  predicate NumberStarts(buf: seq<Byte>, p: nat) {
    IsDecimalDigit(At(buf, p)) || (At(buf, p) == PERIOD && IsDecimalDigit(At(buf, p + 1)))
  }

  lemma NumericKind(buf: seq<Byte>, start: nat, strict: bool)
    requires start < |buf| && NumberStarts(buf, start) && NumericLexeme(buf, start, strict).Ok?
    ensures
      var lexed := NumericLexeme(buf, start, strict).value;
      (lexed.token.NumberLiteral? || lexed.token.BigIntLiteral?) && start < lexed.end <= |buf|
  {
    hide Positional, WithoutSeparators, RunError, Digit, Base;
  }

  /** A number that may end where it does. */
  function NumberAt(classes: Classes, buf: seq<Byte>, p: nat, strict: bool): (r: Outcome<Lexed>)
    requires p < |buf| && NumberStarts(buf, p)
    ensures r.Ok? ==> p < r.value.end <= |buf| && (r.value.token.NumberLiteral? || r.value.token.BigIntLiteral?)
  {
    var number := NumericLexeme(buf, p, strict);
    if !number.Ok? then number
    else
      NumericKind(buf, p, strict);
      match FollowError(classes, buf, number.value.end)
      case None => number
      case Some(error) => Err(error)
  }

  function PunctuationAt(buf: seq<Byte>, p: nat): (r: Lexed)
    requires PunctuatorAt(buf, p).Some?
    ensures p < r.end <= |buf| && r.token.Punctuation?
  {
    PunctuatorIsSpelled(buf, p);
    var k := PunctuatorAt(buf, p).value;
    Lexed(Punctuation(k), p + Spell(k).Length())
  }

  function IdentifierToken(name: Outcome<Piece>): Outcome<Lexed> {
    match name
    case Ok(piece) => Ok(Lexed(Identifier(piece.value), piece.next))
    case Err(error) => Err(error)
    case Panic => Panic
  }

  function PrivateToken(name: Outcome<Piece>): Outcome<Lexed> {
    match name
    case Ok(piece) => Ok(Lexed(PrivateIdentifier(piece.value), piece.next))
    case Err(error) => Err(error)
    case Panic => Panic
  }

  /** The name at a character outside ASCII, which only the class ID_Start can start. */
  function OtherTokenAt(classes: Classes, buf: seq<Byte>, p: nat): (r: Outcome<Lexed>)
    requires p < |buf| && buf[p] >= 0x80
    ensures r.Ok? ==> p < r.value.end <= |buf| && r.value.token.Identifier?
  {
    var other := OtherAt(buf, p);
    if other.None? then Err(InvalidUnicode)
    else if IsIdStartUnicode(classes, other.value) then IdentifierToken(NameAt(classes, buf, p, UnknownToken))
    else Err(UnknownToken)
  }

  /** The token at `p`, where no trivia starts, or why there is none. */
  function TokenAt(classes: Classes, buf: seq<Byte>, p: nat, strict: bool): (r: Outcome<Lexed>)
    requires p <= |buf|
    ensures r.Ok? ==> p <= r.value.end <= |buf| && (r.value.token == Eof <==> p == |buf|)
    ensures r.Ok? ==> if r.value.token == Eof then r.value.end == p else p < r.value.end
  {
    var c := At(buf, p);
    if p == |buf| then Ok(Lexed(Eof, p))
    else if NumberStarts(buf, p) then NumberAt(classes, buf, p, strict)
    else if PunctuatorAt(buf, p).Some? then Ok(PunctuationAt(buf, p))
    else if c == HASH then PrivateToken(PrivateNameAt(classes, buf, p))
    else if IsQuote(c) then StringAt(buf, p, strict)
    else if c == BACKTICK then TemplateAt(buf, p + 1, true)
    else if IsIdStartAscii(c) || c == BACKSLASH then IdentifierToken(NameAt(classes, buf, p, UnknownToken))
    else if c < 0x80 then Err(UnknownToken)
    else OtherTokenAt(classes, buf, p)
  }

  lemma OtherToken(classes: Classes, buf: seq<Byte>, p: nat, strict: bool)
    requires p < |buf| && buf[p] >= 0x80
    ensures TokenAt(classes, buf, p, strict) == OtherTokenAt(classes, buf, p)
  {
    hide OtherTokenAt;
  }

  /** In a canonical source the text from any ASCII byte on is canonical. */
  lemma {:induction false} AsciiIsBoundary(buf: seq<Byte>, p: nat, q: nat)
    requires p <= q < |buf| && Wtf8.Canonical(buf[p..]) && buf[q] < 0x80
    ensures Wtf8.Canonical(buf[q..])
    decreases q - p
  {
    if p < q {
      CanonicalCharacter(buf, p);
      CharacterBytes(buf, p);
      hide Wtf8.Canonical, Wtf8.Step, Wtf8.Encode;
      AsciiIsBoundary(buf, Character(buf, p).value, q);
    }
  }

  /** The outcome of reading on from `p`: the trivia there fails, or what stands behind it decides. */
  ghost predicate ReadsOn(
    classes: Classes, buf: seq<Byte>, hashbang: bool, strict: bool, p: nat, newLine: bool, r: Outcome<(Token, Loc)>)
    requires p <= |buf|
  {
    var start := TriviaEnd(classes, buf, hashbang, p);
    if start.Err? then r == Err(start.error)
    else
      && Reads(TokenAt(classes, buf, start.value, strict), start.value, r)
      && (r.Ok? ==> newLine == HasNewline(buf, p, start.value))
  }

  /** A comment behind a gap belongs to it, or is an error. */
  lemma CommentReads(
    classes: Classes, buf: seq<Byte>, hashbang: bool, strict: bool, from: nat, p: nat, newLine: bool)
    requires GapScan(classes, buf, hashbang, from, p, newLine)
    requires CommentStarts(buf, hashbang, p) || OpensComment(buf, p)
    ensures p + 2 <= |buf|
    ensures
      var end := if CommentStarts(buf, hashbang, p) then LineEnd(buf, p + 2) else BlockEnd(buf, p + 2);
      if end.Ok? then GapScan(classes, buf, hashbang, from, end.value, newLine || HasNewline(buf, p + 2, end.value))
      else end.Err? && forall flag :: ReadsOn(classes, buf, hashbang, strict, from, flag, Err(end.error))
  {
    GapComment(classes, buf, hashbang, from, p, newLine);
    hide TriviaEnd, TokenAt, HasNewline, LineEnd, BlockEnd;
  }

  lemma GapReads(
    classes: Classes, buf: seq<Byte>, hashbang: bool, strict: bool, p: nat, start: nat, newLine: bool,
    r: Outcome<(Token, Loc)>)
    requires p <= start <= |buf| && TriviaEnd(classes, buf, hashbang, p) == Ok(start)
    requires newLine == HasNewline(buf, p, start)
    requires Reads(TokenAt(classes, buf, start, strict), start, r)
    ensures ReadsOn(classes, buf, hashbang, strict, p, newLine, r)
  {
    hide TriviaEnd, TokenAt, HasNewline, Reads;
  }

  /** A character outside ASCII behind a gap: it starts a name, belongs to the gap, or is an error. */
  lemma OtherReads(
    classes: Classes, buf: seq<Byte>, hashbang: bool, strict: bool, from: nat, p: nat, newLine: bool)
    requires GapScan(classes, buf, hashbang, from, p, newLine) && p < |buf| && buf[p] >= 0x80
    ensures
      var d := Wtf8.Decode(buf[p..]);
      if d.Err? then ReadsOn(classes, buf, hashbang, strict, from, newLine, Err(InvalidUnicode))
      else if IsIdStartUnicode(classes, d.codePoint) then
        && TriviaEnd(classes, buf, hashbang, from) == Ok(p) && newLine == HasNewline(buf, from, p)
        && OtherAt(buf, p) == Some(d.codePoint) && Character(buf, p) == Ok(p + d.length)
      else if IsUnicodeWhitespace(d.codePoint) || IsUnicodeNewline(d.codePoint) then
        GapScan(classes, buf, hashbang, from, p + d.length, newLine || IsUnicodeNewline(d.codePoint))
      else ReadsOn(classes, buf, hashbang, strict, from, newLine, Err(UnknownToken))
  {
    PieceAtOther(classes, buf, hashbang, p);
    OtherToken(classes, buf, p, strict);
    OtherCharacter(buf, p);
    if PieceEnd(classes, buf, hashbang, p).None? {
      GapEnds(classes, buf, hashbang, from, p, newLine);
      var token := TokenAt(classes, buf, p, strict);
      if token.Err? { GapReads(classes, buf, hashbang, strict, from, p, newLine, Err(token.error)); }
    } else {
      GapCharacter(classes, buf, hashbang, from, p, newLine);
    }
    hide GapScan, PieceEnd, TriviaEnd, TokenAt, Character, NewlineAt, OtherAt, HasNewline, Wtf8.Decode, ReadsOn;
  }

  /** A token, its place, and whether a line ended before it. */
  datatype Placed = Placed(token: Token, loc: Loc, newLineBefore: bool)

  /** The token after the trivia at `p`. */
  function NextAt(classes: Classes, buf: seq<Byte>, hashbang: bool, strict: bool, p: nat): (r: Outcome<Placed>)
    requires p <= |buf|
    ensures r.Ok? ==>
      && p <= r.value.loc.start <= r.value.loc.end <= |buf|
      && (r.value.token == Eof ==> r.value.loc == Loc(|buf|, |buf|))
      && (r.value.token != Eof ==> r.value.loc.start < r.value.loc.end)
  {
    var start :- TriviaEnd(classes, buf, hashbang, p);
    var lexed :- TokenAt(classes, buf, start, strict);
    Ok(Placed(lexed.token, Loc(start, lexed.end), HasNewline(buf, p, start)))
  }

  lemma NextIsRead(
    classes: Classes, buf: seq<Byte>, hashbang: bool, strict: bool, p: nat, newLine: bool, r: Outcome<(Token, Loc)>)
    requires p <= |buf| && ReadsOn(classes, buf, hashbang, strict, p, newLine, r)
    ensures
      NextAt(classes, buf, hashbang, strict, p) ==
        if r.Ok? then Ok(Placed(r.value.0, r.value.1, newLine)) else if r.Err? then Err(r.error) else Panic
  {
    hide TriviaEnd, TokenAt, HasNewline;
  }

  /** All tokens from `p` on, the end included. */
  function TokensFrom(classes: Classes, buf: seq<Byte>, hashbang: bool, strict: bool, p: nat): Outcome<seq<Placed>>
    requires p <= |buf|
    decreases |buf| - p
  {
    var next :- NextAt(classes, buf, hashbang, strict, p);
    if next.token == Eof then Ok([next])
    else
      var rest :- TokensFrom(classes, buf, hashbang, strict, next.loc.end);
      Ok([next] + rest)
  }

  // Steps of lexing a source.

  /** What a run knows: the tokens read so far, and those from `p` on. */
  ghost predicate TokenScan(
    classes: Classes, buf: seq<Byte>, hashbang: bool, strict: bool, p: nat, tokens: seq<Placed>)
  {
    && p <= |buf|
    && TokensFrom(classes, buf, hashbang, strict, 0) == Appended(tokens, TokensFrom(classes, buf, hashbang, strict, p))
  }

  function Appended(tokens: seq<Placed>, rest: Outcome<seq<Placed>>): Outcome<seq<Placed>> {
    if rest.Ok? then Ok(tokens + rest.value) else rest
  }

  lemma TokenScanStarts(classes: Classes, buf: seq<Byte>, hashbang: bool, strict: bool)
    ensures TokenScan(classes, buf, hashbang, strict, 0, [])
  {
    hide TokensFrom;
    var rest := TokensFrom(classes, buf, hashbang, strict, 0);
    if rest.Ok? { assert [] + rest.value == rest.value; }
  }

  lemma TokenScanExtends(
    classes: Classes, buf: seq<Byte>, hashbang: bool, strict: bool, p: nat, tokens: seq<Placed>)
    requires TokenScan(classes, buf, hashbang, strict, p, tokens)
    ensures
      var next, all := NextAt(classes, buf, hashbang, strict, p), TokensFrom(classes, buf, hashbang, strict, 0);
      if next.Err? then all == Err(next.error)
      else if next.Panic? then all == Panic
      else if next.value.token == Eof then all == Ok(tokens + [next.value])
      else TokenScan(classes, buf, hashbang, strict, next.value.loc.end, tokens + [next.value])
  {
    hide NextAt;
    var next := NextAt(classes, buf, hashbang, strict, p);
    if next.Ok? && next.value.token != Eof {
      var rest := TokensFrom(classes, buf, hashbang, strict, next.value.loc.end);
      if rest.Ok? { assert tokens + ([next.value] + rest.value) == (tokens + [next.value]) + rest.value; }
    }
  }

  // What the tokens of a source cover.

  /** A token is the one behind the trivia after the token before it, and the end exactly if it is the last. */
  ghost predicate CoversAt(
    classes: Classes, buf: seq<Byte>, hashbang: bool, strict: bool, p: nat, tokens: seq<Placed>, i: nat)
    requires i < |tokens|
  {
    var start := if i == 0 then p else tokens[i - 1].loc.end;
    && start <= |buf| && NextAt(classes, buf, hashbang, strict, start) == Ok(tokens[i])
    && (tokens[i].token == Eof <==> i == |tokens| - 1)
  }

  ghost predicate Covers(classes: Classes, buf: seq<Byte>, hashbang: bool, strict: bool, p: nat, tokens: seq<Placed>) {
    tokens != [] && forall i | 0 <= i < |tokens| :: CoversAt(classes, buf, hashbang, strict, p, tokens, i)
  }

  lemma CoversRest(
    classes: Classes, buf: seq<Byte>, hashbang: bool, strict: bool, p: nat, tokens: seq<Placed>)
    requires p <= |buf| && tokens != [] && tokens[0].token != Eof
    requires NextAt(classes, buf, hashbang, strict, p) == Ok(tokens[0])
    ensures Covers(classes, buf, hashbang, strict, p, tokens)
      <==> Covers(classes, buf, hashbang, strict, tokens[0].loc.end, tokens[1..])
  {
    hide NextAt;
    var rest, end := tokens[1..], tokens[0].loc.end;
    forall i | 0 <= i < |rest|
      ensures CoversAt(classes, buf, hashbang, strict, end, rest, i)
        <==> CoversAt(classes, buf, hashbang, strict, p, tokens, i + 1)
    {
    }
    assert rest != [] ==> CoversAt(classes, buf, hashbang, strict, p, tokens, 0);
    assert rest == [] ==> !CoversAt(classes, buf, hashbang, strict, p, tokens, 0);
    hide CoversAt;
    if Covers(classes, buf, hashbang, strict, end, rest) {
      forall i | 0 <= i < |tokens|
        ensures CoversAt(classes, buf, hashbang, strict, p, tokens, i)
      {
        if i > 0 { assert CoversAt(classes, buf, hashbang, strict, end, rest, i - 1); }
      }
    }
  }

  /** Lexing succeeds with exactly the tokens that cover the source. */
  lemma {:induction false} CoversMeaning(
    classes: Classes, buf: seq<Byte>, hashbang: bool, strict: bool, p: nat, tokens: seq<Placed>)
    requires p <= |buf|
    ensures TokensFrom(classes, buf, hashbang, strict, p) == Ok(tokens)
      <==> Covers(classes, buf, hashbang, strict, p, tokens)
    decreases |buf| - p
  {
    hide NextAt, Covers, TokensFrom;
    if tokens != [] && NextAt(classes, buf, hashbang, strict, p) == Ok(tokens[0]) {
      if tokens[0].token != Eof {
        CoversMeaning(classes, buf, hashbang, strict, tokens[0].loc.end, tokens[1..]);
        CoversRest(classes, buf, hashbang, strict, p, tokens);
        TokensRest(classes, buf, hashbang, strict, p, tokens);
      } else {
        OnlyTheEnd(classes, buf, hashbang, strict, p, tokens);
      }
    } else {
      NotCovered(classes, buf, hashbang, strict, p, tokens);
    }
  }

  lemma TokensRest(
    classes: Classes, buf: seq<Byte>, hashbang: bool, strict: bool, p: nat, tokens: seq<Placed>)
    requires p <= |buf| && tokens != [] && tokens[0].token != Eof
    requires NextAt(classes, buf, hashbang, strict, p) == Ok(tokens[0])
    ensures TokensFrom(classes, buf, hashbang, strict, p) == Ok(tokens)
      <==> TokensFrom(classes, buf, hashbang, strict, tokens[0].loc.end) == Ok(tokens[1..])
  {
    hide NextAt;
    assert [tokens[0]] + tokens[1..] == tokens;
    var rest := TokensFrom(classes, buf, hashbang, strict, tokens[0].loc.end);
    if rest.Ok? { assert ([tokens[0]] + rest.value)[1..] == rest.value; }
  }

  lemma NotCovered(classes: Classes, buf: seq<Byte>, hashbang: bool, strict: bool, p: nat, tokens: seq<Placed>)
    requires p <= |buf| && (tokens != [] ==> NextAt(classes, buf, hashbang, strict, p) != Ok(tokens[0]))
    ensures TokensFrom(classes, buf, hashbang, strict, p) != Ok(tokens)
    ensures !Covers(classes, buf, hashbang, strict, p, tokens)
  {
    hide NextAt;
    if tokens != [] { assert !CoversAt(classes, buf, hashbang, strict, p, tokens, 0); }
  }

  lemma OnlyTheEnd(classes: Classes, buf: seq<Byte>, hashbang: bool, strict: bool, p: nat, tokens: seq<Placed>)
    requires p <= |buf| && tokens != [] && NextAt(classes, buf, hashbang, strict, p) == Ok(tokens[0])
    requires tokens[0].token == Eof
    ensures TokensFrom(classes, buf, hashbang, strict, p) == Ok(tokens)
      <==> Covers(classes, buf, hashbang, strict, p, tokens)
  {
    hide NextAt;
    if |tokens| > 1 {
      assert !CoversAt(classes, buf, hashbang, strict, p, tokens, 0);
    } else {
      assert tokens == [tokens[0]];
    }
  }

  lemma PlaceCovered(
    classes: Classes, buf: seq<Byte>, hashbang: bool, strict: bool, p: nat, tokens: seq<Placed>, i: nat)
    requires i < |tokens| && CoversAt(classes, buf, hashbang, strict, p, tokens, i)
    ensures
      var loc := tokens[i].loc;
      && (i > 0 ==> tokens[i - 1].loc.end <= loc.start) && loc.start <= loc.end <= |buf|
      && if i == |tokens| - 1 then loc == Loc(|buf|, |buf|) else loc.start < loc.end
  {
    hide NextAt;
  }

  /** The places of the tokens are in order, do not overlap, and end with the source. */
  lemma {:induction false} CoveringIsOrdered(
    classes: Classes, buf: seq<Byte>, hashbang: bool, strict: bool, p: nat, tokens: seq<Placed>, i: nat, j: nat)
    requires Covers(classes, buf, hashbang, strict, p, tokens) && i < j < |tokens|
    ensures tokens[i].loc.start < tokens[i].loc.end <= tokens[j].loc.start <= tokens[j].loc.end <= |buf|
    ensures j == |tokens| - 1 ==> tokens[j].loc == Loc(|buf|, |buf|)
  {
    hide CoversAt;
    PlaceCovered(classes, buf, hashbang, strict, p, tokens, i);
    PlaceCovered(classes, buf, hashbang, strict, p, tokens, j);
    if i < j - 1 { CoveringIsOrdered(classes, buf, hashbang, strict, p, tokens, i, j - 1); }
  }
}
