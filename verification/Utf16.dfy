/**
  UTF-16 over arbitrary code units, lone surrogates included.

  The reference says position by position where a code point starts, with no reading order: everywhere but
  between a high and a low surrogate. The readers of the repository, forward and backward, must agree
  with it.
 */
module Utf16 {
  import opened Options
  import opened Unicode

  // The reference.

  predicate PairAt(u: seq<CodeUnit>, i: int) {
    0 <= i && i + 1 < |u| && IsHigh(u[i]) && IsLow(u[i + 1])
  }

  predicate Boundary(u: seq<CodeUnit>, i: int) {
    0 <= i <= |u| && !PairAt(u, i - 1)
  }

  function PointAt(u: seq<CodeUnit>, i: nat): CodePoint
    requires i < |u|
  {
    if PairAt(u, i) then FromPair(u[i], u[i + 1]) else u[i]
  }

  /** The code points that start before position `n`. */
  function Starting(u: seq<CodeUnit>, n: nat): seq<CodePoint>
    requires n <= |u|
  {
    if n == 0 then [] else Starting(u, n - 1) + if Boundary(u, n - 1) then [PointAt(u, n - 1)] else []
  }

  function Decode(u: seq<CodeUnit>): seq<CodePoint> {
    Starting(u, |u|)
  }

  function Encode(c: CodePoint): seq<CodeUnit>
    requires c <= MAX_CODE_POINT
  {
    if c <= BMP_END then [c] else [ToPair(c).0, ToPair(c).1]
  }

  function EncodeAll(cs: seq<CodePoint>): seq<CodeUnit>
    requires InRange(cs)
  {
    if cs == [] then [] else EncodeAll(cs[..|cs| - 1]) + Encode(cs[|cs| - 1])
  }

  // The readers.

  datatype Saved = Saved(current: CodePoint, pos: nat)

  class CodePointStream {
    const buf: seq<CodeUnit>
    var pos: nat
    var current: CodePoint

    /** The position is in the buffer, and the current unit marks the end exactly at its end. */
    ghost predicate Valid()
      reads this
    {
      pos <= |buf| && (current == EOF_CHAR <==> pos == |buf|)
    }

    /** The first unit is not decoded here, unlike later ones. */
    constructor (buf: seq<CodeUnit>)
      ensures Valid() && this.buf == buf && pos == 0
    {
      this.buf := buf;
      pos := 0;
      current := if buf == [] then EOF_CHAR else buf[0];
    }

    method CodePointAt(index: nat) returns (c: CodePoint, length: nat)
      requires index < |buf|
      ensures c == PointAt(buf, index)
      ensures length == if PairAt(buf, index) then 2 else 1
    {
      var unit := buf[index];
      if IsHigh(unit) && index + 1 < |buf| {
        var next := buf[index + 1];
        if IsLow(next) {
          return FromPair(unit, next), 2;
        }
      }
      return unit, 1;
    }

    /** The code point that ends at a boundary starts at a boundary; inside a pair it is the high surrogate alone. */
    method CodePointBefore(index: nat) returns (c: CodePoint, length: nat)
      requires 1 <= index <= |buf|
      ensures 1 <= length <= index
      ensures Boundary(buf, index) ==>
        Boundary(buf, index - length) && c == PointAt(buf, index - length)
        && length == if PairAt(buf, index - length) then 2 else 1
      ensures !Boundary(buf, index) ==> length == 1 && c == buf[index - 1] && PairAt(buf, index - 1)
    {
      var unit := buf[index - 1];
      if IsLow(unit) && index >= 2 {
        var previous := buf[index - 2];
        if IsHigh(previous) {
          return FromPair(previous, unit), 2;
        }
      }
      return unit, 1;
    }

    method AdvanceN(n: nat)
      requires pos <= |buf|
      modifies this
      ensures Valid() && pos == if old(pos) + n < |buf| then old(pos) + n else |buf|
      ensures pos < |buf| ==> current == PointAt(buf, pos)
    {
      pos := pos + n;
      if pos < |buf| {
        var length;
        current, length := CodePointAt(pos);
        PointIsInRange(buf, pos);
      } else {
        current := EOF_CHAR;
        pos := |buf|;
      }
    }

    /** One code point, or none at the end, where parsing is an error. */
    method ParseCodePoint() returns (r: Option<CodePoint>)
      requires Valid()
      modifies this
      ensures Valid()
      ensures old(pos) == |buf| ==> r == None && pos == old(pos)
      ensures old(pos) < |buf| ==>
        r == Some(PointAt(buf, old(pos))) && pos == old(pos) + if PairAt(buf, old(pos)) then 2 else 1
    {
      if current == EOF_CHAR { return None; }
      var c, length := CodePointAt(pos);
      AdvanceN(length);
      return Some(c);
    }

    method PeekPrevious() returns (c: CodePoint)
      requires Valid()
      ensures pos == 0 ==> c == EOF_CHAR
      ensures pos > 0 && Boundary(buf, pos) ==>
        exists i | 0 <= i < pos ::
          Boundary(buf, i) && c == PointAt(buf, i) && pos == i + if PairAt(buf, i) then 2 else 1
      ensures pos > 0 && !Boundary(buf, pos) ==> c == buf[pos - 1]
    {
      if pos == 0 { return EOF_CHAR; }
      var length;
      c, length := CodePointBefore(pos);
      assert Boundary(buf, pos) ==> Boundary(buf, pos - length);
    }

    method PeekNext() returns (c: CodePoint)
      requires Valid()
      ensures c == if pos == |buf| then EOF_CHAR else PointAt(buf, pos)
    {
      if pos == |buf| { return EOF_CHAR; }
      var length;
      c, length := CodePointAt(pos);
    }

    method Save() returns (r: Saved)
      ensures r == Saved(current, pos)
    {
      r := Saved(current, pos);
    }

    /** Going back to a saved place of the same stream makes it valid again. */
    method Restore(saved: Saved)
      requires saved.pos <= |buf| && (saved.current == EOF_CHAR <==> saved.pos == |buf|)
      modifies this
      ensures Valid() && pos == saved.pos && current == saved.current
    {
      current := saved.current;
      pos := saved.pos;
    }

    /** Parsing to the end gives the reference. */
    method ParseAll() returns (cs: seq<CodePoint>)
      requires Valid() && pos == 0
      modifies this
      ensures cs == Decode(buf) && pos == |buf|
    {
      cs := [];
      while true
        invariant Valid() && Boundary(buf, pos) && cs == Starting(buf, pos)
        decreases |buf| - pos
      {
        ghost var start := pos;
        var c := ParseCodePoint();
        if c.None? { break; }
        StartingStep(buf, start);
        cs := cs + [c.value];
      }
    }

    /** Stepping back from the end passes the same code points in reverse order. */
    method ParseAllBackward() returns (cs: seq<CodePoint>)
      ensures cs == Decode(buf)
    {
      cs := [];
      var index := |buf|;
      while index > 0
        invariant Boundary(buf, index) && Starting(buf, index) + cs == Decode(buf)
      {
        var c, length := CodePointBefore(index);
        StartingStep(buf, index - length);
        assert (Starting(buf, index - length) + [c]) + cs == Starting(buf, index - length) + ([c] + cs);
        cs := [c] + cs;
        index := index - length;
      }
    }
  }

  /** The units between a front and a back end. */
  class CodeUnitIterator {
    const units: seq<CodeUnit>
    var start: nat
    var end: nat

    ghost predicate Valid()
      reads this
    {
      start <= end <= |units|
    }

    ghost function Rest(): seq<CodeUnit>
      requires Valid()
      reads this
    {
      units[start..end]
    }

    constructor (units: seq<CodeUnit>)
      ensures Valid() && Rest() == units
    {
      this.units := units;
      start, end := 0, |units|;
    }

    method Next() returns (r: Option<CodeUnit>)
      requires Valid()
      modifies this
      ensures Valid()
      ensures old(Rest()) == [] ==> r == None && Rest() == []
      ensures old(Rest()) != [] ==> r == Some(old(Rest())[0]) && Rest() == old(Rest())[1..]
    {
      if start == end { return None; }
      r := Some(units[start]);
      start := start + 1;
    }

    method Peek() returns (r: Option<CodeUnit>)
      requires Valid()
      ensures r == if Rest() == [] then None else Some(Rest()[0])
    {
      if start == end { return None; }
      return Some(units[start]);
    }
  }

  class CodePointIterator {
    const iter: CodeUnitIterator

    constructor (iter: CodeUnitIterator)
      ensures this.iter == iter
    {
      this.iter := iter;
    }

    method Next() returns (r: Option<CodePoint>)
      requires iter.Valid()
      modifies iter
      ensures iter.Valid()
      ensures old(iter.Rest()) == [] ==> r == None && iter.Rest() == []
      ensures old(iter.Rest()) != [] ==>
        && r == Some(PointAt(old(iter.Rest()), 0))
        && iter.Rest() == old(iter.Rest())[if PairAt(old(iter.Rest()), 0) then 2 else 1..]
    {
      var first := iter.Next();
      match first {
        case None => return None;
        case Some(unit) =>
          if IsHigh(unit) {
            var next := iter.Peek();
            if next.Some? && IsLow(next.value) {
              var skipped := iter.Next();
              return Some(FromPair(unit, next.value));
            }
          }
          return Some(unit);
      }
    }
  }

  /** Iterating to the end gives the reference. */
  method IterateAll(u: seq<CodeUnit>) returns (cs: seq<CodePoint>)
    ensures cs == Decode(u)
  {
    var units := new CodeUnitIterator(u);
    var iter := new CodePointIterator(units);
    ghost var n := 0;
    cs := [];
    while true
      invariant iter.iter == units && units.Valid() && Boundary(u, n) && units.Rest() == u[n..] && cs == Starting(u, n)
      decreases |u| - n
    {
      var c := iter.Next();
      if c.None? { break; }
      StartingStep(u, n);
      SuffixPoint(u, n);
      cs := cs + [c.value];
      n := n + if PairAt(u, n) then 2 else 1;
    }
  }

  method EncodeCodePoint(buf: array<CodeUnit>, c: CodePoint) returns (n: nat)
    requires c <= MAX_CODE_POINT && |Encode(c)| <= buf.Length
    modifies buf
    ensures n == |Encode(c)| && buf[..n] == Encode(c) && buf[n..] == old(buf[n..])
  {
    if c <= BMP_END {
      buf[0] := c;
      n := 1;
    } else {
      var offset := c - 0x1_0000;
      buf[0] := offset / 0x400 + HIGH_START;
      buf[1] := offset % 0x400 + LOW_START;
      n := 2;
    }
  }

  // Laws.

  lemma PointIsInRange(u: seq<CodeUnit>, i: nat)
    requires i < |u|
    ensures PointAt(u, i) <= MAX_CODE_POINT
  {
  }

  /** The code point at a boundary is the only one that starts before the next boundary. */
  lemma StartingStep(u: seq<CodeUnit>, i: nat)
    requires i < |u| && Boundary(u, i)
    ensures
      var next := i + if PairAt(u, i) then 2 else 1;
      Boundary(u, next) && Starting(u, next) == Starting(u, i) + [PointAt(u, i)]
  {
    if PairAt(u, i) {
      assert Starting(u, i + 2) == Starting(u, i + 1) + [];
    }
  }

  lemma SuffixPoint(u: seq<CodeUnit>, n: nat)
    requires n < |u|
    ensures PointAt(u[n..], 0) == PointAt(u, n) && PairAt(u[n..], 0) == PairAt(u, n)
  {
  }

  lemma {:induction false} StartingInRange(u: seq<CodeUnit>, n: nat)
    requires n <= |u|
    ensures InRange(Starting(u, n))
  {
    if n > 0 {
      StartingInRange(u, n - 1);
      PointIsInRange(u, n - 1);
    }
  }

  /** Decoding loses nothing. */
  lemma EncodesBack(u: seq<CodeUnit>)
    ensures InRange(Decode(u)) && EncodeAll(Decode(u)) == u
  {
    StartingInRange(u, |u|);
    EncodesPrefixBack(u, |u|);
    assert u[..|u|] == u;
  }

  lemma EncodeAllSnoc(cs: seq<CodePoint>, c: CodePoint)
    requires InRange(cs) && c <= MAX_CODE_POINT
    ensures EncodeAll(cs + [c]) == EncodeAll(cs) + Encode(c)
  {
    assert (cs + [c])[..|cs|] == cs;
  }

  lemma EncodesPoint(u: seq<CodeUnit>, i: nat)
    requires i < |u|
    ensures PointAt(u, i) <= MAX_CODE_POINT
    ensures Encode(PointAt(u, i)) == u[i..i + if PairAt(u, i) then 2 else 1]
  {
    if PairAt(u, i) {
      PairRoundTrip(u[i], u[i + 1]);
    }
  }

  /** Every boundary but the first is where a code point that starts at a boundary ends. */
  lemma BoundaryBefore(u: seq<CodeUnit>, n: nat) returns (i: nat)
    requires n > 0 && Boundary(u, n)
    ensures i < n && Boundary(u, i) && n == i + if PairAt(u, i) then 2 else 1
    ensures Starting(u, n) == Starting(u, i) + [PointAt(u, i)]
  {
    i := if PairAt(u, n - 2) then n - 2 else n - 1;
    StartingStep(u, i);
  }

  lemma {:induction false} EncodesPrefixBack(u: seq<CodeUnit>, n: nat)
    requires Boundary(u, n)
    ensures InRange(Starting(u, n)) && EncodeAll(Starting(u, n)) == u[..n]
  {
    StartingInRange(u, n);
    if n > 0 {
      hide EncodeAll, Encode, Starting, PointAt, PairAt;
      var i := BoundaryBefore(u, n);
      EncodesPrefixBack(u, i);
      EncodesPoint(u, i);
      EncodeAllSnoc(Starting(u, i), PointAt(u, i));
      assert u[..n] == u[..i] + u[i..n];
    }
  }

  /** No high surrogate code point directly before a low one. */
  predicate NoSplitPair(cs: seq<CodePoint>) {
    forall i | 0 <= i < |cs| - 1 :: !(IsHigh(cs[i]) && IsLow(cs[i + 1]))
  }

  /** Code points survive encoding exactly when no two of them would merge. */
  lemma DecodesBack(cs: seq<CodePoint>)
    requires InRange(cs)
    ensures Decode(EncodeAll(cs)) == cs <==> NoSplitPair(cs)
  {
    if NoSplitPair(cs) {
      DecodesUnsplit(cs);
    }
    var u := EncodeAll(cs);
    StartingUnsplit(u, |u|);
  }

  lemma {:induction false} StartingUnsplit(u: seq<CodeUnit>, n: nat)
    requires Boundary(u, n)
    ensures
      var cs := Starting(u, n);
      NoSplitPair(cs) && (n > 0 ==> cs != [] && (IsHigh(cs[|cs| - 1]) ==> IsHigh(u[n - 1])))
  {
    if n > 0 {
      var i := if PairAt(u, n - 2) then n - 2 else n - 1;
      StartingUnsplit(u, i);
      StartingStep(u, i);
      assert IsLow(PointAt(u, i)) ==> IsLow(u[i]);
    }
  }

  /** Units after a boundary do not change what starts before it. */
  lemma {:induction false} StartingExtends(u: seq<CodeUnit>, v: seq<CodeUnit>, n: nat)
    requires n <= |u| && !PairAt(u + v, |u| - 1)
    ensures Starting(u + v, n) == Starting(u, n)
  {
    if n > 0 {
      StartingExtends(u, v, n - 1);
      assert PairAt(u + v, n - 1) == PairAt(u, n - 1) && PairAt(u + v, n - 2) == PairAt(u, n - 2);
    }
  }

  lemma {:induction false} DecodesUnsplit(cs: seq<CodePoint>)
    requires InRange(cs) && NoSplitPair(cs)
    ensures
      var u := EncodeAll(cs);
      Decode(u) == cs && (cs != [] ==> u != [] && (IsHigh(u[|u| - 1]) ==> IsHigh(cs[|cs| - 1])))
  {
    if cs != [] {
      var before, c := cs[..|cs| - 1], cs[|cs| - 1];
      DecodesUnsplit(before);
      var u := EncodeAll(before);
      assert before != [] ==> before[|before| - 1] == cs[|cs| - 2];
      assert EncodeAll(cs) == u + Encode(c);
      hide EncodeAll;
      DecodesSnoc(u, c);
      assert before + [c] == cs;
    }
  }

  lemma DecodesSnoc(u: seq<CodeUnit>, c: CodePoint)
    requires c <= MAX_CODE_POINT
    requires u != [] && IsHigh(u[|u| - 1]) ==> !IsLow(c)
    ensures Decode(u + Encode(c)) == Decode(u) + [c]
  {
    var v := Encode(c);
    assert !PairAt(u + v, |u| - 1);
    StartingExtends(u, v, |u|);
    StartingStep(u + v, |u|);
  }

  /** Two surrogate code points that merge into one. */
  lemma SplitPairMerges()
    ensures !NoSplitPair([0xD800, 0xDC00]) && Decode(EncodeAll([0xD800, 0xDC00])) == [0x1_0000]
  {
    var cs: seq<CodePoint>, u: seq<CodeUnit> := [0xD800, 0xDC00], [0xD800, 0xDC00];
    assert IsHigh(cs[0]) && IsLow(cs[0 + 1]);
    EncodeAllSnoc([], cs[0]);
    EncodeAllSnoc([cs[0]], cs[1]);
    hide EncodeAll;
    assert [] + [cs[0]] == [cs[0]] && [cs[0]] + [cs[1]] == cs;
    StartingStep(u, 0);
    hide Starting;
    assert FromPair(u[0], u[1]) == 0x1_0000;
  }

  /** A string of Latin-1 units decodes to itself. */
  lemma {:induction false} Latin1DecodesToItself(u: seq<CodeUnit>, n: nat)
    requires n <= |u| && forall i | 0 <= i < |u| :: u[i] <= 0xFF
    ensures Starting(u, n) == u[..n]
  {
    if n > 0 {
      Latin1DecodesToItself(u, n - 1);
      assert u[..n] == u[..n - 1] + [u[n - 1]];
    }
  }
}
