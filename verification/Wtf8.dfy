/**
  Generalized UTF-8: the layout of section 3 of RFC 3629, with surrogate code points allowed.

  The decoder accepts every well-laid-out sequence, overlong or out of range included, and a string is
  read by decoding one code point after another.
 */
module Wtf8 {
  import opened Options
  import opened Unicode

  /** The continuation byte that carries six bits. */
  function Tail(bits: nat): Byte {
    0x80 + bits % 0x40
  }

  predicate IsContinuation(b: Byte) {
    b / 0x40 == 2
  }

  function ByteCount(c: CodePoint): nat
    requires c <= MAX_CODE_POINT
  {
    if c < 0x80 then 1 else if c <= 0x7FF then 2 else if c <= 0xFFFF then 3 else 4
  }

  function Encode(c: CodePoint): (r: seq<Byte>)
    requires c <= MAX_CODE_POINT
    ensures |r| == ByteCount(c)
  {
    if c < 0x80 then [c]
    else if c <= 0x7FF then [0xC0 + c / 0x40, Tail(c)]
    else if c <= 0xFFFF then [0xE0 + c / 0x1000, Tail(c / 0x40), Tail(c)]
    else [0xF0 + c / 0x4_0000, Tail(c / 0x1000), Tail(c / 0x40), Tail(c)]
  }

  /** A code point extended by the six bits of a continuation byte. */
  function Join(high: nat, b: Byte): nat {
    high * 0x40 + b % 0x40
  }

  datatype Decoded = Ok(codePoint: CodePoint, length: nat) | Err(length: nat)

  /** Decoding at a byte that is not ASCII. */
  function Decode(buf: seq<Byte>): (r: Decoded)
    requires buf != []
    ensures r.Ok? ==> 2 <= r.length <= |buf|
  {
    var b1 := buf[0];
    if b1 / 0x20 == 6 && |buf| >= 2 then
      if !IsContinuation(buf[1]) then Err(2)
      else Ok(Join(b1 % 0x20, buf[1]), 2)
    else if b1 / 0x10 == 0xE && |buf| >= 3 then
      if !IsContinuation(buf[1]) || !IsContinuation(buf[2]) then Err(3)
      else Ok(Join(Join(b1 % 0x10, buf[1]), buf[2]), 3)
    else if b1 / 8 == 0x1E && |buf| >= 4 then
      if !IsContinuation(buf[1]) || !IsContinuation(buf[2]) || !IsContinuation(buf[3]) then Err(4)
      else Ok(Join(Join(Join(b1 % 8, buf[1]), buf[2]), buf[3]), 4)
    else Err(1)
  }

  /** One step of reading a string, ASCII bytes included. */
  function Step(buf: seq<Byte>): (r: Decoded)
    requires buf != []
    ensures r.Ok? ==> 1 <= r.length <= |buf|
  {
    if buf[0] < 0x80 then Ok(buf[0], 1) else Decode(buf)
  }

  function Prepend(c: CodePoint, rest: Option<seq<CodePoint>>): Option<seq<CodePoint>> {
    if rest.None? then None else Some([c] + rest.value)
  }

  /** The code points of a string, or none if some step fails. */
  function CodePoints(buf: seq<Byte>): Option<seq<CodePoint>>
    decreases |buf|
  {
    if buf == [] then Some([])
    else
      var d := Step(buf);
      if d.Err? then None else Prepend(d.codePoint, CodePoints(buf[d.length..]))
  }

  function EncodeAll(cs: seq<CodePoint>): seq<Byte>
    requires InRange(cs)
  {
    if cs == [] then [] else Encode(cs[0]) + EncodeAll(cs[1..])
  }

  // Encoding into a buffer.

  method EncodeCodePoint(buf: array<Byte>, c: CodePoint) returns (n: nat)
    requires c <= MAX_CODE_POINT && ByteCount(c) <= buf.Length
    modifies buf
    ensures n == ByteCount(c) && buf[..n] == Encode(c) && buf[n..] == old(buf[n..])
  {
    if c < 0x80 && buf.Length > 0 {
      buf[0] := c;
      n := 1;
    } else if c <= 0x7FF && buf.Length >= 2 {
      buf[0] := 0xC0 + c / 0x40;
      buf[1] := 0x80 + c % 0x40;
      n := 2;
    } else if c <= 0xFFFF && buf.Length >= 3 {
      buf[0] := 0xE0 + c / 0x1000;
      buf[1] := 0x80 + c / 0x40 % 0x40;
      buf[2] := 0x80 + c % 0x40;
      n := 3;
    } else {
      buf[0] := 0xF0 + c / 0x4_0000;
      buf[1] := 0x80 + c / 0x1000 % 0x40;
      buf[2] := 0x80 + c / 0x40 % 0x40;
      buf[3] := 0x80 + c % 0x40;
      n := 4;
    }
  }

  class Wtf8String {
    var buf: seq<Byte>

    constructor ()
      ensures buf == []
    {
      buf := [];
    }

    method Push(c: CodePoint)
      requires c <= MAX_CODE_POINT
      modifies this
      ensures buf == old(buf) + Encode(c)
    {
      var bytes := new Byte[4](_ => 0);
      var n := EncodeCodePoint(bytes, c);
      buf := buf + bytes[..n];
    }

    method PushBytes(bytes: seq<Byte>)
      modifies this
      ensures buf == old(buf) + bytes
    {
      buf := buf + bytes;
    }
  }

  class CodePointsIterator {
    var buf: seq<Byte>

    constructor (buf: seq<Byte>)
      ensures this.buf == buf
    {
      this.buf := buf;
    }

    /** The next code point. A string that does not decode is a panic, so it may not be passed in. */
    method Next() returns (r: Option<CodePoint>)
      requires buf != [] ==> Step(buf).Ok?
      modifies this
      ensures old(buf) == [] ==> r == None && buf == []
      ensures old(buf) != [] ==> r == Some(Step(old(buf)).codePoint) && buf == old(buf)[Step(old(buf)).length..]
    {
      if buf == [] { return None; }
      var first := buf[0];
      if first < 0x80 {
        buf := buf[1..];
        return Some(first);
      }
      var d := Decode(buf);
      buf := buf[d.length..];
      return Some(d.codePoint);
    }
  }

  /** Iterating to the end of a string that decodes. */
  method ReadAll(buf: seq<Byte>) returns (read: seq<CodePoint>)
    requires CodePoints(buf).Some?
    ensures read == CodePoints(buf).value
  {
    hide Step;
    ghost var all := CodePoints(buf).value;
    var iter := new CodePointsIterator(buf);
    read := [];
    while true
      invariant CodePoints(iter.buf).Some? && read + CodePoints(iter.buf).value == all
      decreases |iter.buf|
    {
      ghost var rest := CodePoints(iter.buf).value;
      var next := iter.Next();
      if next.None? { break; }
      assert rest == [next.value] + CodePoints(iter.buf).value;
      read := read + [next.value];
    }
  }

  /** Pushing code points one by one and reading them back. */
  method PushAndRead(cs: seq<CodePoint>) returns (read: seq<CodePoint>)
    requires InRange(cs)
    ensures read == cs
  {
    hide CodePoints;
    var s := new Wtf8String();
    for i := 0 to |cs|
      invariant s.buf == EncodeAll(cs[..i])
    {
      EncodeAllSnoc(cs[..i], cs[i]);
      assert cs[..i + 1] == cs[..i] + [cs[i]];
      s.Push(cs[i]);
    }
    assert cs[..|cs|] == cs;
    RoundTrip(cs);
    read := ReadAll(s.buf);
  }

  // Laws.

  lemma TailParts(bits: nat)
    ensures IsContinuation(Tail(bits)) && Tail(bits) % 0x40 == bits % 0x40
    ensures Join(bits / 0x40, Tail(bits)) == bits
  {
  }

  lemma Leads(c: CodePoint)
    requires 0x80 <= c <= MAX_CODE_POINT
    ensures c <= 0x7FF ==> (0xC0 + c / 0x40) / 0x20 == 6 && (0xC0 + c / 0x40) % 0x20 == c / 0x40
    ensures 0x7FF < c <= 0xFFFF ==> (0xE0 + c / 0x1000) / 0x10 == 0xE && (0xE0 + c / 0x1000) % 0x10 == c / 0x40 / 0x40
    ensures 0xFFFF < c ==>
      && (0xF0 + c / 0x4_0000) / 8 == 0x1E && (0xF0 + c / 0x4_0000) % 8 == c / 0x1000 / 0x40
      && c / 0x1000 == c / 0x40 / 0x40
  {
  }

  lemma StepInvertsEncode(c: CodePoint, rest: seq<Byte>)
    requires c <= MAX_CODE_POINT
    ensures Step(Encode(c) + rest) == Ok(c, ByteCount(c))
  {
    hide Tail, IsContinuation, Join;
    var buf := Encode(c) + rest;
    if c >= 0x80 {
      Leads(c);
      TailParts(c);
      TailParts(c / 0x40);
      TailParts(c / 0x1000);
      assert forall i | 0 <= i < ByteCount(c) :: buf[i] == Encode(c)[i];
    }
  }

  /** Reading back encoded code points, surrogates included, gives them back. */
  lemma {:induction false} RoundTrip(cs: seq<CodePoint>)
    requires InRange(cs)
    ensures CodePoints(EncodeAll(cs)) == Some(cs)
  {
    if cs != [] {
      StepInvertsEncode(cs[0], EncodeAll(cs[1..]));
      hide Encode, Step;
      assert EncodeAll(cs) != [];
      assert EncodeAll(cs)[ByteCount(cs[0])..] == EncodeAll(cs[1..]);
      RoundTrip(cs[1..]);
      assert [cs[0]] + cs[1..] == cs;
    }
  }

  lemma {:induction false} EncodeAllSnoc(cs: seq<CodePoint>, c: CodePoint)
    requires InRange(cs) && c <= MAX_CODE_POINT
    ensures EncodeAll(cs + [c]) == EncodeAll(cs) + Encode(c)
  {
    if cs == [] {
      assert Encode(c) + [] == Encode(c);
    } else {
      assert (cs + [c])[1..] == cs[1..] + [c];
      EncodeAllSnoc(cs[1..], c);
    }
  }

  /** A step that succeeds does not look past the bytes it consumes. */
  lemma StepIsLocal(a: seq<Byte>, b: seq<Byte>)
    requires a != [] && Step(a).Ok?
    ensures Step(a + b) == Step(a)
  {
    assert forall i | 0 <= i < |a| :: (a + b)[i] == a[i];
  }

  /** Reading distributes over concatenation, once the first part can be read. */
  lemma {:induction false} ReadsConcatenation(a: seq<Byte>, b: seq<Byte>)
    requires CodePoints(a).Some?
    ensures CodePoints(a + b) ==
      if CodePoints(b).None? then None else Some(CodePoints(a).value + CodePoints(b).value)
    decreases |a|
  {
    hide Step;
    if a == [] {
      assert a + b == b;
      if CodePoints(b).Some? { assert [] + CodePoints(b).value == CodePoints(b).value; }
    } else {
      var d, rest := Step(a), a[Step(a).length..];
      ReadsConcatenation(rest, b);
      assert CodePoints(a + b) == Prepend(d.codePoint, CodePoints(rest + b)) by {
        StepIsLocal(a, b);
        assert (a + b)[d.length..] == rest + b;
      }
      assert CodePoints(a) == Prepend(d.codePoint, CodePoints(rest));
      hide CodePoints;
      if CodePoints(b).Some? {
        var x, y := CodePoints(rest).value, CodePoints(b).value;
        assert [d.codePoint] + (x + y) == ([d.codePoint] + x) + y;
      }
    }
  }

  /**
    A decoded sequence is what its code point encodes to exactly when the code point is in range and
    the sequence is not longer than it has to be.
   */
  lemma DecodedIsCanonical(buf: seq<Byte>)
    requires buf != [] && Decode(buf).Ok?
    ensures
      var d := Decode(buf);
      (d.codePoint <= MAX_CODE_POINT && Encode(d.codePoint) == buf[..d.length])
      <==> (d.codePoint <= MAX_CODE_POINT && ByteCount(d.codePoint) == d.length)
  {
    var d := Decode(buf);
    if d.codePoint <= MAX_CODE_POINT && ByteCount(d.codePoint) == d.length {
      hide Tail, IsContinuation, Join;
      if d.length == 2 { TwoBytes(buf); }
      if d.length == 3 { ThreeBytes(buf); }
      if d.length == 4 { FourBytes(buf); }
    }
  }

  lemma TwoBytes(buf: seq<Byte>)
    requires |buf| >= 2 && Decode(buf).Ok? && Decode(buf).length == 2 && 0x80 <= Decode(buf).codePoint <= 0x7FF
    ensures Encode(Decode(buf).codePoint) == buf[..2]
  {
    hide Tail, IsContinuation, Join;
    JoinParts(buf[0] % 0x20, buf[1]);
  }

  lemma ThreeBytes(buf: seq<Byte>)
    requires |buf| >= 3 && Decode(buf).Ok? && Decode(buf).length == 3 && 0x7FF < Decode(buf).codePoint <= 0xFFFF
    ensures Encode(Decode(buf).codePoint) == buf[..3]
  {
    hide Tail, IsContinuation, Join;
    JoinParts(buf[0] % 0x10, buf[1]);
    JoinParts(Join(buf[0] % 0x10, buf[1]), buf[2]);
    Sixths(Decode(buf).codePoint);
  }

  lemma FourBytes(buf: seq<Byte>)
    requires |buf| >= 4 && Decode(buf).Ok? && Decode(buf).length == 4
    requires 0xFFFF < Decode(buf).codePoint <= MAX_CODE_POINT
    ensures Encode(Decode(buf).codePoint) == buf[..4]
  {
    hide Tail, IsContinuation, Join;
    JoinParts(buf[0] % 8, buf[1]);
    JoinParts(Join(buf[0] % 8, buf[1]), buf[2]);
    JoinParts(Join(Join(buf[0] % 8, buf[1]), buf[2]), buf[3]);
    Sixths(Decode(buf).codePoint);
  }

  lemma JoinParts(high: nat, b: Byte)
    ensures Join(high, b) / 0x40 == high && Join(high, b) % 0x40 == b % 0x40
    ensures IsContinuation(b) ==> Tail(Join(high, b)) == b
  {
  }

  lemma Sixths(c: nat)
    ensures c / 0x1000 == c / 0x40 / 0x40 && c / 0x4_0000 == c / 0x40 / 0x40 / 0x40
  {
  }

  /** A string reads as code points that encode to it exactly when no step is out of range or overlong. */
  ghost predicate Canonical(buf: seq<Byte>)
    decreases |buf|
  {
    buf != [] ==>
      var d := Step(buf);
      && d.Ok? && d.codePoint <= MAX_CODE_POINT && ByteCount(d.codePoint) == d.length
      && Canonical(buf[d.length..])
  }

  lemma CanonicalMeaning(buf: seq<Byte>)
    ensures Canonical(buf) <==> exists cs :: InRange(cs) && EncodeAll(cs) == buf
  {
    if Canonical(buf) {
      var cs := CanonicalSource(buf);
    }
    if cs :| InRange(cs) && EncodeAll(cs) == buf {
      EncodedIsCanonical(cs);
    }
  }

  lemma {:induction false} CanonicalSource(buf: seq<Byte>) returns (cs: seq<CodePoint>)
    requires Canonical(buf)
    ensures InRange(cs) && EncodeAll(cs) == buf
    decreases |buf|
  {
    hide Step, Encode;
    cs := [];
    if buf != [] {
      CanonicalEncodes(buf);
      var d := Step(buf);
      var rest := CanonicalSource(buf[d.length..]);
      cs := [d.codePoint] + rest;
      assert cs[1..] == rest;
      assert buf[..d.length] + buf[d.length..] == buf;
    }
  }

  lemma {:induction false} EncodedIsCanonical(cs: seq<CodePoint>)
    requires InRange(cs)
    ensures Canonical(EncodeAll(cs))
  {
    if cs != [] {
      StepInvertsEncode(cs[0], EncodeAll(cs[1..]));
      EncodedIsCanonical(cs[1..]);
      hide Step, Encode;
      assert EncodeAll(cs)[ByteCount(cs[0])..] == EncodeAll(cs[1..]);
    }
  }

  lemma CanonicalEncodes(buf: seq<Byte>)
    requires buf != [] && Canonical(buf)
    ensures
      var d := Step(buf);
      && d.Ok? && d.codePoint <= MAX_CODE_POINT && ByteCount(d.codePoint) == d.length
      && Encode(d.codePoint) == buf[..d.length]
  {
    if buf[0] >= 0x80 { DecodedIsCanonical(buf); }
  }

  lemma {:induction false} EncodeAllConcat(a: seq<CodePoint>, b: seq<CodePoint>)
    requires InRange(a) && InRange(b)
    ensures EncodeAll(a + b) == EncodeAll(a) + EncodeAll(b)
  {
    hide Encode;
    if a == [] {
      assert a + b == b;
    } else {
      assert (a + b)[1..] == a[1..] + b;
      EncodeAllConcat(a[1..], b);
    }
  }

  lemma CanonicalConcat(a: seq<Byte>, b: seq<Byte>)
    requires Canonical(a) && Canonical(b)
    ensures Canonical(a + b)
  {
    var x := CanonicalSource(a);
    var y := CanonicalSource(b);
    EncodeAllConcat(x, y);
    EncodedIsCanonical(x + y);
  }

  lemma CanonicalCodePoint(c: CodePoint)
    requires c <= MAX_CODE_POINT
    ensures Canonical(Encode(c))
  {
    EncodedIsCanonical([c]);
    assert EncodeAll([c]) == Encode(c) + [];
  }
}
