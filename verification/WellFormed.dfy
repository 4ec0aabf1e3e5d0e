/** The check for unpaired surrogates runs on code points; what it decides is about UTF-16 code units. */
module WellFormed {
  import opened Options
  import opened Unicode
  import Utf16
  import Wtf8

  predicate Unpaired(u: seq<CodeUnit>, i: nat)
    requires i < |u|
  {
    (IsHigh(u[i]) && !Utf16.PairAt(u, i)) || (IsLow(u[i]) && !Utf16.PairAt(u, i - 1))
  }

  predicate IsWellFormed16(u: seq<CodeUnit>) {
    forall i | 0 <= i < |u| :: !Unpaired(u, i)
  }

  ghost predicate WellFormedPrefix(cs: seq<CodePoint>, k: nat)
    requires InRange(cs) && k <= |cs|
  {
    IsWellFormed16(Utf16.EncodeAll(cs[..k]))
  }

  /** The bytes left when `k` of the code points have been read. */
  ghost predicate Remaining(buf: seq<Byte>, cs: seq<CodePoint>, k: nat) {
    k <= |cs| && Wtf8.CodePoints(buf) == Some(cs[k..])
  }

  lemma PrefixEnds(buf: seq<Byte>, cs: seq<CodePoint>)
    requires Wtf8.CodePoints(buf) == Some(cs) && InRange(cs)
    ensures WellFormedPrefix(cs, 0) && Remaining(buf, cs, 0)
    ensures WellFormedPrefix(cs, |cs|) == IsWellFormed16(Utf16.EncodeAll(cs))
  {
    assert cs[0..] == cs && cs[..|cs|] == cs;
  }

  /** Whether a string that reads as code points has no unpaired surrogate once it is written in UTF-16. */
  method IsWellFormed(buf: seq<Byte>) returns (isWellFormed: bool)
    requires Wtf8.CodePoints(buf).Some? && InRange(Wtf8.CodePoints(buf).value)
    ensures isWellFormed == IsWellFormed16(Utf16.EncodeAll(Wtf8.CodePoints(buf).value))
  {
    hide Remaining, Wtf8.CodePoints, Utf16.EncodeAll, WellFormedPrefix, IsWellFormed16;
    ghost var cs := Wtf8.CodePoints(buf).value;
    ghost var k := 0;
    PrefixEnds(buf, cs);
    var iter := new Wtf8.CodePointsIterator(buf);
    isWellFormed := true;
    var next := ReadNext(iter, cs, k);
    while next.Some?
      invariant k <= |cs| && WellFormedPrefix(cs, k) && isWellFormed
      invariant next == if k < |cs| then Some(cs[k]) else None
      invariant Remaining(iter.buf, cs, if k < |cs| then k + 1 else k)
      decreases |cs| - k
    {
      var c := next.value;
      k := k + 1;
      if IsSurrogate(c) {
        if IsHigh(c) {
          next := ReadNext(iter, cs, k);
          if next.Some? && IsLow(next.value) {
            PairKeeps(cs, k - 1);
            k := k + 1;
            next := ReadNext(iter, cs, k);
            continue;
          }
        }
        LoneBreaks(cs, k - 1);
        isWellFormed := false;
        break;
      }
      OrdinaryKeeps(cs, k - 1);
      next := ReadNext(iter, cs, k);
    }
  }

  /** One call of the iterator, when `k` of the code points have been read. */
  method ReadNext(iter: Wtf8.CodePointsIterator, ghost cs: seq<CodePoint>, ghost k: nat)
    returns (next: Option<CodePoint>)
    requires Remaining(iter.buf, cs, k)
    modifies iter
    ensures next == if k < |cs| then Some(cs[k]) else None
    ensures Remaining(iter.buf, cs, if k < |cs| then k + 1 else k)
  {
    hide Wtf8.Step;
    ghost var before := iter.buf;
    next := iter.Next();
    if before != [] {
      assert cs[k..] == [next.value] + Wtf8.CodePoints(iter.buf).value;
      assert cs[k] == cs[k..][0] && cs[k + 1..] == cs[k..][1..];
    }
  }

  /** A prefix, one more code point, and the rest, in UTF-16. */
  lemma {:induction false} Split(cs: seq<CodePoint>, k: nat) returns (rest: seq<CodeUnit>)
    requires InRange(cs) && k < |cs|
    ensures Utf16.EncodeAll(cs) == Utf16.EncodeAll(cs[..k]) + Utf16.Encode(cs[k]) + rest
    ensures k + 1 == |cs| ==> rest == []
    ensures k + 1 < |cs| ==> rest != [] && rest[0] == Utf16.Encode(cs[k + 1])[0]
  {
    hide Utf16.Encode;
    var before := cs[..|cs| - 1];
    if k + 1 == |cs| {
      rest := [];
    } else {
      var shorter := Split(before, k);
      assert before[..k] == cs[..k];
      rest := shorter + Utf16.Encode(cs[|cs| - 1]);
      EncodedIsNonEmpty(cs[|cs| - 1]);
    }
  }

  lemma EncodedIsNonEmpty(c: CodePoint)
    requires c <= MAX_CODE_POINT
    ensures Utf16.Encode(c) != []
  {
  }

  lemma OrdinaryKeeps(cs: seq<CodePoint>, k: nat)
    requires InRange(cs) && k < |cs| && !IsSurrogate(cs[k]) && WellFormedPrefix(cs, k)
    ensures WellFormedPrefix(cs, k + 1)
  {
    assert cs[..k + 1][..k] == cs[..k];
    WellFormedConcatenation(Utf16.EncodeAll(cs[..k]), Utf16.Encode(cs[k]));
  }

  lemma PairKeeps(cs: seq<CodePoint>, k: nat)
    requires InRange(cs) && k + 1 < |cs| && IsHigh(cs[k]) && IsLow(cs[k + 1])
    requires WellFormedPrefix(cs, k)
    ensures WellFormedPrefix(cs, k + 2)
  {
    hide Utf16.EncodeAll, IsWellFormed16;
    var u := Utf16.EncodeAll(cs[..k]);
    PairIsWellFormed(cs[k], cs[k + 1]);
    WellFormedConcatenation(u, [cs[k], cs[k + 1]]);
    assert cs[..k + 1] == cs[..k] + [cs[k]] && cs[..k + 2] == cs[..k + 1] + [cs[k + 1]];
    Utf16.EncodeAllSnoc(cs[..k], cs[k]);
    Utf16.EncodeAllSnoc(cs[..k + 1], cs[k + 1]);
    assert (u + [cs[k]]) + [cs[k + 1]] == u + [cs[k], cs[k + 1]];
  }

  lemma PairIsWellFormed(high: CodeUnit, low: CodeUnit)
    requires IsHigh(high) && IsLow(low)
    ensures IsWellFormed16([high, low])
  {
  }

  lemma WellFormedConcatenation(u: seq<CodeUnit>, v: seq<CodeUnit>)
    requires IsWellFormed16(u) && IsWellFormed16(v)
    ensures IsWellFormed16(u + v)
  {
    forall i | 0 <= i < |u + v|
      ensures !Unpaired(u + v, i)
    {
      if i < |u| {
        assert !Unpaired(u, i);
      } else {
        assert !Unpaired(v, i - |u|);
      }
    }
  }

  /** A surrogate that does not start a pair, after a well-formed prefix, is unpaired whatever follows. */
  lemma LoneBreaks(cs: seq<CodePoint>, k: nat)
    requires InRange(cs) && k < |cs| && IsSurrogate(cs[k]) && WellFormedPrefix(cs, k)
    requires IsHigh(cs[k]) && k + 1 < |cs| ==> !IsLow(cs[k + 1])
    ensures !IsWellFormed16(Utf16.EncodeAll(cs))
  {
    var rest := Split(cs, k);
    var u, all := Utf16.EncodeAll(cs[..k]), Utf16.EncodeAll(cs);
    if u != [] {
      assert !Unpaired(u, |u| - 1);
    }
    assert all[|u|] == cs[k];
    assert Unpaired(all, |u|);
  }
}
