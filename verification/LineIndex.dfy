/** Line and column numbers from an index of line starts. */
module LineIndex {
  import opened Options
  import opened Unicode

  const LINE_FEED: Byte := 10
  const U32_END: nat := 0x1_0000_0000

  function LineFeeds(s: seq<Byte>): nat {
    if s == [] then 0 else LineFeeds(s[..|s| - 1]) + if s[|s| - 1] == LINE_FEED then 1 else 0
  }

  predicate IsLineStart(source: seq<Byte>, p: nat) {
    p <= |source| && (p == 0 || source[p - 1] == '\n' as Byte)
  }

  /** The line starts up to position `n`, in order. */
  function LineStarts(source: seq<Byte>, n: nat): seq<nat>
    requires n <= |source|
  {
    if n == 0 then [0]
    else LineStarts(source, n - 1) + if source[n - 1] == LINE_FEED then [n] else []
  }

  method FindLineFeed(bytes: seq<Byte>) returns (r: Option<nat>)
    ensures r.None? ==> forall i | 0 <= i < |bytes| :: bytes[i] != LINE_FEED
    ensures r.Some? ==> r.value < |bytes| && bytes[r.value] == LINE_FEED
    ensures r.Some? ==> forall i | 0 <= i < r.value :: bytes[i] != LINE_FEED
  {
    for i := 0 to |bytes|
      invariant forall j | 0 <= j < i :: bytes[j] != LINE_FEED
    {
      if bytes[i] == LINE_FEED { return Some(i); }
    }
    return None;
  }

  method CalculateLineOffsets(source: seq<Byte>) returns (offsets: seq<nat>)
    requires |source| < U32_END
    ensures offsets == LineStarts(source, |source|)
  {
    offsets := [0];
    var pos := 0;
    while true
      invariant pos <= |source| && offsets == LineStarts(source, pos)
      decreases |source| - pos
    {
      var found := FindLineFeed(source[pos..]);
      match found {
        case None =>
          NoLineFeedBetween(source, pos, |source|);
          break;
        case Some(offset) =>
          NoLineFeedBetween(source, pos, pos + offset);
          pos := pos + offset + 1;
          offsets := offsets + [pos % U32_END];
      }
    }
  }

  /** The binary search, over offsets of which the first is not past the target. */
  method FindLargestOffset(target: nat, offsets: seq<nat>) returns (i: nat)
    requires offsets != [] && offsets[0] <= target
    requires forall j, k | 0 <= j < k < |offsets| :: offsets[j] < offsets[k]
    ensures i < |offsets| && offsets[i] <= target && (i + 1 < |offsets| ==> target < offsets[i + 1])
  {
    var lo, hi := 0, |offsets|;
    while lo < hi
      invariant 0 <= lo <= hi <= |offsets|
      invariant forall j | 0 <= j < lo :: offsets[j] <= target
      invariant forall j | hi <= j < |offsets| :: target < offsets[j]
    {
      var mid := (lo + hi) / 2;
      if offsets[mid] < target + 1 {
        lo := mid + 1;
      } else {
        hi := mid;
      }
    }
    i := lo - 1;
  }

  /** For a place in the source, the end included: lines and columns count from one, columns in bytes. */
  method FindLineCol(source: seq<Byte>, pos: nat, offsets: seq<nat>) returns (line: nat, col: nat)
    requires pos <= |source| && offsets == LineStarts(source, |source|)
    ensures line == LineFeeds(source[..pos]) + 1
    ensures 1 <= col <= pos + 1 && IsLineStart(source, pos + 1 - col)
    ensures forall p | pos + 1 - col < p <= pos :: !IsLineStart(source, p)
  {
    LineStartsMeaning(source, |source|);
    var i := FindLargestOffset(pos, offsets);
    line, col := i + 1, pos - offsets[i] + 1;
    forall p | offsets[i] < p <= pos
      ensures !IsLineStart(source, p)
    {
      if IsLineStart(source, p) {
        StartIsListed(source, p, |source|);
      }
    }
    StartIsListed(source, offsets[i], |source|);
    NoStartBetween(source, offsets[i], pos);
  }

  lemma {:induction false} NoLineFeedBetween(source: seq<Byte>, from: nat, to: nat)
    requires from <= to <= |source| && forall i | 0 <= i < to - from :: source[from..][i] != LINE_FEED
    ensures LineStarts(source, to) == LineStarts(source, from)
  {
    if from < to {
      NoLineFeedBetween(source, from, to - 1);
      assert source[from..][to - 1 - from] != LINE_FEED;
    }
  }

  lemma {:induction false} LineStartsMeaning(source: seq<Byte>, n: nat)
    requires n <= |source|
    ensures
      var starts := LineStarts(source, n);
      && starts != [] && starts[0] == 0
      && (forall j | 0 <= j < |starts| :: starts[j] <= n && IsLineStart(source, starts[j]))
      && (forall j, k | 0 <= j < k < |starts| :: starts[j] < starts[k])
  {
    if n > 0 { LineStartsMeaning(source, n - 1); }
  }

  /** A line start stands in the index at the number of line feeds before it. */
  lemma {:induction false} StartIsListed(source: seq<Byte>, p: nat, n: nat)
    requires IsLineStart(source, p) && p <= n <= |source|
    ensures LineFeeds(source[..p]) < |LineStarts(source, n)| && LineStarts(source, n)[LineFeeds(source[..p])] == p
    ensures |LineStarts(source, n)| == LineFeeds(source[..n]) + 1
  {
    if n > 0 {
      assert source[..n][..n - 1] == source[..n - 1];
      StartIsListed(source, if p < n then p else 0, n - 1);
    }
  }

  lemma {:induction false} NoStartBetween(source: seq<Byte>, from: nat, to: nat)
    requires from <= to <= |source| && forall p | from < p <= to :: !IsLineStart(source, p)
    ensures LineFeeds(source[..to]) == LineFeeds(source[..from])
  {
    if from < to {
      NoStartBetween(source, from, to - 1);
      assert source[..to][..to - 1] == source[..to - 1];
      assert !IsLineStart(source, to);
    }
  }
}
