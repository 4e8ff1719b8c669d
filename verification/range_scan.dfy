/**
 * The range scan (MiniMax): one backward pass over a read-only channel
 * buffer keeping a running minimum and maximum, seeded with the sentinels
 * 256 and -1, which are what an empty buffer yields.
 */
module RangeScan {
  import opened Samples

  const MinSentinel: int := 256
  const MaxSentinel: int := -1

  /**
   * The running minimum after the backward scan has consumed `s`: the head is
   * the last sample visited and replaces the minimum of the rest only when
   * strictly smaller.
   */
  function Lowest(s: seq<Sample>): (lo: int)
  {
    if |s| == 0 then MinSentinel
    else
      var m := Lowest(s[1..]);
      if s[0] < m then s[0] else m
  }

  /** The running maximum after the backward scan has consumed `s`. */
  function Highest(s: seq<Sample>): (hi: int)
  {
    if |s| == 0 then MaxSentinel
    else
      var m := Highest(s[1..]);
      if s[0] > m then s[0] else m
  }

  /** On a non-empty buffer the scan's minimum is a sample of it and no sample is smaller. */
  lemma {:induction false} LowestIsMinimum(s: seq<Sample>)
    requires |s| > 0
    ensures Lowest(s) in s
    ensures forall i :: 0 <= i < |s| ==> Lowest(s) <= s[i]
  {
    if |s| > 1 {
      LowestIsMinimum(s[1..]);
    }
  }

  /** On a non-empty buffer the scan's maximum is a sample of it and no sample is larger. */
  lemma {:induction false} HighestIsMaximum(s: seq<Sample>)
    requires |s| > 0
    ensures Highest(s) in s
    ensures forall i :: 0 <= i < |s| ==> s[i] <= Highest(s)
  {
    if |s| > 1 {
      HighestIsMaximum(s[1..]);
    }
  }

  /** Every sample lies between the two ends of a buffer's range, so the range is ordered. */
  lemma RangeBrackets(s: seq<Sample>)
    requires |s| > 0
    ensures 0 <= Lowest(s) <= Highest(s) < 256
    ensures forall i :: 0 <= i < |s| ==> Lowest(s) <= s[i] <= Highest(s)
  {
    LowestIsMinimum(s);
    HighestIsMaximum(s);
  }

  /** Sample i of a buffer lies within the buffer's range, which is a span of 8-bit samples. */
  lemma SampleInRange(s: seq<Sample>, i: int)
    requires 0 <= i < |s|
    ensures 0 <= Lowest(s) <= s[i] <= Highest(s) < 256
  {
    RangeBrackets(s);
  }

  /** A non-empty buffer's span max - min is that of 8-bit samples, in [0, 255]. */
  lemma SpanBounds(s: seq<Sample>)
    requires |s| > 0
    ensures 0 <= Highest(s) - Lowest(s) <= 255
  {
    SampleInRange(s, 0);
  }

  /** The range does not depend on the order of the scan: a permuted buffer has the same range. */
  lemma RangeIgnoresOrder(s: seq<Sample>, t: seq<Sample>)
    requires multiset(s) == multiset(t)
    ensures Lowest(s) == Lowest(t)
    ensures Highest(s) == Highest(t)
  {
    if |s| == 0 {
      assert |t| == |multiset(t)| == 0;
    } else {
      assert |t| == |multiset(t)| == |s|;
      LowestIsMinimum(s);
      LowestIsMinimum(t);
      HighestIsMaximum(s);
      HighestIsMaximum(t);
      assert Lowest(s) in multiset(t) && Lowest(t) in multiset(s);
      assert Highest(s) in multiset(t) && Highest(t) in multiset(s);
      var i :| 0 <= i < |t| && t[i] == Lowest(s);
      var j :| 0 <= j < |s| && s[j] == Lowest(t);
      var k :| 0 <= k < |t| && t[k] == Highest(s);
      var l :| 0 <= l < |s| && s[l] == Highest(t);
    }
  }

  /**
   * MiniMax: scan the first `rocols` samples of `r` from the last to the
   * first; `ok` is always true and the buffer is only read.
   */
  method MiniMax(r: array<Sample>, rocols: int) returns (ok: bool, rMin: int, rMax: int)
    requires rocols <= r.Length
    ensures ok
    ensures rocols <= 0 ==> rMin == MinSentinel && rMax == MaxSentinel
    ensures rocols > 0 ==> rMin == Lowest(r[..rocols]) && rMax == Highest(r[..rocols])
    ensures rocols > 0 ==> rMin in r[..rocols] && rMax in r[..rocols]
    ensures forall i :: 0 <= i < rocols ==> rMin <= r[i] <= rMax
  {
    var n := rocols;
    var min, max := MinSentinel, MaxSentinel;
    while n > 0
      invariant n <= rocols && (rocols > 0 ==> 0 <= n)
      invariant rocols > 0 ==> min == Lowest(r[n..rocols]) && max == Highest(r[n..rocols])
      invariant rocols <= 0 ==> min == MinSentinel && max == MaxSentinel
    {
      n := n - 1;
      assert r[n..rocols][1..] == r[n + 1..rocols];
      if r[n] < min { min := r[n]; }
      if r[n] > max { max := r[n]; }
    }
    rMin, rMax := min, max;
    ok := true;
    if rocols > 0 {
      assert r[0..rocols] == r[..rocols];
      LowestIsMinimum(r[..rocols]);
      HighestIsMaximum(r[..rocols]);
    }
  }
}
