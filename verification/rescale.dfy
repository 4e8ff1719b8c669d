/**
 * The joint rescale: the shared domain is the widest of the three channel
 * spans, and every sample s of a channel with minimum lo becomes
 * round((s - lo) / Domain * 255), narrowed to an 8-bit sample.
 *
 * The quotient is taken exactly (rational arithmetic) and rounded half away
 * from zero, as std::round does; the narrowing store into `unsigned char`
 * is reduction modulo 256.
 */
module Rescale {
  import opened Samples
  import opened RangeScan

  /** std::round of the exact quotient num / den: the nearest integer, halves away from zero. */
  function RoundHalfAway(num: int, den: int): (q: int)
    requires den > 0
    ensures num >= 0 ==> 2 * den * q - den <= 2 * num < 2 * den * q + den
    ensures num < 0 ==> 2 * den * q - den < 2 * num <= 2 * den * q + den
  {
    if num >= 0 then (2 * num + den) / (2 * den)
    else -((-2 * num + den) / (2 * den))
  }

  /** The rescaled value of sample s of a channel whose minimum is lo, before narrowing. */
  function Scaled(s: int, lo: int, domain: int): (v: int)
    requires domain > 0
  {
    RoundHalfAway((s - lo) * 255, domain)
  }

  /** The widest of the three channel spans (std::max of the red, green and blue domains). */
  function SharedDomain(rDomain: int, gDomain: int, bDomain: int): (d: int)
    ensures d >= rDomain && d >= gDomain && d >= bDomain
    ensures d == rDomain || d == gDomain || d == bDomain
  {
    if rDomain >= gDomain && rDomain >= bDomain then rDomain
    else if gDomain >= bDomain then gDomain
    else bDomain
  }

  /** If d * a < d * b with d positive, then a < b. */
  lemma CancelPositive(d: int, a: int, b: int)
    requires d > 0 && d * a < d * b
    ensures a < b
  {
  }

  /** Multiplying by a positive factor keeps the order. */
  lemma MulMonotone(d: int, x: int, y: int)
    requires d > 0 && x <= y
    ensures d * x <= d * y && d * (x + 1) == d * x + d
  {
  }

  /** Floor division by a positive divisor is monotone on non-negative dividends. */
  lemma DivMonotone(a: int, b: int, d: int)
    requires 0 <= a <= b && d > 0
    ensures 0 <= a / d <= b / d
  {
    var qa, qb := a / d, b / d;
    assert d * qa + a % d == a && 0 <= a % d < d;
    assert d * qb + b % d == b && 0 <= b % d < d;
    CancelPositive(d, -1, qa);
    if qa > qb {
      MulMonotone(d, qb + 1, qa);
      assert false;
    }
  }

  /** Rounding a larger quotient never gives a smaller integer. */
  lemma RoundMonotone(n1: int, n2: int, den: int)
    requires den > 0 && n1 <= n2
    ensures RoundHalfAway(n1, den) <= RoundHalfAway(n2, den)
  {
    if 0 <= n1 {
      DivMonotone(2 * n1 + den, 2 * n2 + den, 2 * den);
    } else if n2 < 0 {
      DivMonotone(-2 * n2 + den, -2 * n1 + den, 2 * den);
    } else {
      DivMonotone(0, -2 * n1 + den, 2 * den);
      DivMonotone(0, 2 * n2 + den, 2 * den);
    }
  }

  /** The floor quotient a / d is the q with d * q <= a < d * q + d. */
  lemma DivUnique(a: int, d: int, q: int)
    requires d > 0 && d * q <= a < d * q + d
    ensures a / d == q
  {
    var r := a / d;
    assert d * r + a % d == a && 0 <= a % d < d;
    if r > q {
      MulMonotone(d, q + 1, r);
      assert false;
    } else if r < q {
      MulMonotone(d, r + 1, q);
      assert false;
    }
  }

  /** An exact whole quotient m * den / den rounds to m. */
  lemma RoundWhole(m: nat, den: int)
    requires den > 0
    ensures RoundHalfAway(m * den, den) == m
  {
    MulMonotone(den, 0, m);
    assert 2 * (m * den) + den == (2 * den) * m + den;
    DivUnique(2 * (m * den) + den, 2 * den, m);
  }

  /** A sample equal to its channel's minimum rescales to 0. */
  lemma ScaledAtLow(lo: int, domain: int)
    requires domain > 0
    ensures Scaled(lo, lo, domain) == 0
  {
    RoundWhole(0, domain);
  }

  /** A sample whose distance to the channel minimum is the whole domain rescales to 255. */
  lemma ScaledAtHigh(lo: int, hi: int, domain: int)
    requires domain > 0 && hi - lo == domain
    ensures Scaled(hi, lo, domain) == 255
  {
    assert (hi - lo) * 255 == 255 * domain;
    RoundWhole(255, domain);
  }

  /** Samples between the channel minimum and minimum + domain rescale into [0, 255]. */
  lemma ScaledInRange(s: int, lo: int, domain: int)
    requires domain > 0 && lo <= s && s - lo <= domain
    ensures 0 <= Scaled(s, lo, domain) <= 255
  {
    RoundMonotone(0, (s - lo) * 255, domain);
    ScaledAtLow(lo, domain);
    RoundMonotone((s - lo) * 255, domain * 255, domain);
    ScaledAtHigh(lo, lo + domain, domain);
  }

  /** The rescale is monotone within a channel. */
  lemma ScaledMonotone(s1: int, s2: int, lo: int, domain: int)
    requires domain > 0 && s1 <= s2
    ensures Scaled(s1, lo, domain) <= Scaled(s2, lo, domain)
  {
    RoundMonotone((s1 - lo) * 255, (s2 - lo) * 255, domain);
  }

  /** A whole channel after the rescale loop: position i depends on old position i only. */
  function RescaleAll(s: seq<Sample>, lo: int, domain: int): (t: seq<Sample>)
    requires |s| > 0 ==> domain > 0
  {
    seq(|s|, i requires 0 <= i < |s| => Narrow(Scaled(s[i], lo, domain)))
  }

  /**
   * With the minimum taken from the same buffer and a domain at least its
   * span, the narrowing store changes no rescaled sample: position i holds
   * the exact rounded value, which lies in [0, 255].
   */
  lemma RescaleExact(s: seq<Sample>, domain: int, i: int)
    requires 0 <= i < |s| && domain > 0 && Highest(s) - Lowest(s) <= domain
    ensures |RescaleAll(s, Lowest(s), domain)| == |s|
    ensures 0 <= Scaled(s[i], Lowest(s), domain) <= 255
    ensures RescaleAll(s, Lowest(s), domain)[i] == Scaled(s[i], Lowest(s), domain)
  {
    SampleInRange(s, i);
    ScaledInRange(s[i], Lowest(s), domain);
  }

  /**
   * The rescaled channel keeps the order of its samples, sends the minimum
   * to 0 and, when its span is the whole domain, the maximum to 255.
   */
  lemma RescaleShape(s: seq<Sample>, domain: int)
    requires |s| > 0 && domain > 0 && Highest(s) - Lowest(s) <= domain
    ensures forall i, j :: 0 <= i < |s| && 0 <= j < |s| && s[i] <= s[j] ==>
      RescaleAll(s, Lowest(s), domain)[i] <= RescaleAll(s, Lowest(s), domain)[j]
    ensures forall i :: 0 <= i < |s| && s[i] == Lowest(s) ==> RescaleAll(s, Lowest(s), domain)[i] == 0
    ensures Highest(s) - Lowest(s) == domain ==>
      forall i :: 0 <= i < |s| && s[i] == Highest(s) ==> RescaleAll(s, Lowest(s), domain)[i] == 255
  {
    var t := RescaleAll(s, Lowest(s), domain);
    forall i, j | 0 <= i < |s| && 0 <= j < |s| && s[i] <= s[j]
      ensures t[i] <= t[j]
    {
      RescaleExact(s, domain, i);
      RescaleExact(s, domain, j);
      ScaledMonotone(s[i], s[j], Lowest(s), domain);
    }
    forall i | 0 <= i < |s| && s[i] == Lowest(s)
      ensures t[i] == 0
    {
      RescaleExact(s, domain, i);
      ScaledAtLow(Lowest(s), domain);
    }
    if Highest(s) - Lowest(s) == domain {
      forall i | 0 <= i < |s| && s[i] == Highest(s)
        ensures t[i] == 255
      {
        RescaleExact(s, domain, i);
        ScaledAtHigh(Lowest(s), Highest(s), domain);
      }
    }
  }

  /**
   * Two worked cases: a lone channel [10, 20, 30] (domain 20) becomes
   * [0, 128, 255], the middle sample being a tie rounded upward; and a green
   * sample 55 of a channel with minimum 50 under a shared domain of 100 becomes 13,
   * a narrow channel compressed rather than stretched.
   */
  lemma WorkedExamples()
    ensures RescaleAll([10, 20, 30], 10, 20) == [0, 128, 255]
    ensures Scaled(55, 50, 100) == 13
  {
    var t := RescaleAll([10, 20, 30], 10, 20);
    assert t[0] == Narrow(Scaled(10, 10, 20)) == 0;
    assert t[1] == Narrow(Scaled(20, 10, 20)) == 128;
    assert t[2] == Narrow(Scaled(30, 10, 20)) == 255;
  }

  /**
   * The rescale loop: one pass over the three buffers together, replacing
   * each sample in place by its rescaled value; each channel uses its own
   * minimum and all three the shared domain.
   */
  method RescaleChannels(r: array<Sample>, g: array<Sample>, b: array<Sample>,
                         rMin: int, gMin: int, bMin: int, domain: int)
    requires r.Length == g.Length == b.Length
    requires r.Length > 0 ==> domain > 0
    requires r != g && g != b && r != b
    modifies r, g, b
    ensures r[..] == RescaleAll(old(r[..]), rMin, domain)
    ensures g[..] == RescaleAll(old(g[..]), gMin, domain)
    ensures b[..] == RescaleAll(old(b[..]), bMin, domain)
  {
    var i := 0;
    while i < r.Length
      invariant 0 <= i <= r.Length
      invariant forall k :: 0 <= k < i ==> r[k] == Narrow(Scaled(old(r[k]), rMin, domain))
      invariant forall k :: 0 <= k < i ==> g[k] == Narrow(Scaled(old(g[k]), gMin, domain))
      invariant forall k :: 0 <= k < i ==> b[k] == Narrow(Scaled(old(b[k]), bMin, domain))
      invariant forall k :: i <= k < r.Length ==> r[k] == old(r[k])
      invariant forall k :: i <= k < r.Length ==> g[k] == old(g[k])
      invariant forall k :: i <= k < r.Length ==> b[k] == old(b[k])
    {
      r[i] := Narrow(RoundHalfAway((r[i] - rMin) * 255, domain));
      g[i] := Narrow(RoundHalfAway((g[i] - gMin) * 255, domain));
      b[i] := Narrow(RoundHalfAway((b[i] - bMin) * 255, domain));
      i := i + 1;
    }
  }
}
