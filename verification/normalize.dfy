/**
 * The normalisation pipeline of the program's main routine: split the image
 * into three channel buffers, scan each for its range, take the widest span
 * as the shared domain, rescale all three buffers with it and write them
 * back into the image.
 */
module Normalize2Rgb {
  import opened Samples
  import opened Channels
  import opened RangeScan
  import opened Rescale

  /** The shared domain of an image: the widest of its three channel spans. */
  function JointDomain(pixels: seq<Sample>): (d: int)
    requires |pixels| % 3 == 0
  {
    var r, g, b := Plane(pixels, Red), Plane(pixels, Green), Plane(pixels, Blue);
    SharedDomain(Highest(r) - Lowest(r), Highest(g) - Lowest(g), Highest(b) - Lowest(b))
  }

  /** The image after each channel is rescaled by the given minimum and the given domain. */
  function StretchWith(pixels: seq<Sample>, rMin: int, gMin: int, bMin: int, domain: int): (out: seq<Sample>)
    requires |pixels| % 3 == 0
    requires |pixels| > 0 ==> domain > 0
  {
    Interleave(RescaleAll(Plane(pixels, Red), rMin, domain),
               RescaleAll(Plane(pixels, Green), gMin, domain),
               RescaleAll(Plane(pixels, Blue), bMin, domain))
  }

  /** The image the pipeline writes: every channel rescaled by its own minimum and the shared domain. */
  function Stretched(pixels: seq<Sample>): (out: seq<Sample>)
    requires |pixels| % 3 == 0
    requires |pixels| > 0 ==> JointDomain(pixels) > 0
  {
    StretchWith(pixels, Lowest(Plane(pixels, Red)), Lowest(Plane(pixels, Green)), Lowest(Plane(pixels, Blue)),
                JointDomain(pixels))
  }

  /**
   * An empty image has the sentinel span -257 in every channel; a non-empty
   * one has a shared domain in [0, 255] that is at least every channel's span.
   */
  lemma JointDomainBounds(pixels: seq<Sample>)
    requires |pixels| % 3 == 0
    ensures |pixels| == 0 ==> JointDomain(pixels) == MaxSentinel - MinSentinel
    ensures |pixels| > 0 ==> 0 <= JointDomain(pixels) <= 255
    ensures forall k :: 0 <= k < 3 ==>
      Highest(Plane(pixels, k)) - Lowest(Plane(pixels, k)) <= JointDomain(pixels)
  {
    if |pixels| > 0 {
      SpanBounds(Plane(pixels, Red));
      SpanBounds(Plane(pixels, Green));
      SpanBounds(Plane(pixels, Blue));
    }
  }

  /** Channel k of output pixel i is the rescale of channel k of input pixel i, narrowed. */
  lemma StretchSlot(pixels: seq<Sample>, rMin: int, gMin: int, bMin: int, domain: int, i: nat, k: nat)
    requires |pixels| % 3 == 0 && k < 3 && 3 * i + k < |pixels|
    requires domain > 0
    ensures |StretchWith(pixels, rMin, gMin, bMin, domain)| == |pixels|
    ensures StretchWith(pixels, rMin, gMin, bMin, domain)[3 * i + k]
         == Narrow(Scaled(pixels[3 * i + k], if k == Blue then bMin else if k == Green then gMin else rMin, domain))
  {
    var r := RescaleAll(Plane(pixels, Red), rMin, domain);
    var g := RescaleAll(Plane(pixels, Green), gMin, domain);
    var b := RescaleAll(Plane(pixels, Blue), bMin, domain);
    PlaneAt(pixels, k, i);
    InterleaveAt(r, g, b, i);
  }

  /**
   * Each output sample is the exact rounded rescale of the input sample at
   * the same position, with its channel's minimum and the shared domain; it
   * lies in [0, 255], so the narrowing store loses nothing.
   */
  lemma StretchedAt(pixels: seq<Sample>, i: nat, k: nat)
    requires |pixels| % 3 == 0 && k < 3 && 3 * i + k < |pixels|
    requires JointDomain(pixels) > 0
    ensures |Stretched(pixels)| == |pixels|
    ensures 0 <= Scaled(pixels[3 * i + k], Lowest(Plane(pixels, k)), JointDomain(pixels)) <= 255
    ensures Stretched(pixels)[3 * i + k]
         == Scaled(pixels[3 * i + k], Lowest(Plane(pixels, k)), JointDomain(pixels))
  {
    var p, d := Plane(pixels, k), JointDomain(pixels);
    StretchSlot(pixels, Lowest(Plane(pixels, Red)), Lowest(Plane(pixels, Green)), Lowest(Plane(pixels, Blue)), d, i, k);
    PlaneAt(pixels, k, i);
    JointDomainBounds(pixels);
    SampleInRange(p, i);
    ScaledInRange(p[i], Lowest(p), d);
  }

  /**
   * Within one channel the output keeps the order of the input; a sample at
   * its channel's minimum becomes 0, and a sample at the maximum of a channel
   * whose span is the shared domain becomes 255.
   */
  lemma StretchedShape(pixels: seq<Sample>, i: nat, j: nat, k: nat)
    requires |pixels| % 3 == 0 && k < 3 && 3 * i + k < |pixels| && 3 * j + k < |pixels|
    requires JointDomain(pixels) > 0
    ensures pixels[3 * i + k] <= pixels[3 * j + k] ==>
      Stretched(pixels)[3 * i + k] <= Stretched(pixels)[3 * j + k]
    ensures pixels[3 * i + k] == Lowest(Plane(pixels, k)) ==> Stretched(pixels)[3 * i + k] == 0
    ensures (Highest(Plane(pixels, k)) - Lowest(Plane(pixels, k)) == JointDomain(pixels) &&
             pixels[3 * i + k] == Highest(Plane(pixels, k))) ==> Stretched(pixels)[3 * i + k] == 255
  {
    var p, d, out := Plane(pixels, k), JointDomain(pixels), Stretched(pixels);
    var lo, hi := Lowest(p), Highest(p);
    var si, sj := pixels[3 * i + k], pixels[3 * j + k];
    StretchedAt(pixels, i, k);
    StretchedAt(pixels, j, k);
    assert out[3 * i + k] == Scaled(si, lo, d) && out[3 * j + k] == Scaled(sj, lo, d);
    if si <= sj {
      ScaledMonotone(si, sj, lo, d);
    }
    if si == lo {
      ScaledAtLow(lo, d);
    }
    if hi - lo == d && si == hi {
      ScaledAtHigh(lo, hi, d);
    }
  }

  /**
   * Lines 113-162 of the main routine followed by the final recombination:
   * allocate the three channel buffers, extract, scan, compute the shared
   * domain, rescale and write the buffers back into the image.
   * A zero domain on a non-empty image is a division 0 / 0 in the source.
   */
  method Normalize(img: array<Sample>, rows: nat, cols: nat)
    requires img.Length == rows * cols * 3
    requires img.Length > 0 ==> JointDomain(img[..]) > 0
    modifies img
    ensures img[..] == Stretched(old(img[..]))
  {
    ghost var pixels := img[..];
    var rocol := rows * cols;
    var buffr := new Sample[rocol];
    var buffg := new Sample[rocol];
    var buffb := new Sample[rocol];
    FromMatToRGB(img, rows, cols, buffr, buffg, buffb);
    ghost var r, g, b := buffr[..], buffg[..], buffb[..];
    assert r == buffr[..rocol] && g == buffg[..rocol] && b == buffb[..rocol];

    var _, rMin, rMax := MiniMax(buffr, rocol);
    var _, gMin, gMax := MiniMax(buffg, rocol);
    var _, bMin, bMax := MiniMax(buffb, rocol);
    assert rMin == Lowest(r) && gMin == Lowest(g) && bMin == Lowest(b) by {
      if rocol == 0 {
        assert r == [] && g == [] && b == [];
      }
    }
    assert rMax == Highest(r) && gMax == Highest(g) && bMax == Highest(b) by {
      if rocol == 0 {
        assert r == [] && g == [] && b == [];
      }
    }

    var domain := SharedDomain(rMax - rMin, gMax - gMin, bMax - bMin);
    assert domain == JointDomain(pixels);

    RescaleChannels(buffr, buffg, buffb, rMin, gMin, bMin, domain);
    FromRGBToMat(img, rows, cols, buffr, buffg, buffb);
    assert img[..] == StretchWith(pixels, rMin, gMin, bMin, domain);
  }
}
