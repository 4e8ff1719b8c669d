/**
 * Channel extraction and recombination: the image is a flat grid of
 * `rows * cols` three-byte pixels (blue, green, red), pixel (y, x) channel k
 * at index (y * cols + x) * 3 + k; each channel buffer is a flat array of
 * `rows * cols` samples whose row y starts at offset y * cols.
 */
module Channels {
  import opened Samples

  /** The samples of channel `k` of every pixel, in pixel order. */
  function Plane(pixels: seq<Sample>, k: nat): (p: seq<Sample>)
    requires |pixels| % 3 == 0 && k < 3
  {
    seq(|pixels| / 3, i requires 0 <= i < |pixels| / 3 => pixels[3 * i + k])
  }

  /** The image whose pixel i is (b[i], g[i], r[i]): sample j is slot j % 3 of pixel j / 3. */
  function Interleave(r: seq<Sample>, g: seq<Sample>, b: seq<Sample>): (img: seq<Sample>)
    requires |r| == |g| == |b|
  {
    seq(3 * |r|, j requires 0 <= j < 3 * |r| =>
      if j % 3 == Blue then b[j / 3] else if j % 3 == Green then g[j / 3] else r[j / 3])
  }

  /** Channel k of pixel i of an image is sample i of that channel's plane. */
  lemma PlaneAt(pixels: seq<Sample>, k: nat, i: nat)
    requires |pixels| % 3 == 0 && k < 3 && 3 * i + k < |pixels|
    ensures |Plane(pixels, k)| * 3 == |pixels|
    ensures i < |Plane(pixels, k)| && Plane(pixels, k)[i] == pixels[3 * i + k]
  {
  }

  /** Pixel i of the interleaved image holds the i-th sample of each buffer. */
  lemma InterleaveAt(r: seq<Sample>, g: seq<Sample>, b: seq<Sample>, i: nat)
    requires |r| == |g| == |b| && i < |r|
    ensures |Interleave(r, g, b)| == 3 * |r|
    ensures Interleave(r, g, b)[3 * i + Blue] == b[i]
    ensures Interleave(r, g, b)[3 * i + Green] == g[i]
    ensures Interleave(r, g, b)[3 * i + Red] == r[i]
  {
  }

  /** A buffer holding channel k of every pixel, in pixel order, is that channel's plane. */
  lemma PlaneUnique(p: seq<Sample>, pixels: seq<Sample>, k: nat)
    requires k < 3 && |p| * 3 == |pixels|
    requires forall i :: 0 <= i < |p| ==> p[i] == pixels[3 * i + k]
    ensures p == Plane(pixels, k)
  {
  }

  /** An image whose every pixel i holds (b[i], g[i], r[i]) is the interleaving of r, g and b. */
  lemma InterleaveUnique(pixels: seq<Sample>, r: seq<Sample>, g: seq<Sample>, b: seq<Sample>)
    requires |r| == |g| == |b| && |pixels| == 3 * |r|
    requires forall i :: 0 <= i < |r| ==>
      pixels[3 * i + Blue] == b[i] && pixels[3 * i + Green] == g[i] && pixels[3 * i + Red] == r[i]
    ensures pixels == Interleave(r, g, b)
  {
    var img := Interleave(r, g, b);
    forall j | 0 <= j < |pixels|
      ensures img[j] == pixels[j]
    {
      var i := j / 3;
      assert j == 3 * i + j % 3;
    }
  }

  /** Extracting one channel after recombining gives back that channel's buffer. */
  lemma ExtractAfterRecombineOne(r: seq<Sample>, g: seq<Sample>, b: seq<Sample>, k: nat)
    requires |r| == |g| == |b| && k < 3
    ensures Plane(Interleave(r, g, b), k) == if k == Blue then b else if k == Green then g else r
  {
    var img := Interleave(r, g, b);
    var c := if k == Blue then b else if k == Green then g else r;
    forall i | 0 <= i < |c|
      ensures c[i] == img[3 * i + k]
    {
      InterleaveAt(r, g, b, i);
    }
    PlaneUnique(c, img, k);
  }

  /** Extracting after recombining gives back the same three buffers. */
  lemma ExtractAfterRecombine(r: seq<Sample>, g: seq<Sample>, b: seq<Sample>)
    requires |r| == |g| == |b|
    ensures Plane(Interleave(r, g, b), Red) == r
    ensures Plane(Interleave(r, g, b), Green) == g
    ensures Plane(Interleave(r, g, b), Blue) == b
  {
    ExtractAfterRecombineOne(r, g, b, Red);
    ExtractAfterRecombineOne(r, g, b, Green);
    ExtractAfterRecombineOne(r, g, b, Blue);
  }

  /** Recombining the three extracted channels reproduces the image exactly. */
  lemma RecombineAfterExtract(pixels: seq<Sample>)
    requires |pixels| % 3 == 0
    ensures Interleave(Plane(pixels, Red), Plane(pixels, Green), Plane(pixels, Blue)) == pixels
  {
    var r, g, b := Plane(pixels, Red), Plane(pixels, Green), Plane(pixels, Blue);
    forall i | 0 <= i < |r|
      ensures pixels[3 * i + Blue] == b[i] && pixels[3 * i + Green] == g[i] && pixels[3 * i + Red] == r[i]
    {
      PlaneAt(pixels, Blue, i);
      PlaneAt(pixels, Green, i);
      PlaneAt(pixels, Red, i);
    }
    InterleaveUnique(pixels, r, g, b);
  }

  /** Row y of a rows-by-cols grid starts at y * cols and ends within the grid. */
  lemma RowFits(rows: nat, cols: nat, y: nat)
    requires y < rows
    ensures y * cols + cols <= rows * cols
    ensures (y + 1) * cols == y * cols + cols
  {
  }

  /** Channel k of pixel (y, x) sits at offset y * cols + x of that channel's plane. */
  lemma PlaneAtPixel(pixels: seq<Sample>, rows: nat, cols: nat, y: nat, x: nat, k: nat)
    requires |pixels| == rows * cols * 3 && k < 3
    requires y < rows && x < cols
    ensures y * cols + x < |Plane(pixels, k)|
    ensures Plane(pixels, k)[y * cols + x] == pixels[(y * cols + x) * 3 + k]
  {
    RowFits(rows, cols, y);
  }

  /**
   * fromMat2RGB: for every pixel (y, x), row by row, store its blue, green
   * and red samples at offset y * cols + x of the b, g and r buffers.
   */
  method FromMatToRGB(img: array<Sample>, rows: nat, cols: nat, r: array<Sample>, g: array<Sample>, b: array<Sample>)
    requires img.Length == rows * cols * 3
    requires r.Length == rows * cols && g.Length == rows * cols && b.Length == rows * cols
    requires r != g && g != b && r != b && img != r && img != g && img != b
    modifies r, g, b
    ensures r[..] == Plane(img[..], Red)
    ensures g[..] == Plane(img[..], Green)
    ensures b[..] == Plane(img[..], Blue)
  {
    var y, row := 0, 0;
    while y < rows
      invariant 0 <= y <= rows
      invariant row == y * cols
      invariant forall i :: 0 <= i < row ==> b[i] == img[3 * i + Blue]
      invariant forall i :: 0 <= i < row ==> g[i] == img[3 * i + Green]
      invariant forall i :: 0 <= i < row ==> r[i] == img[3 * i + Red]
    {
      RowFits(rows, cols, y);
      var x := 0;
      while x < cols
        invariant 0 <= x <= cols
        invariant forall i :: 0 <= i < row + x ==> b[i] == img[3 * i + Blue]
        invariant forall i :: 0 <= i < row + x ==> g[i] == img[3 * i + Green]
        invariant forall i :: 0 <= i < row + x ==> r[i] == img[3 * i + Red]
      {
        var p := (row + x) * 3;
        b[row + x] := img[p + Blue];
        g[row + x] := img[p + Green];
        r[row + x] := img[p + Red];
        x := x + 1;
      }
      y, row := y + 1, row + cols;
    }
    PlaneUnique(r[..], img[..], Red);
    PlaneUnique(g[..], img[..], Green);
    PlaneUnique(b[..], img[..], Blue);
  }

  /**
   * fromRGB2Mat: for every pixel (y, x), row by row, overwrite its blue,
   * green and red samples with offset y * cols + x of the b, g and r buffers.
   */
  method FromRGBToMat(img: array<Sample>, rows: nat, cols: nat, r: array<Sample>, g: array<Sample>, b: array<Sample>)
    requires img.Length == rows * cols * 3
    requires r.Length == rows * cols && g.Length == rows * cols && b.Length == rows * cols
    requires img != r && img != g && img != b
    modifies img
    ensures img[..] == Interleave(r[..], g[..], b[..])
  {
    var y, row := 0, 0;
    while y < rows
      invariant 0 <= y <= rows
      invariant row == y * cols
      invariant forall i :: 0 <= i < row ==>
        img[3 * i + Blue] == b[i] && img[3 * i + Green] == g[i] && img[3 * i + Red] == r[i]
    {
      RowFits(rows, cols, y);
      var x := 0;
      while x < cols
        invariant 0 <= x <= cols
        invariant forall i :: 0 <= i < row + x ==>
          img[3 * i + Blue] == b[i] && img[3 * i + Green] == g[i] && img[3 * i + Red] == r[i]
      {
        var p := (row + x) * 3;
        img[p + Blue] := b[row + x];
        img[p + Green] := g[row + x];
        img[p + Red] := r[row + x];
        x := x + 1;
      }
      y, row := y + 1, row + cols;
    }
    InterleaveUnique(img[..], r[..], g[..], b[..]);
  }
}
