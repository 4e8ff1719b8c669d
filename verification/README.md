# n2rgb: joint min/max stretch of an RGB image, modelled in Dafny

The program reads a colour image, splits it into three 8-bit channel buffers,
finds each channel's minimum and maximum sample, and takes the widest of the
three spans as one shared domain. It then rescales every sample `s` of a channel
with minimum `lo` to `round((s - lo) / Domain * 255)` and writes the three
buffers back into the image. Using one domain for all three channels keeps
their relative contrast: a narrow channel is shifted and compressed, not
stretched to fill 0-255 on its own.

The model covers the whole of this computation, piece by piece, in the
imperative form of the source:

- `samples.dfy` (`Samples`): the 8-bit `Sample` type, the pixel slot order
  (blue 0, green 1, red 2) and the narrowing `int -> unsigned char` store,
  which reduces modulo 256.
- `channels.dfy` (`Channels`): the image is a flat `array<Sample>` of
  `rows * cols * 3` samples, with pixel `(y, x)` channel `k` at
  `(y * cols + x) * 3 + k`. Each channel buffer is an array of `rows * cols`
  samples. Row `y` starts at offset `y * cols`, which is what the row-pointer
  arrays address. `FromMatToRGB` and `FromRGBToMat` are the nested `y`/`x`
  loops. `Plane` and `Interleave` are their specifications, and the lemmas
  prove that each undoes the other.
- `range_scan.dfy` (`RangeScan`): `MiniMax` is the backward scan with the
  sentinels 256 and -1. `Lowest` and `Highest` are the running minimum and
  maximum that the scan computes over the suffix it has consumed. Lemmas show
  that these values are the true minimum and maximum, are samples of the
  buffer, and do not depend on sample order.
- `rescale.dfy` (`Rescale`): `SharedDomain` (the three-way `std::max`),
  `RoundHalfAway` (`std::round` of an exact quotient) and `Scaled`, the
  per-sample formula. `RescaleChannels` is the single in-place loop over the
  three buffers. Lemmas cover bounds, monotonicity, the end points 0 and 255,
  and the fact that narrowing loses nothing.
- `normalize.dfy` (`Normalize2Rgb`): `Normalize` is lines 113-164 of `main`
  from buffer allocation to recombination. It is proved to produce
  `Stretched(old image)`: the image with every channel rescaled by its own
  minimum and the shared domain `JointDomain`. Lemmas state what each output
  pixel is.

Arithmetic idealisation: the source computes `(t / Domain) * 255.0` in
`double` and rounds it with `std::round`. The model uses the exact rational
`t * 255 / Domain` and rounds it half away from zero with integer arithmetic
(`RoundHalfAway`). A value the model sees as an exact tie `k + 0.5` may round
the other way in double arithmetic.

Three behaviours of the code are worth stating explicitly:

- The code does not clamp the rescaled value before the store. It narrows
  `int` to `unsigned char`, which is `Narrow` (modulo 256). `RescaleExact` and
  `StretchedAt` prove that, with each channel's minimum taken from its own
  buffer, every rescaled value is already in [0, 255], so the narrowing
  changes nothing.
- The code does not check the empty-buffer sentinels `(256, -1)`. On an empty
  image every span is -257, the rescale loop runs zero times, and the image is
  left as it is. `Normalize` models exactly this.
- A zero shared domain on a non-empty image makes the source compute `0 / 0`
  and convert the result to `int`, which is undefined behaviour. `Normalize`
  therefore requires `img.Length > 0 ==> JointDomain(img[..]) > 0`, and
  `RescaleChannels` requires a positive domain whenever its buffers are
  non-empty.

## Model

| member | source | states |
|---|---|---|
| Samples.Narrow | n2rgb.cpp:157 | storing an `int` into an `unsigned char` keeps a value in [0, 255] unchanged and otherwise gives a byte congruent to it modulo 256 |
| Channels.PlaneAt | n2rgb.cpp:193-206 | the extracted channel `k` has one sample per pixel, and its sample `i` is channel `k` of pixel `i` |
| Channels.InterleaveAt | n2rgb.cpp:178-191 | pixel `i` of the recombined image holds `b[i]`, `g[i]`, `r[i]` in slots 0, 1, 2 |
| Channels.PlaneUnique | n2rgb.cpp:193-206 | any buffer whose sample `i` is channel `k` of pixel `i`, for every pixel, is the extracted channel `k` |
| Channels.InterleaveUnique | n2rgb.cpp:178-191 | any image whose pixel `i` holds `(b[i], g[i], r[i])` for every `i` is the recombination of `r`, `g`, `b` |
| Channels.ExtractAfterRecombineOne | n2rgb.cpp:178-206 | extracting channel `k` after recombining gives back the buffer that was written into slot `k` |
| Channels.ExtractAfterRecombine | n2rgb.cpp:178-206 | extracting after recombining gives back the same three buffers |
| Channels.RecombineAfterExtract | n2rgb.cpp:178-206 | recombining the three extracted buffers reproduces every pixel of the image |
| Channels.RowFits | n2rgb.cpp:129-134 | row `y < rows` of a flat `rows * cols` buffer starts at `y * cols` and ends inside the buffer, and row `y + 1` starts `cols` later |
| Channels.PlaneAtPixel | n2rgb.cpp:129-134 | through the row offsets, cell `[y][x]` of a channel buffer is flat index `y * cols + x` and holds channel `k` of pixel `(y, x)` |
| Channels.FromMatToRGB | n2rgb.cpp:193-206 | after the nested loops the `r`, `g`, `b` buffers are exactly the red, green and blue planes of the image, which is left unchanged |
| Channels.FromRGBToMat | n2rgb.cpp:178-191 | after the nested loops the image is exactly the interleaving of the three buffers |
| RangeScan.LowestIsMinimum | n2rgb.cpp:31-43 | on a non-empty buffer the scanned minimum is one of its samples and no sample is smaller |
| RangeScan.HighestIsMaximum | n2rgb.cpp:31-43 | on a non-empty buffer the scanned maximum is one of its samples and no sample is larger |
| RangeScan.RangeBrackets | n2rgb.cpp:31-43 | on a non-empty buffer `0 <= min <= max < 256` and every sample lies between them |
| RangeScan.SampleInRange | n2rgb.cpp:31-43 | sample `i` of a buffer lies between the scanned minimum and maximum, both within [0, 255] |
| RangeScan.SpanBounds | n2rgb.cpp:146-148 | a non-empty channel span `max - min` lies in [0, 255] |
| RangeScan.RangeIgnoresOrder | n2rgb.cpp:35-40 | two buffers holding the same samples in any order scan to the same minimum and maximum |
| RangeScan.MiniMax | n2rgb.cpp:31-43 | always returns true; for `rocols <= 0` yields the sentinels 256 and -1; otherwise yields the minimum and maximum of the first `rocols` samples, both occurring in the buffer and bracketing every sample; the buffer is only read |
| Rescale.RoundHalfAway | n2rgb.cpp:157 | the result is the integer nearest to `num / den`, and a tie goes away from zero |
| Rescale.RoundMonotone | n2rgb.cpp:157 | rounding a larger quotient never gives a smaller integer |
| Rescale.SharedDomain | n2rgb.cpp:146-149 | the shared domain is at least each of the three spans and equal to one of them |
| Rescale.ScaledAtLow | n2rgb.cpp:156-161 | a sample equal to its channel's minimum rescales to 0 |
| Rescale.ScaledAtHigh | n2rgb.cpp:156-161 | a sample exactly one domain above its channel's minimum rescales to 255 |
| Rescale.ScaledInRange | n2rgb.cpp:156-161 | a sample between its channel's minimum and that minimum plus the domain rescales into [0, 255] |
| Rescale.ScaledMonotone | n2rgb.cpp:156-161 | within a channel a larger sample never rescales to a smaller value |
| Rescale.RescaleExact | n2rgb.cpp:151-162 | with the minimum from the same buffer and a domain at least its span, rewritten position `i` equals the exact rounded rescale of the old sample, which lies in [0, 255], so the narrowing store loses nothing |
| Rescale.RescaleShape | n2rgb.cpp:151-162 | the rewritten buffer keeps the order of the samples, sends the minimum to 0 and, when the channel's span is the domain, the maximum to 255 |
| Rescale.WorkedExamples | n2rgb.cpp:156-161 | `[10, 20, 30]` with domain 20 rescales to `[0, 128, 255]`; sample 55 of a channel with minimum 50 under domain 100 rescales to 13 |
| Rescale.RescaleChannels | n2rgb.cpp:151-162 | one pass rewrites position `i` of each buffer from its old value at `i` alone, with the channel's own minimum and the shared domain, and rewrites every position |
| Normalize2Rgb.JointDomainBounds | n2rgb.cpp:138-149 | for an empty image the shared domain is -257 (sentinel span); for a non-empty image it lies in [0, 255] and is at least every channel's span |
| Normalize2Rgb.StretchSlot | n2rgb.cpp:151-164 | after the rescale loop and recombination, channel `k` of output pixel `i` is the narrowed rescale of channel `k` of input pixel `i`, with that channel's own minimum |
| Normalize2Rgb.StretchedAt | n2rgb.cpp:136-164 | each output sample is the exact rounded rescale of the input sample at the same position, in [0, 255], using its channel's minimum and the shared domain |
| Normalize2Rgb.StretchedShape | n2rgb.cpp:136-164 | within a channel the output keeps the input's order; a sample at its channel's minimum becomes 0; a sample at the maximum of the channel that sets the shared domain becomes 255 |
| Normalize2Rgb.Normalize | n2rgb.cpp:113-164 | extraction, the three scans, the shared domain, the rescale and the recombination together turn the image into `Stretched` of the original |

## Left out

- Command-line parsing and `badswitch` (n2rgb.cpp:26-29, 67-100): their only effects are messages on stderr and process exit. The `-v`, `-m`, `-j` and `-3` flags are stored but never read.
- Image decode, encode and display (`imread`, `imwrite`, `namedWindow`, `imshow`, `waitKey`, `Mat::copyTo`): these are foreign library calls. The decoded image is the input array of `Normalize`, and the image it leaves behind is what would be encoded.
- The `printf`, `cout` and `cerr` diagnostics: output only.
- Allocation and release of the row-pointer arrays and buffers, including the `delete` applied to arrays through the comma operator. The buffers are fresh arrays, and the row pointers are the offset `y * cols`.
- IEEE `double` behaviour of `(t / Domain) * 255.0` and `std::round`: the model computes the exact rational quotient (see above), so ties may differ from double arithmetic.
- Normalize: the `int` product `rows * cols` and `Domain` are unbounded integers here, so a 32-bit overflow of `rows * cols` on a huge image is not modelled.
- Normalize: the division by zero for a non-empty image whose shared domain is 0 is excluded by a precondition rather than modelled, since the source's behaviour there is undefined.
