/** Image preprocessing of the calibration capture: greyscale conversion and
    box blur, applied in place to the RGBA data of every captured canvas.
    Channel values are reals; the rounding and clamping a byte canvas applies
    when data is written back is not modelled. */
module Imaging {

  /** The index of pixel `(x, y)` in a row-major image `width` pixels wide. */
  function Idx(width: nat, height: nat, x: nat, y: nat): (p: nat)
    requires x < width && y < height
    ensures p < width * height
  {
    assert y * width <= (height - 1) * width by {
      MulLeq(y, height - 1, width);
    }
    y * width + x
  }

  lemma MulLeq(a: nat, b: nat, c: nat)
    requires a <= b
    ensures a * c <= b * c
  {
  }

  /** Channel `ch` (0 red, 1 green, 2 blue, 3 alpha) of pixel `p` of RGBA data. */
  function Px(s: seq<real>, p: nat, ch: nat): real
    requires ch < 4 && 4 * p + ch < |s|
  {
    s[4 * p + ch]
  }

  /** A drawing surface: its size and its RGBA data, four channel values per
      pixel, pixels in row-major order. */
  class Canvas {
    const width: nat
    const height: nat
    var pixels: seq<real>

    ghost predicate Valid()
      reads this
    {
      |pixels| == 4 * (width * height)
    }

    constructor (width: nat, height: nat, pixels: seq<real>)
      requires |pixels| == 4 * (width * height)
      ensures Valid()
      ensures this.width == width && this.height == height && this.pixels == pixels
    {
      this.width := width;
      this.height := height;
      this.pixels := pixels;
    }

    /** Reads the whole canvas: a fresh array holding a copy of its data. */
    method GetImageData() returns (data: array<real>)
      ensures fresh(data) && data[..] == pixels
    {
      data := new real[|pixels|](i requires 0 <= i < |pixels| reads this => pixels[i]);
    }

    /** Writes `data` over the whole canvas. */
    method PutImageData(data: array<real>)
      requires Valid() && data.Length == |pixels|
      modifies this
      ensures Valid() && pixels == data[..]
    {
      pixels := data[..];
    }
  }

  /** Every canvas in `contexts` is valid and no canvas occurs twice. */
  ghost predicate DistinctValid(contexts: seq<Canvas>)
    reads set c | c in contexts
  {
    && (forall i :: 0 <= i < |contexts| ==> contexts[i].Valid())
    && (forall i, j :: 0 <= i < j < |contexts| ==> contexts[i] != contexts[j])
  }

  // ---------------------------------------------------------------- greyscale

  /** One greyscale pixel: the brightness in red, green and blue, alpha kept. */
  function GreyPixel(r: real, g: real, b: real, a: real, luma: (real, real, real) -> real): seq<real>
  {
    var l := luma(r, g, b);
    [l, l, l, a]
  }

  /** RGBA data in which the red, green and blue of every pixel are replaced
      by the brightness `luma` assigns to that pixel's colour; alpha is kept. */
  function Greyscale(s: seq<real>, luma: (real, real, real) -> real): (g: seq<real>)
    requires |s| % 4 == 0
    ensures |g| == |s|
    decreases |s|
  {
    if |s| == 0 then []
    else
      var n := |s| - 4;
      Greyscale(s[..n], luma) + GreyPixel(s[n], s[n + 1], s[n + 2], s[n + 3], luma)
  }

  /** Pixel by pixel: red, green and blue become the pixel's brightness, alpha is kept. */
  lemma {:induction false} GreyscalePixels(s: seq<real>, luma: (real, real, real) -> real)
    requires |s| % 4 == 0
    ensures forall p :: 0 <= p < |s| / 4 ==>
      && Px(Greyscale(s, luma), p, 0) == luma(Px(s, p, 0), Px(s, p, 1), Px(s, p, 2))
      && Px(Greyscale(s, luma), p, 1) == Px(Greyscale(s, luma), p, 0)
      && Px(Greyscale(s, luma), p, 2) == Px(Greyscale(s, luma), p, 0)
      && Px(Greyscale(s, luma), p, 3) == Px(s, p, 3)
    decreases |s|
  {
    if |s| > 0 {
      var n := |s| - 4;
      var front := Greyscale(s[..n], luma);
      var g := Greyscale(s, luma);
      GreyscalePixels(s[..n], luma);
      forall p | 0 <= p < n / 4
        ensures Px(g, p, 0) == Px(front, p, 0) && Px(g, p, 1) == Px(front, p, 1)
        ensures Px(g, p, 2) == Px(front, p, 2) && Px(g, p, 3) == Px(front, p, 3)
        ensures Px(s[..n], p, 0) == Px(s, p, 0) && Px(s[..n], p, 1) == Px(s, p, 1)
        ensures Px(s[..n], p, 2) == Px(s, p, 2) && Px(s[..n], p, 3) == Px(s, p, 3)
      {
      }
    }
  }

  /** Greyscaling one more pixel extends the converted prefix by that pixel. */
  lemma GreyscaleStep(s: seq<real>, i: nat, luma: (real, real, real) -> real)
    requires i % 4 == 0 && i + 4 <= |s|
    ensures Greyscale(s[..i + 4], luma) == Greyscale(s[..i], luma) + GreyPixel(s[i], s[i + 1], s[i + 2], s[i + 3], luma)
  {
    assert s[..i + 4][..i] == s[..i];
  }

  /** Converting the pixel at entry `i` of partly converted data extends the converted prefix. */
  lemma ConvertNext(orig: seq<real>, cur: seq<real>, i: nat, l: real, luma: (real, real, real) -> real)
    requires i % 4 == 0 && i + 4 <= |orig|
    requires cur == Greyscale(orig[..i], luma) + orig[i..]
    requires l == luma(cur[i], cur[i + 1], cur[i + 2])
    ensures cur[i := l][i + 1 := l][i + 2 := l] == Greyscale(orig[..i + 4], luma) + orig[i + 4..]
  {
    GreyscaleStep(orig, i, luma);
    var lhs := cur[i := l][i + 1 := l][i + 2 := l];
    var rhs := Greyscale(orig[..i + 4], luma) + orig[i + 4..];
    assert |lhs| == |rhs|;
    forall j | 0 <= j < |lhs|
      ensures lhs[j] == rhs[j]
    {
    }
  }

  /** Writes brightness `l` into the red, green and blue entries of the pixel at entry `i`. */
  method PaintGrey(data: array<real>, i: nat, l: real)
    requires i + 3 < data.Length
    modifies data
    ensures data[..] == old(data[..])[i := l][i + 1 := l][i + 2 := l]
  {
    data[i] := l;
    data[i + 1] := l;
    data[i + 2] := l;
  }

  /** The entry after a whole pixel starts a pixel too. */
  lemma NextPixelEntry(i: int, n: int)
    requires i % 4 == 0 && n % 4 == 0 && i < n
    ensures i + 4 <= n && (i + 4) % 4 == 0
  {
  }

  /** Converts RGBA data to greyscale in place, four entries at a time. */
  method GreyscaleInPlace(data: array<real>, luma: (real, real, real) -> real)
    requires data.Length % 4 == 0
    modifies data
    ensures data[..] == Greyscale(old(data[..]), luma)
  {
    ghost var orig := data[..];
    var i := 0;
    while i < data.Length
      invariant 0 <= i <= data.Length && i % 4 == 0
      invariant data[..] == Greyscale(orig[..i], luma) + orig[i..]
    {
      NextPixelEntry(i, data.Length);
      var brightness := luma(data[i], data[i + 1], data[i + 2]);
      ConvertNext(orig, data[..], i, brightness, luma);
      PaintGrey(data, i, brightness);
      i := i + 4;
    }
    assert orig[..i] == orig;
  }

  /** Converts every canvas to greyscale. */
  method ConvertToGreyscale(contexts: seq<Canvas>, luma: (real, real, real) -> real)
    requires DistinctValid(contexts)
    modifies set c | c in contexts
    ensures DistinctValid(contexts)
    ensures forall i :: 0 <= i < |contexts| ==>
      contexts[i].pixels == Greyscale(old(contexts[i].pixels), luma)
  {
    for k := 0 to |contexts|
      invariant DistinctValid(contexts)
      invariant forall i :: 0 <= i < k ==> contexts[i].pixels == Greyscale(old(contexts[i].pixels), luma)
      invariant forall i :: k <= i < |contexts| ==> contexts[i].pixels == old(contexts[i].pixels)
    {
      var ctx := contexts[k];
      var imageData := ctx.GetImageData();
      GreyscaleInPlace(imageData, luma);
      ctx.PutImageData(imageData);
    }
  }

  // ---------------------------------------------------------------- box blur

  predicate InBounds(width: nat, height: nat, px: int, py: int)
  {
    0 <= px < width && 0 <= py < height
  }

  /** Channel `ch` of the pixel at `(px, py)` when it lies inside the image, 0 otherwise. */
  function Sample(s: seq<real>, width: nat, height: nat, ch: nat, px: int, py: int): real
    requires |s| == 4 * (width * height) && ch < 4
  {
    if InBounds(width, height, px, py) then Px(s, Idx(width, height, px, py), ch) else 0.0
  }

  /** Sum of channel `ch` over the in-bounds pixels of row `py` at columns
      `x + kx` for `-k <= kx < kxEnd`. */
  function RowSum(s: seq<real>, width: nat, height: nat, ch: nat, x: int, py: int, k: nat, kxEnd: int): real
    requires |s| == 4 * (width * height) && ch < 4
    decreases kxEnd + k
  {
    if kxEnd + k <= 0 then 0.0
    else RowSum(s, width, height, ch, x, py, k, kxEnd - 1) + Sample(s, width, height, ch, x + kxEnd - 1, py)
  }

  /** Number of in-bounds pixels of row `py` at columns `x + kx`, `-k <= kx < kxEnd`. */
  function RowCount(width: nat, height: nat, x: int, py: int, k: nat, kxEnd: int): nat
    decreases kxEnd + k
  {
    if kxEnd + k <= 0 then 0
    else RowCount(width, height, x, py, k, kxEnd - 1) + (if InBounds(width, height, x + kxEnd - 1, py) then 1 else 0)
  }

  /** Sum of channel `ch` over the in-bounds pixels of the window rows
      `y + ky`, `-k <= ky < kyEnd`, each row spanning columns `x - k .. x + k`. */
  function WindowSum(s: seq<real>, width: nat, height: nat, ch: nat, x: int, y: int, k: nat, kyEnd: int): real
    requires |s| == 4 * (width * height) && ch < 4
    decreases kyEnd + k
  {
    if kyEnd + k <= 0 then 0.0
    else WindowSum(s, width, height, ch, x, y, k, kyEnd - 1) + RowSum(s, width, height, ch, x, y + kyEnd - 1, k, k + 1)
  }

  /** Number of in-bounds pixels in the window rows `y + ky`, `-k <= ky < kyEnd`. */
  function WindowCount(width: nat, height: nat, x: int, y: int, k: nat, kyEnd: int): nat
    decreases kyEnd + k
  {
    if kyEnd + k <= 0 then 0
    else WindowCount(width, height, x, y, k, kyEnd - 1) + RowCount(width, height, x, y + kyEnd - 1, k, k + 1)
  }

  lemma {:induction false} RowCountHasCentre(width: nat, height: nat, x: int, py: int, k: nat, kxEnd: int)
    requires InBounds(width, height, x, py) && kxEnd > 0
    ensures RowCount(width, height, x, py, k, kxEnd) >= 1
  {
    if kxEnd > 1 {
      RowCountHasCentre(width, height, x, py, k, kxEnd - 1);
    }
  }

  lemma {:induction false} WindowCountHasCentre(width: nat, height: nat, x: int, y: int, k: nat, kyEnd: int)
    requires InBounds(width, height, x, y) && kyEnd > 0
    ensures WindowCount(width, height, x, y, k, kyEnd) >= 1
  {
    if kyEnd > 1 {
      WindowCountHasCentre(width, height, x, y, k, kyEnd - 1);
    } else {
      RowCountHasCentre(width, height, x, y, k, k + 1);
    }
  }

  /** The blur never divides by zero: the window of an image pixel always
      contains that pixel itself. */
  lemma WindowNeverEmpty(width: nat, height: nat, x: nat, y: nat, k: nat)
    requires x < width && y < height
    ensures WindowCount(width, height, x, y, k, k + 1) >= 1
  {
    WindowCountHasCentre(width, height, x, y, k, k + 1);
  }

  /** Channel `ch` of blurred pixel `(x, y)`: the mean of channel `ch` over the
      in-bounds pixels of the `(2k+1) x (2k+1)` window centred on it. */
  function BlurredAt(s: seq<real>, width: nat, height: nat, k: nat, ch: nat, x: nat, y: nat): real
    requires |s| == 4 * (width * height) && ch < 4 && x < width && y < height
  {
    WindowNeverEmpty(width, height, x, y, k);
    WindowSum(s, width, height, ch, x, y, k, k + 1) / WindowCount(width, height, x, y, k, k + 1) as real
  }

  /** The whole blurred image, entry by entry in RGBA layout. */
  function Blurred(s: seq<real>, width: nat, height: nat, k: nat): (b: seq<real>)
    requires |s| == 4 * (width * height)
    ensures |b| == |s|
  {
    seq(|s|, i requires 0 <= i < |s| =>
      var (x, y) := EntryPixel(width, height, i);
      BlurredAt(s, width, height, k, i % 4, x, y))
  }

  /** The pixel `(x, y)` that entry `i` of RGBA data belongs to. */
  function EntryPixel(width: nat, height: nat, i: nat): (xy: (nat, nat))
    requires i < 4 * (width * height)
    ensures xy.0 < width && xy.1 < height
  {
    PixelOfEntry(width, height, i);
    ((i / 4) % width, (i / 4) / width)
  }

  /** Entry `i` of RGBA data belongs to pixel `((i/4) % width, (i/4) / width)`. */
  lemma PixelOfEntry(width: nat, height: nat, i: nat)
    requires i < 4 * (width * height)
    ensures width > 0 && (i / 4) % width < width && (i / 4) / width < height
  {
    var p := i / 4;
    assert p < width * height;
    if p / width >= height {
      MulLeq(height, p / width, width);
    }
  }

  /** The entry of channel `ch` of pixel `(x, y)` in the blurred image is that
      pixel's window mean. */
  lemma BlurredEntry(s: seq<real>, width: nat, height: nat, k: nat, x: nat, y: nat, ch: nat)
    requires |s| == 4 * (width * height) && x < width && y < height && ch < 4
    ensures 4 * Idx(width, height, x, y) + ch < |s|
    ensures Blurred(s, width, height, k)[4 * Idx(width, height, x, y) + ch] == BlurredAt(s, width, height, k, ch, x, y)
  {
    var p := Idx(width, height, x, y);
    var i := 4 * p + ch;
    assert i / 4 == p && i % 4 == ch;
    DivModPixel(width, x, y);
  }

  /** Row-major pixel numbering is inverted by division and remainder. */
  lemma DivModPixel(width: nat, x: nat, y: nat)
    requires x < width
    ensures (y * width + x) / width == y && (y * width + x) % width == x
  {
    var n := y * width + x;
    var q, r := n / width, n % width;
    assert q * width + r == y * width + x;
    if q > y {
      MulLeq(y + 1, q, width);
      assert false;
    } else if q < y {
      MulLeq(q + 1, y, width);
      assert false;
    }
  }

  /** Sums the four channels of the window of pixel `(x, y)` and counts its
      in-bounds pixels, visiting the window row by row. */
  method KernelSums(srcData: seq<real>, width: nat, height: nat, k: nat, x: nat, y: nat)
    returns (r: real, g: real, b: real, a: real, count: nat)
    requires |srcData| == 4 * (width * height)
    ensures r == WindowSum(srcData, width, height, 0, x, y, k, k + 1)
    ensures g == WindowSum(srcData, width, height, 1, x, y, k, k + 1)
    ensures b == WindowSum(srcData, width, height, 2, x, y, k, k + 1)
    ensures a == WindowSum(srcData, width, height, 3, x, y, k, k + 1)
    ensures count == WindowCount(width, height, x, y, k, k + 1)
  {
    r, g, b, a, count := 0.0, 0.0, 0.0, 0.0, 0;
    for ky := -(k as int) to k + 1
      invariant r == WindowSum(srcData, width, height, 0, x, y, k, ky)
      invariant g == WindowSum(srcData, width, height, 1, x, y, k, ky)
      invariant b == WindowSum(srcData, width, height, 2, x, y, k, ky)
      invariant a == WindowSum(srcData, width, height, 3, x, y, k, ky)
      invariant count == WindowCount(width, height, x, y, k, ky)
    {
      ghost var r0, g0, b0, a0, count0 := r, g, b, a, count;
      for kx := -(k as int) to k + 1
        invariant r == r0 + RowSum(srcData, width, height, 0, x, y + ky, k, kx)
        invariant g == g0 + RowSum(srcData, width, height, 1, x, y + ky, k, kx)
        invariant b == b0 + RowSum(srcData, width, height, 2, x, y + ky, k, kx)
        invariant a == a0 + RowSum(srcData, width, height, 3, x, y + ky, k, kx)
        invariant count == count0 + RowCount(width, height, x, y + ky, k, kx)
      {
        var px := x + kx;
        var py := y + ky;
        if 0 <= px < width && 0 <= py < height {
          var idx := Idx(width, height, px, py) * 4;
          r := r + srcData[idx];
          g := g + srcData[idx + 1];
          b := b + srcData[idx + 2];
          a := a + srcData[idx + 3];
          count := count + 1;
        }
      }
    }
  }

  /** Writes the four channel values of one pixel, starting at entry `i`. */
  method WritePixel(dst: array<real>, i: nat, px: seq<real>)
    requires |px| == 4 && i + 4 <= dst.Length
    modifies dst
    ensures forall j :: 0 <= j < dst.Length ==> dst[j] == if i <= j < i + 4 then px[j - i] else old(dst[j])
  {
    dst[i] := px[0];
    dst[i + 1] := px[1];
    dst[i + 2] := px[2];
    dst[i + 3] := px[3];
  }


  /** The four entries of pixel `(x, y)` in the blurred image are its window
      means, and they are defined. */
  lemma BlurredPixel(s: seq<real>, width: nat, height: nat, k: nat, x: nat, y: nat)
    requires |s| == 4 * (width * height) && x < width && y < height
    ensures 4 * Idx(width, height, x, y) + 4 <= |s|
    ensures WindowCount(width, height, x, y, k, k + 1) >= 1
    ensures var q := 4 * Idx(width, height, x, y);
      Blurred(s, width, height, k)[q..q + 4]
      == [BlurredAt(s, width, height, k, 0, x, y), BlurredAt(s, width, height, k, 1, x, y),
          BlurredAt(s, width, height, k, 2, x, y), BlurredAt(s, width, height, k, 3, x, y)]
  {
    WindowNeverEmpty(width, height, x, y, k);
    BlurredEntry(s, width, height, k, x, y, 0);
    BlurredEntry(s, width, height, k, x, y, 1);
    BlurredEntry(s, width, height, k, x, y, 2);
    BlurredEntry(s, width, height, k, x, y, 3);
  }

  /** Row `y` of the image ends at entry `4 * ((y + 1) * width)`, within the image. */
  lemma RowFits(width: nat, height: nat, y: nat)
    requires y < height
    ensures (y + 1) * width == y * width + width
    ensures y * width + width <= width * height
  {
    MulLeq(y + 1, height, width);
  }

  /** Blurs pixel `(x, y)` of `srcData` into `dst`: its four entries become
      the blurred ones, every other entry is left as it was. */
  method BlurPixel(srcData: seq<real>, width: nat, height: nat, k: nat, x: nat, y: nat, dst: array<real>)
    requires |srcData| == 4 * (width * height) && dst.Length == |srcData| && x < width && y < height
    modifies dst
    ensures forall j :: 0 <= j < dst.Length ==>
      dst[j] == if 4 * Idx(width, height, x, y) <= j < 4 * Idx(width, height, x, y) + 4
                then Blurred(srcData, width, height, k)[j] else old(dst[j])
  {
    var px := WindowMeans(srcData, width, height, k, x, y);
    WritePixel(dst, 4 * Idx(width, height, x, y), px);
  }

  /** The four blurred channel values of pixel `(x, y)`: window sums divided
      by the window's pixel count. */
  method WindowMeans(srcData: seq<real>, width: nat, height: nat, k: nat, x: nat, y: nat) returns (px: seq<real>)
    requires |srcData| == 4 * (width * height) && x < width && y < height
    ensures 4 * Idx(width, height, x, y) + 4 <= |srcData|
    ensures px == Blurred(srcData, width, height, k)[4 * Idx(width, height, x, y)..4 * Idx(width, height, x, y) + 4]
  {
    var r, g, b, a, count := KernelSums(srcData, width, height, k, x, y);
    BlurredPixel(srcData, width, height, k, x, y);
    px := [r / count as real, g / count as real, b / count as real, a / count as real];
  }

  /** Blurs row `y`, which starts at pixel `rowStart`, into `dst`, given
      that the rows above it are already blurred; the rows below are not
      written. */
  method BlurRow(srcData: seq<real>, width: nat, height: nat, k: nat, y: nat, rowStart: nat, dst: array<real>, ghost want: seq<real>)
    requires |srcData| == 4 * (width * height) && dst.Length == |srcData| && y < height
    requires want == Blurred(srcData, width, height, k)
    requires rowStart == y * width && 4 * (rowStart + width) <= dst.Length
    requires forall i :: 0 <= i < 4 * rowStart ==> dst[i] == want[i]
    modifies dst
    ensures forall i :: 0 <= i < 4 * (rowStart + width) ==> dst[i] == want[i]
    ensures forall i :: 4 * (rowStart + width) <= i < dst.Length ==> dst[i] == old(dst[i])
  {
    for x := 0 to width
      invariant forall i :: 0 <= i < 4 * (rowStart + x) ==> dst[i] == want[i]
      invariant forall i :: 4 * (rowStart + width) <= i < dst.Length ==> dst[i] == old(dst[i])
    {
      BlurPixel(srcData, width, height, k, x, y, dst);
      assert rowStart + x == Idx(width, height, x, y);
    }
  }

  /** Blurs one canvas: every pixel becomes the mean of its window in a copy
      of the original data, and the result is written back. */
  method BlurCanvas(ctx: Canvas, k: nat)
    requires ctx.Valid()
    modifies ctx
    ensures ctx.Valid()
    ensures ctx.pixels == Blurred(old(ctx.pixels), ctx.width, ctx.height, k)
  {
    var src := ctx.GetImageData();
    var dst := BlurData(src[..], ctx.width, ctx.height, k);
    ctx.PutImageData(dst);
  }

  /** Blurs a copy of the canvas data row by row into a fresh array. */
  method BlurData(srcData: seq<real>, width: nat, height: nat, k: nat) returns (dst: array<real>)
    requires |srcData| == 4 * (width * height)
    ensures fresh(dst) && dst[..] == Blurred(srcData, width, height, k)
  {
    dst := new real[4 * (width * height)];
    ghost var want := Blurred(srcData, width, height, k);
    for y := 0 to height
      invariant 4 * (y * width) <= dst.Length
      invariant forall i :: 0 <= i < 4 * (y * width) ==> dst[i] == want[i]
    {
      RowFits(width, height, y);
      BlurRow(srcData, width, height, k, y, y * width, dst, want);
    }
  }


  /** Blurs every canvas with half-kernel size `halfKernelSize`, raised to 1
      when smaller. */
  method BlurImages(contexts: seq<Canvas>, halfKernelSize: int)
    requires DistinctValid(contexts)
    modifies set c | c in contexts
    ensures DistinctValid(contexts)
    ensures forall i :: 0 <= i < |contexts| ==>
      contexts[i].pixels == Blurred(old(contexts[i].pixels), contexts[i].width, contexts[i].height, EffectiveHalfKernel(halfKernelSize))
  {
    var k := halfKernelSize;
    if k < 1 {
      k := 1;
    }
    for j := 0 to |contexts|
      invariant DistinctValid(contexts)
      invariant forall i :: 0 <= i < j ==>
        contexts[i].pixels == Blurred(old(contexts[i].pixels), contexts[i].width, contexts[i].height, k)
      invariant forall i :: j <= i < |contexts| ==> contexts[i].pixels == old(contexts[i].pixels)
    {
      BlurCanvas(contexts[j], k);
    }
  }

  /** The half-kernel size `blur_images` uses when its caller gives none. */
  const DEFAULT_HALF_KERNEL: int := 4

  /** `blur_images` called without a half-kernel size, as the capture run
      calls it: every canvas is blurred with the default half-kernel of 4. */
  method BlurImagesDefault(contexts: seq<Canvas>)
    requires DistinctValid(contexts)
    modifies set c | c in contexts
    ensures DistinctValid(contexts)
    ensures forall i :: 0 <= i < |contexts| ==>
      contexts[i].pixels == Blurred(old(contexts[i].pixels), contexts[i].width, contexts[i].height, EffectiveHalfKernel(DEFAULT_HALF_KERNEL))
  {
    BlurImages(contexts, DEFAULT_HALF_KERNEL);
  }

  /** The half-kernel size actually used: at least 1. */
  function EffectiveHalfKernel(halfKernelSize: int): (k: nat)
    ensures k >= 1 && (halfKernelSize >= 1 ==> k == halfKernelSize)
  {
    if halfKernelSize < 1 then 1 else halfKernelSize
  }

  // ------------------------------------------------- properties of the blur

  /** Channel `ch` of every pixel lies in `[lo, hi]`. */
  ghost predicate ChannelWithin(s: seq<real>, ch: nat, lo: real, hi: real)
  {
    ch < 4 && forall p: nat :: 4 * p + ch < |s| ==> lo <= Px(s, p, ch) <= hi
  }

  /** `c * total` splits over `total == n + m`. */
  lemma ScaledSum(c: real, n: real, m: real, total: real)
    requires total == n + m
    ensures c * total == c * n + c * m
  {
  }

  /** `v` added `n` times. */
  function Times(v: real, n: nat): real
  {
    if n == 0 then 0.0 else Times(v, n - 1) + v
  }

  /** Adding `v` `n` times gives `v * n`. */
  lemma {:induction false} TimesIsProduct(v: real, n: nat)
    ensures Times(v, n) == v * n as real
  {
    if n > 0 {
      TimesIsProduct(v, n - 1);
      ScaledSum(v, (n - 1) as real, 1.0, n as real);
    }
  }

  /** Adding `v` `n + m` times is adding it `n` times and then `m` times. */
  lemma {:induction false} TimesAdd(v: real, n: nat, m: nat)
    ensures Times(v, n + m) == Times(v, n) + Times(v, m)
  {
    if m > 0 {
      TimesAdd(v, n, m - 1);
    }
  }

  /** One sample lies within `[lo, hi]` when it is inside the image and is 0 outside. */
  lemma SampleBound(s: seq<real>, width: nat, height: nat, ch: nat, px: int, py: int, lo: real, hi: real)
    requires |s| == 4 * (width * height) && ChannelWithin(s, ch, lo, hi)
    ensures Times(lo, if InBounds(width, height, px, py) then 1 else 0) <= Sample(s, width, height, ch, px, py)
    ensures Sample(s, width, height, ch, px, py) <= Times(hi, if InBounds(width, height, px, py) then 1 else 0)
  {
    if InBounds(width, height, px, py) {
      var p := Idx(width, height, px, py);
      assert 4 * p + ch < |s|;
    }
  }

  lemma {:induction false} RowSumWithin(s: seq<real>, width: nat, height: nat, ch: nat, x: int, py: int, k: nat, kxEnd: int, lo: real, hi: real)
    requires |s| == 4 * (width * height) && ChannelWithin(s, ch, lo, hi)
    ensures Times(lo, RowCount(width, height, x, py, k, kxEnd)) <= RowSum(s, width, height, ch, x, py, k, kxEnd)
    ensures RowSum(s, width, height, ch, x, py, k, kxEnd) <= Times(hi, RowCount(width, height, x, py, k, kxEnd))
    decreases kxEnd + k
  {
    if kxEnd + k > 0 {
      RowSumWithin(s, width, height, ch, x, py, k, kxEnd - 1, lo, hi);
      SampleBound(s, width, height, ch, x + kxEnd - 1, py, lo, hi);
      var n0, d := RowCount(width, height, x, py, k, kxEnd - 1), if InBounds(width, height, x + kxEnd - 1, py) then 1 else 0;
      TimesAdd(lo, n0, d);
      TimesAdd(hi, n0, d);
    }
  }

  lemma {:induction false} WindowSumWithin(s: seq<real>, width: nat, height: nat, ch: nat, x: int, y: int, k: nat, kyEnd: int, lo: real, hi: real)
    requires |s| == 4 * (width * height) && ChannelWithin(s, ch, lo, hi)
    ensures Times(lo, WindowCount(width, height, x, y, k, kyEnd)) <= WindowSum(s, width, height, ch, x, y, k, kyEnd)
    ensures WindowSum(s, width, height, ch, x, y, k, kyEnd) <= Times(hi, WindowCount(width, height, x, y, k, kyEnd))
    decreases kyEnd + k
  {
    if kyEnd + k > 0 {
      WindowSumWithin(s, width, height, ch, x, y, k, kyEnd - 1, lo, hi);
      RowSumWithin(s, width, height, ch, x, y + kyEnd - 1, k, k + 1, lo, hi);
      var n0, n1 := WindowCount(width, height, x, y, k, kyEnd - 1), RowCount(width, height, x, y + kyEnd - 1, k, k + 1);
      TimesAdd(lo, n0, n1);
      TimesAdd(hi, n0, n1);
    }
  }

  /** Blurring keeps every channel within the range of its input values: a
      mean never leaves the interval its samples lie in. */
  lemma BlurStaysWithin(s: seq<real>, width: nat, height: nat, k: nat, ch: nat, x: nat, y: nat, lo: real, hi: real)
    requires |s| == 4 * (width * height) && x < width && y < height
    requires ChannelWithin(s, ch, lo, hi)
    ensures lo <= BlurredAt(s, width, height, k, ch, x, y) <= hi
  {
    WindowNeverEmpty(width, height, x, y, k);
    WindowSumWithin(s, width, height, ch, x, y, k, k + 1, lo, hi);
    MeanOfCountWithin(WindowSum(s, width, height, ch, x, y, k, k + 1), WindowCount(width, height, x, y, k, k + 1), lo, hi);
  }

  /** A sum of `n >= 1` terms in `[lo, hi]` has its mean in `[lo, hi]`. */
  lemma MeanOfCountWithin(sum: real, n: nat, lo: real, hi: real)
    requires n >= 1 && Times(lo, n) <= sum <= Times(hi, n)
    ensures lo <= sum / n as real <= hi
  {
    TimesIsProduct(lo, n);
    TimesIsProduct(hi, n);
    MeanWithin(sum, n as real, lo, hi);
  }

  /** A mean of terms in `[lo, hi]` lies in `[lo, hi]`. */
  lemma MeanWithin(sum: real, n: real, lo: real, hi: real)
    requires n > 0.0 && lo * n <= sum <= hi * n
    ensures lo <= sum / n <= hi
  {
    var m := sum / n;
    assert m * n == sum;
  }

  /** Every pixel has the same colour as the first one. */
  ghost predicate Uniform(s: seq<real>)
  {
    forall i :: 0 <= i < |s| ==> s[i] == s[i % 4]
  }

  /** In a uniform image channel `ch` of every pixel equals entry `ch`. */
  lemma UniformChannel(s: seq<real>, ch: nat)
    requires Uniform(s) && ch < 4 && ch < |s|
    ensures ChannelWithin(s, ch, s[ch], s[ch])
  {
    forall p: nat | 4 * p + ch < |s|
      ensures Px(s, p, ch) == s[ch]
    {
      assert (4 * p + ch) % 4 == ch;
    }
  }

  /** Entry `i` of the blurred uniform image equals entry `i` of the image. */
  lemma UniformEntry(s: seq<real>, width: nat, height: nat, k: nat, i: nat)
    requires |s| == 4 * (width * height) && Uniform(s) && i < |s|
    ensures Blurred(s, width, height, k)[i] == s[i]
  {
    var (x, y) := EntryPixel(width, height, i);
    var ch := i % 4;
    UniformChannel(s, ch);
    BlurStaysWithin(s, width, height, k, ch, x, y, s[ch], s[ch]);
  }

  /** A uniform image is returned unchanged by the blur. */
  lemma BlurUniform(s: seq<real>, width: nat, height: nat, k: nat)
    requires |s| == 4 * (width * height) && Uniform(s)
    ensures Blurred(s, width, height, k) == s
  {
    forall i | 0 <= i < |s|
      ensures Blurred(s, width, height, k)[i] == s[i]
    {
      UniformEntry(s, width, height, k, i);
    }
  }
}
