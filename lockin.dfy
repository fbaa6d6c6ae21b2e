/** Lock-in analysis of the captured frames: for every LED, the red channel
    of the frames in which it was lit is added up, the weighted red channel
    of the frames in which it was dark is subtracted, and the brightest pixel
    of the result is taken as the LED's position in the camera image. */
module LockIn {
  import opened Schedule
  import opened Imaging
  import opened JsArrays

  /** The pixel data of the first `n` canvases, in order. */
  ghost function Frames(contexts: seq<Canvas>, n: nat): (frames: seq<seq<real>>)
    requires n <= |contexts|
    reads set c | c in contexts
    ensures |frames| == n
    ensures forall c :: 0 <= c < n ==> frames[c] == contexts[c].pixels
  {
    if n == 0 then [] else Frames(contexts, n - 1) + [contexts[n - 1].pixels]
  }

  /** The first `numCycles` frames all hold `size` RGBA pixels. */
  ghost predicate FramesFit(frames: seq<seq<real>>, numCycles: nat, size: nat)
  {
    numCycles <= |frames| && forall c :: 0 <= c < numCycles ==> |frames[c]| == 4 * size
  }

  /** Lock-in value of pixel `i` for LED `led` after the first `upto` cycles:
      the red channel of every "on" frame added, the red channel of every
      "off" frame subtracted with the off-image weight. */
  function LockInAt(led: nat, numCycles: nat, frames: seq<seq<real>>, i: nat, upto: nat): real
    requires upto <= numCycles <= |frames|
    requires forall c :: 0 <= c < numCycles ==> 4 * i < |frames[c]|
  {
    if upto == 0 then 0.0
    else
      var c := upto - 1;
      var prev := LockInAt(led, numCycles, frames, i, c);
      if IsLedOn(led, c) then prev + Px(frames[c], i, 0)
      else
        OffCycleGivesOffCount(led, numCycles, c);
        prev - Px(frames[c], i, 0) * OffWeightOf(led, numCycles)
  }

  /** The lock-in image of LED `led`: one value per pixel. */
  function LockInImage(led: nat, numCycles: nat, frames: seq<seq<real>>, size: nat): (image: seq<real>)
    requires FramesFit(frames, numCycles, size)
    ensures |image| == size
  {
    seq(size, i requires 0 <= i < size => LockInAt(led, numCycles, frames, i, numCycles))
  }

  /** Adds the red channel of RGBA data `addition` to `base`, pixel by pixel. */
  method Add(base: array<real>, addition: seq<real>)
    requires |addition| == 4 * base.Length
    modifies base
    ensures forall i :: 0 <= i < base.Length ==> base[i] == old(base[i]) + Px(addition, i, 0)
  {
    for i := 0 to base.Length
      invariant forall j :: 0 <= j < i ==> base[j] == old(base[j]) + Px(addition, j, 0)
      invariant forall j :: i <= j < base.Length ==> base[j] == old(base[j])
    {
      base[i] := base[i] + addition[i * 4];
    }
  }

  /** Subtracts the red channel of RGBA data `subtraction`, scaled by
      `weight`, from `base`, pixel by pixel. */
  method Sub(base: array<real>, subtraction: seq<real>, weight: real)
    requires |subtraction| == 4 * base.Length
    modifies base
    ensures forall i :: 0 <= i < base.Length ==> base[i] == old(base[i]) - Px(subtraction, i, 0) * weight
  {
    for i := 0 to base.Length
      invariant forall j :: 0 <= j < i ==> base[j] == old(base[j]) - Px(subtraction, j, 0) * weight
      invariant forall j :: i <= j < base.Length ==> base[j] == old(base[j])
    {
      base[i] := base[i] - subtraction[i * 4] * weight;
    }
  }

  /** The first `numCycles` canvases are valid and `width` by `height`. */
  ghost predicate CapturedAt(contexts: seq<Canvas>, numCycles: nat, width: nat, height: nat)
    reads set c | c in contexts
  {
    numCycles <= |contexts| &&
    forall c :: 0 <= c < numCycles ==> contexts[c].Valid() && contexts[c].width == width && contexts[c].height == height
  }

  /** Accumulates the lock-in image of LED `led` over the first `numCycles`
      captured canvases into a fresh zero-initialised array. */
  method ComputeLockIn(led: nat, numCycles: nat, width: nat, height: nat, contexts: seq<Canvas>)
    returns (image: array<real>)
    requires CapturedAt(contexts, numCycles, width, height)
    ensures fresh(image)
    ensures FramesFit(Frames(contexts, numCycles), numCycles, width * height)
    ensures image[..] == LockInImage(led, numCycles, Frames(contexts, numCycles), width * height)
  {
    ghost var frames := Frames(contexts, numCycles);
    image := new real[width * height](_ => 0.0);
    for shift := 0 to numCycles
      invariant fresh(image) && image.Length == width * height
      invariant forall i :: 0 <= i < image.Length ==> image[i] == LockInAt(led, numCycles, frames, i, shift)
    {
      var img := contexts[shift].GetImageData();
      if IsLedOn(led, shift) {
        Add(image, img[..]);
      } else {
        OffCycleGivesOffCount(led, numCycles, shift);
        var thisOffWeight := OffWeight(led, numCycles);
        Sub(image, img[..], thisOffWeight);
      }
    }
  }

  // ------------------------------------------------------------ peak search

  /** Scanning `s` from the left with a running maximum that starts at 0 and
      is raised only by a strictly larger value: the final maximum and the
      index at which it was last raised (0 if it never was). */
  function Peak(s: seq<real>): (r: (real, nat))
    ensures r.0 >= 0.0
    ensures forall k :: 0 <= k < |s| ==> s[k] <= r.0
    ensures r.0 > 0.0 ==> r.1 < |s| && s[r.1] == r.0 && forall k :: 0 <= k < r.1 ==> s[k] < r.0
    ensures r.0 == 0.0 ==> r.1 == 0
  {
    if |s| == 0 then (0.0, 0)
    else
      var prev := Peak(s[..|s| - 1]);
      if s[|s| - 1] > prev.0 then (s[|s| - 1], |s| - 1) else prev
  }

  /** The pixel coordinates of the peak of a row-major image `width` wide. */
  function PeakPixel(s: seq<real>, width: nat): (p: (nat, nat))
    ensures width > 0 ==> p.0 < width && p.1 * width + p.0 == Peak(s).1
    ensures width == 0 ==> p == (0, 0)
  {
    var j := Peak(s).1;
    if width == 0 then (0, 0) else (j % width, j / width)
  }

  /** The peak pixel lies inside the image, and it is the pixel whose index
      the scan found. */
  lemma PeakPixelInImage(s: seq<real>, width: nat, height: nat)
    requires |s| == width * height && |s| > 0
    ensures var (x, y) := PeakPixel(s, width);
      x < width && y < height && y * width + x == Peak(s).1
  {
    var j := Peak(s).1;
    assert width > 0;
    PixelOfEntry(width, height, 4 * j);
    assert (4 * j) / 4 == j;
  }

  /** Finds the brightest pixel of a lock-in image, scanning in index order
      and keeping the first of equally bright pixels; `(0, 0)` when no value
      is above 0. */
  method FindPeak(image: array<real>, width: nat, height: nat) returns (x: nat, y: nat)
    requires image.Length == width * height
    ensures (x, y) == PeakPixel(image[..], width)
  {
    var maxBrightness := 0.0;
    x, y := 0, 0;
    ghost var best := 0;
    for i := 0 to image.Length
      invariant (maxBrightness, best) == Peak(image[..i])
      invariant (x, y) == PeakPixel(image[..i], width)
    {
      assert image[..i + 1][..i] == image[..i];
      var brightness := image[i];
      if brightness > maxBrightness {
        assert width > 0;
        maxBrightness := brightness;
        x := i % width;
        y := i / width;
        best := i;
      }
    }
    assert image[..image.Length] == image[..];
  }

  /** The raw pixel position of LED `led`: the peak of its lock-in image. */
  ghost function LedPosition(led: nat, numCycles: nat, width: nat, height: nat, frames: seq<seq<real>>): (nat, nat)
    requires FramesFit(frames, numCycles, width * height)
  {
    PeakPixel(LockInImage(led, numCycles, frames, width * height), width)
  }

  /** The positions of the LEDs below `numLeds`, keyed by LED index. */
  ghost function LedPositions(numLeds: nat, numCycles: nat, width: nat, height: nat, frames: seq<seq<real>>): (m: map<nat, (nat, nat)>)
    requires FramesFit(frames, numCycles, width * height)
    ensures forall l: nat :: l in m <==> l < numLeds
  {
    map l: nat | l < numLeds :: LedPosition(l, numCycles, width, height, frames)
  }

  /** For every LED below `numLeds`, computes its lock-in image and stores its
      peak pixel as `[x, y]` at index `led` of `ledPositionsRaw`; entries at
      other indices are kept. */
  method AnalyzeLockInData(numLeds: nat, numCycles: nat, width: nat, height: nat, contexts: seq<Canvas>,
                           ledPositionsRaw: JsArray<(nat, nat)>)
    requires CapturedAt(contexts, numCycles, width, height)
    modifies ledPositionsRaw
    ensures FramesFit(Frames(contexts, numCycles), numCycles, width * height)
    ensures ledPositionsRaw.slots
         == old(ledPositionsRaw.slots) + LedPositions(numLeds, numCycles, width, height, Frames(contexts, numCycles))
  {
    ghost var frames := Frames(contexts, numCycles);
    for led := 0 to numLeds
      invariant Frames(contexts, numCycles) == frames && FramesFit(frames, numCycles, width * height)
      invariant ledPositionsRaw.slots == old(ledPositionsRaw.slots) + LedPositions(led, numCycles, width, height, frames)
    {
      var x, y := LocateLed(led, numCycles, width, height, contexts);
      ledPositionsRaw.Set(led, (x, y));
      LedPositionsStep(led, numCycles, width, height, frames);
      OverrideUpdate(old(ledPositionsRaw.slots), LedPositions(led, numCycles, width, height, frames), led, (x, y));
    }
  }

  /** One more LED adds its own position and nothing else. */
  lemma LedPositionsStep(n: nat, numCycles: nat, width: nat, height: nat, frames: seq<seq<real>>)
    requires FramesFit(frames, numCycles, width * height)
    ensures LedPositions(n + 1, numCycles, width, height, frames)
         == LedPositions(n, numCycles, width, height, frames)[n := LedPosition(n, numCycles, width, height, frames)]
  {
  }

  /** Setting a key after overriding `a` with `b` is overriding `a` with `b`
      where that key is set. */
  lemma OverrideUpdate<T>(a: map<nat, T>, b: map<nat, T>, k: nat, v: T)
    ensures (a + b)[k := v] == a + b[k := v]
  {
  }

  /** Computes the lock-in image of LED `led` and returns its peak pixel. */
  method LocateLed(led: nat, numCycles: nat, width: nat, height: nat, contexts: seq<Canvas>) returns (x: nat, y: nat)
    requires CapturedAt(contexts, numCycles, width, height)
    ensures FramesFit(Frames(contexts, numCycles), numCycles, width * height)
    ensures (x, y) == LedPosition(led, numCycles, width, height, Frames(contexts, numCycles))
  {
    var imageData := ComputeLockIn(led, numCycles, width, height, contexts);
    x, y := FindPeak(imageData, width, height);
  }

  // ------------------------------------------------ what the lock-in achieves

  /** Sum of the red values of pixel `i` over the first `upto` cycles in
      which the LED is lit (`lit`) or dark (`!lit`). */
  function RedSum(led: nat, frames: seq<seq<real>>, i: nat, upto: nat, lit: bool): real
    requires upto <= |frames|
    requires forall c :: 0 <= c < upto ==> 4 * i < |frames[c]|
  {
    if upto == 0 then 0.0
    else RedSum(led, frames, i, upto - 1, lit) + (if IsLedOn(led, upto - 1) == lit then Px(frames[upto - 1], i, 0) else 0.0)
  }

  /** The lock-in value is the sum over the on frames minus the off weight
      times the sum over the off frames. */
  lemma {:induction false} LockInFormula(led: nat, numCycles: nat, frames: seq<seq<real>>, i: nat, upto: nat)
    requires upto <= numCycles <= |frames|
    requires forall c :: 0 <= c < numCycles ==> 4 * i < |frames[c]|
    requires CountOff(led, numCycles) > 0
    ensures LockInAt(led, numCycles, frames, i, upto)
         == RedSum(led, frames, i, upto, true) - OffWeightOf(led, numCycles) * RedSum(led, frames, i, upto, false)
  {
    var w := OffWeightOf(led, numCycles);
    if upto == 0 {
      ScaledSum(w, 0.0, 0.0, RedSum(led, frames, i, upto, false));
    } else {
      var c := upto - 1;
      LockInFormula(led, numCycles, frames, i, c);
      var red := Px(frames[c], i, 0);
      var off0, off1 := RedSum(led, frames, i, c, false), RedSum(led, frames, i, upto, false);
      if IsLedOn(led, c) {
        assert off1 == off0;
      } else {
        ScaledSum(w, off0, red, off1);
      }
    }
  }

  /** Number of cycles among `0 .. n-1` in which the LED is lit (`lit`) or dark (`!lit`). */
  function Selected(led: nat, n: nat, lit: bool): nat
  {
    if lit then CountOn(led, n) else CountOff(led, n)
  }

  /** A red value `v` in each of the selected cycles sums to `v` once per selected cycle. */
  lemma {:induction false} RedSumOfConstant(led: nat, frames: seq<seq<real>>, i: nat, upto: nat, lit: bool, v: real)
    requires upto <= |frames|
    requires forall c :: 0 <= c < upto ==> 4 * i < |frames[c]|
    requires forall c :: 0 <= c < upto && IsLedOn(led, c) == lit ==> Px(frames[c], i, 0) == v
    ensures RedSum(led, frames, i, upto, lit) == Times(v, Selected(led, upto, lit))
  {
    if upto > 0 {
      RedSumOfConstant(led, frames, i, upto - 1, lit, v);
    }
  }

  /** Constant background cancels: a pixel with the same red value in every
      frame comes out as 0 whenever the LED has an off cycle. */
  lemma ConstantPixelCancels(led: nat, numCycles: nat, frames: seq<seq<real>>, i: nat, a: real)
    requires numCycles <= |frames|
    requires forall c :: 0 <= c < numCycles ==> 4 * i < |frames[c]|
    requires CountOff(led, numCycles) > 0
    requires forall c :: 0 <= c < numCycles ==> Px(frames[c], i, 0) == a
    ensures LockInAt(led, numCycles, frames, i, numCycles) == 0.0
  {
    LockInFormula(led, numCycles, frames, i, numCycles);
    RedSumOfConstant(led, frames, i, numCycles, true, a);
    RedSumOfConstant(led, frames, i, numCycles, false, a);
    TimesIsProduct(a, CountOn(led, numCycles));
    TimesIsProduct(a, CountOff(led, numCycles));
    var on, off, w := CountOn(led, numCycles) as real, CountOff(led, numCycles) as real, OffWeightOf(led, numCycles);
    OffWeightBalances(led, numCycles);
    assert w * (a * off) == a * (w * off);
  }

  /** The LED's own light survives: under the one-hot schedule with at least
      two cycles, a pixel that is `d` brighter in the LED's own frame than its
      background `b` in all frames comes out as exactly `d`. */
  lemma LedLightSurvives(led: nat, numCycles: nat, frames: seq<seq<real>>, i: nat, b: real, d: real)
    requires led < numCycles && 2 <= numCycles <= |frames|
    requires forall c :: 0 <= c < numCycles ==> 4 * i < |frames[c]|
    requires forall c :: 0 <= c < numCycles ==> Px(frames[c], i, 0) == b + (if IsLedOn(led, c) then d else 0.0)
    ensures LockInAt(led, numCycles, frames, i, numCycles) == d
  {
    OffWeightOneHot(led, numCycles);
    CountOnOneHot(led, numCycles);
    LockInFormula(led, numCycles, frames, i, numCycles);
    RedSumOfConstant(led, frames, i, numCycles, true, b + d);
    RedSumOfConstant(led, frames, i, numCycles, false, b);
    TimesIsProduct(b + d, CountOn(led, numCycles));
    TimesIsProduct(b, CountOff(led, numCycles));
    var n := (numCycles - 1) as real;
    assert 1.0 / n * (b * n) == b;
  }

  /** When the LED lights up a single pixel `spot` by `d > 0` over a static
      background, the lock-in image is `d` at `spot` and 0 elsewhere, and the
      peak search finds `spot`. */
  lemma LockInFindsLed(led: nat, numCycles: nat, frames: seq<seq<real>>, size: nat,
                       background: seq<real>, spot: nat, d: real)
    requires led < numCycles && 2 <= numCycles && FramesFit(frames, numCycles, size)
    requires |background| == size && spot < size && d > 0.0
    requires forall c, i :: 0 <= c < numCycles && 0 <= i < size ==>
      Px(frames[c], i, 0) == background[i] + (if IsLedOn(led, c) && i == spot then d else 0.0)
    ensures forall i :: 0 <= i < size ==> LockInImage(led, numCycles, frames, size)[i] == if i == spot then d else 0.0
    ensures Peak(LockInImage(led, numCycles, frames, size)) == (d, spot)
  {
    var image := LockInImage(led, numCycles, frames, size);
    forall i | 0 <= i < size
      ensures image[i] == if i == spot then d else 0.0
    {
      LedLightSurvives(led, numCycles, frames, i, background[i], if i == spot then d else 0.0);
    }
    var r := Peak(image);
    assert image[spot] == d;
  }

  /** A red value `v` in each selected cycle, raised by `e` in cycle `m`
      alone, sums to `v` once per selected cycle plus `e` when cycle `m` is
      among them. */
  lemma {:induction false} RedSumWithSpike(led: nat, frames: seq<seq<real>>, i: nat, upto: nat, lit: bool, v: real, m: nat, e: real)
    requires upto <= |frames|
    requires forall c :: 0 <= c < upto ==> 4 * i < |frames[c]|
    requires forall c :: 0 <= c < upto && IsLedOn(led, c) == lit ==> Px(frames[c], i, 0) == v + (if c == m then e else 0.0)
    ensures RedSum(led, frames, i, upto, lit)
         == Times(v, Selected(led, upto, lit)) + (if m < upto && IsLedOn(led, m) == lit then e else 0.0)
  {
    if upto > 0 {
      RedSumWithSpike(led, frames, i, upto - 1, lit, v, m, e);
    }
  }

  /** Another LED's light shows up negatively: under the one-hot schedule
      with at least two cycles, a pixel that is `e` brighter than its
      background `b` only in the cycle `m` of another LED comes out as
      `-e / (numCycles - 1)`. */
  lemma OtherLedDimmed(led: nat, numCycles: nat, frames: seq<seq<real>>, i: nat, b: real, m: nat, e: real)
    requires led < numCycles && 2 <= numCycles <= |frames| && m < numCycles && m != led
    requires forall c :: 0 <= c < numCycles ==> 4 * i < |frames[c]|
    requires forall c :: 0 <= c < numCycles ==> Px(frames[c], i, 0) == b + (if c == m then e else 0.0)
    ensures LockInAt(led, numCycles, frames, i, numCycles) == -e / (numCycles - 1) as real
  {
    var n := (numCycles - 1) as real;
    var on, off := RedSum(led, frames, i, numCycles, true), RedSum(led, frames, i, numCycles, false);
    OtherLedSums(led, numCycles, frames, i, b, m, e);
    LockInOneHot(led, numCycles, frames, i);
    SpikeShare(b, e, n);
  }

  /** Weighting `n` off cycles of background `b` plus one spike `e` by `1 / n`
      leaves the spike's share `-e / n` after the background cancels. */
  lemma SpikeShare(b: real, e: real, n: real)
    requires n > 0.0
    ensures b - 1.0 / n * (b * n + e) == -e / n
  {
    assert 1.0 / n * (b * n + e) == b + e / n;
  }

  /** The sums of such a pixel: its one on cycle holds the background, and its
      `numCycles - 1` off cycles hold the background plus the spike once. */
  lemma OtherLedSums(led: nat, numCycles: nat, frames: seq<seq<real>>, i: nat, b: real, m: nat, e: real)
    requires led < numCycles && 2 <= numCycles <= |frames| && m < numCycles && m != led
    requires forall c :: 0 <= c < numCycles ==> 4 * i < |frames[c]|
    requires forall c :: 0 <= c < numCycles ==> Px(frames[c], i, 0) == b + (if c == m then e else 0.0)
    ensures RedSum(led, frames, i, numCycles, true) == b
    ensures RedSum(led, frames, i, numCycles, false) == b * (numCycles - 1) as real + e
  {
    CountOnOneHot(led, numCycles);
    CountsPartition(led, numCycles);
    RedSumWithSpike(led, frames, i, numCycles, true, b, m, e);
    RedSumWithSpike(led, frames, i, numCycles, false, b, m, e);
    TimesIsProduct(b, numCycles - 1);
  }

  /** Under the one-hot schedule with at least two cycles the off frames are
      weighted by `1 / (numCycles - 1)`. */
  lemma LockInOneHot(led: nat, numCycles: nat, frames: seq<seq<real>>, i: nat)
    requires led < numCycles && 2 <= numCycles <= |frames|
    requires forall c :: 0 <= c < numCycles ==> 4 * i < |frames[c]|
    ensures LockInAt(led, numCycles, frames, i, numCycles)
         == RedSum(led, frames, i, numCycles, true) - 1.0 / (numCycles - 1) as real * RedSum(led, frames, i, numCycles, false)
  {
    OffWeightOneHot(led, numCycles);
    var w := OffWeightOf(led, numCycles);
    assert w == 1.0 / (numCycles - 1) as real;
    LockInFormula(led, numCycles, frames, i, numCycles);
  }

  /** A full one-hot scan with one LED per cycle: over a static background,
      LED `m` adds `gains[m] > 0` at its own pixel `spots[m]` in cycle `m`
      only, and no two LEDs share a pixel. */
  ghost predicate OneHotScan(numCycles: nat, frames: seq<seq<real>>, size: nat,
                             background: seq<real>, spots: seq<nat>, gains: seq<real>)
  {
    && 2 <= numCycles && FramesFit(frames, numCycles, size)
    && |background| == size && |spots| == numCycles && |gains| == numCycles
    && (forall m :: 0 <= m < numCycles ==> spots[m] < size && gains[m] > 0.0)
    && (forall m, m' :: 0 <= m < m' < numCycles ==> spots[m] != spots[m'])
    && (forall c, i :: 0 <= c < numCycles && 0 <= i < size ==>
          Px(frames[c], i, 0) == background[i] + (if i == spots[c] then gains[c] else 0.0))
  }

  /** In such a scan, LED `l`'s lock-in value at the spot of LED `m` is
      `gains[l]` for its own spot and `-gains[m] / (numCycles - 1)` for the
      spot of another LED. */
  lemma ScanValueAtSpot(l: nat, numCycles: nat, frames: seq<seq<real>>, size: nat,
                        background: seq<real>, spots: seq<nat>, gains: seq<real>, m: nat)
    requires OneHotScan(numCycles, frames, size, background, spots, gains)
    requires l < numCycles && m < numCycles
    ensures LockInImage(l, numCycles, frames, size)[spots[m]]
         == if m == l then gains[l] else -gains[m] / (numCycles - 1) as real
  {
    var i := spots[m];
    forall c | 0 <= c < numCycles
      ensures Px(frames[c], i, 0) == background[i] + (if c == m then gains[m] else 0.0)
    {
      assert c != m ==> spots[c] != spots[m];
    }
    if m == l {
      LedLightSurvives(l, numCycles, frames, i, background[i], gains[l]);
    } else {
      OtherLedDimmed(l, numCycles, frames, i, background[i], m, gains[m]);
    }
  }

  /** In such a scan, a pixel that no LED lights comes out as 0. */
  lemma ScanValueElsewhere(l: nat, numCycles: nat, frames: seq<seq<real>>, size: nat,
                           background: seq<real>, spots: seq<nat>, gains: seq<real>, i: nat)
    requires OneHotScan(numCycles, frames, size, background, spots, gains)
    requires l < numCycles && i < size && i !in spots
    ensures LockInImage(l, numCycles, frames, size)[i] == 0.0
  {
    OffWeightOneHot(l, numCycles);
    ConstantPixelCancels(l, numCycles, frames, i, background[i]);
  }

  /** In such a scan, the lock-in image of LED `l` is `gains[l]` at its own
      spot, `-gains[m] / (numCycles - 1)` at the spot of every other LED `m`,
      and 0 elsewhere; so its peak is LED `l`'s spot. */
  lemma OneHotScanImage(l: nat, numCycles: nat, frames: seq<seq<real>>, size: nat,
                        background: seq<real>, spots: seq<nat>, gains: seq<real>)
    requires OneHotScan(numCycles, frames, size, background, spots, gains)
    requires l < numCycles
    ensures forall m :: 0 <= m < numCycles ==>
      LockInImage(l, numCycles, frames, size)[spots[m]]
        == if m == l then gains[l] else -gains[m] / (numCycles - 1) as real
    ensures forall i :: 0 <= i < size && i !in spots ==> LockInImage(l, numCycles, frames, size)[i] == 0.0
    ensures Peak(LockInImage(l, numCycles, frames, size)) == (gains[l], spots[l])
  {
    var image := LockInImage(l, numCycles, frames, size);
    forall m | 0 <= m < numCycles
      ensures image[spots[m]] == if m == l then gains[l] else -gains[m] / (numCycles - 1) as real
    {
      ScanValueAtSpot(l, numCycles, frames, size, background, spots, gains, m);
    }
    forall i | 0 <= i < size && i !in spots
      ensures image[i] == 0.0
    {
      ScanValueElsewhere(l, numCycles, frames, size, background, spots, gains, i);
    }
    forall i | 0 <= i < size && i != spots[l]
      ensures image[i] <= 0.0
    {
      if i in spots {
        var m :| 0 <= m < numCycles && spots[m] == i;
        assert gains[m] / (numCycles - 1) as real > 0.0;
      }
    }
    PeakOfSingleBright(image, spots[l]);
  }

  /** An image with one positive value and nothing else above 0 peaks there. */
  lemma PeakOfSingleBright(s: seq<real>, j: nat)
    requires j < |s| && s[j] > 0.0
    requires forall i :: 0 <= i < |s| && i != j ==> s[i] <= 0.0
    ensures Peak(s) == (s[j], j)
  {
    var r := Peak(s);
    assert s[r.1] == r.0;
  }

  /** In such a scan with as many LEDs as cycles, the analysis stores for
      every LED the pixel coordinates of its own spot. */
  lemma OneHotScanLocatesEveryLed(numLeds: nat, width: nat, height: nat, frames: seq<seq<real>>,
                                  background: seq<real>, spots: seq<nat>, gains: seq<real>)
    requires OneHotScan(numLeds, frames, width * height, background, spots, gains)
    ensures width > 0
    ensures forall l :: 0 <= l < numLeds ==>
      LedPositions(numLeds, numLeds, width, height, frames)[l] == (spots[l] % width, spots[l] / width)
  {
    assert spots[0] < width * height;
    forall l | 0 <= l < numLeds
      ensures LedPositions(numLeds, numLeds, width, height, frames)[l] == (spots[l] % width, spots[l] / width)
    {
      OneHotScanImage(l, numLeds, frames, width * height, background, spots, gains);
    }
  }
}
