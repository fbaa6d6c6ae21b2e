# LED calibration: lock-in position finding and fake LED controllers

This project is a Dafny model of the core of an LED-strip calibration system.

In the browser, the system locates each LED of a strip as follows:
- It lights the LEDs one at a time and captures one camera frame per cycle.
- It converts every frame to greyscale and box-blurs it.
- For every LED, it builds a lock-in image: the red channel of the frame where the LED was on, minus the weighted red channels of the frames where it was off. It then takes the brightest pixel of that image as the LED's raw pixel position.
- It rescales the raw positions into the unit box and builds the index→position payload it sends to the server.

Two stand-ins for the real strip keep a table of LEDs that is updated in place:
- a Rust server with HTTP handlers and colour effects;
- a Python 10×10 grid controller.

Modules, one per source file or component:

- `Schedule` covers `static/script/capture_unidirectional.js`: the one-hot schedule, the off-image weight and the per-cycle light commands.
- `Imaging` covers `static/script/capture_unidirectional.js`: canvases, greyscale conversion and the in-bounds box blur.
- `LockIn` covers `static/script/capture_unidirectional.js`: `add`/`sub`, lock-in accumulation, the peak search and per-LED analysis.
- `JsArrays` models a JavaScript array written by index, as a map from index to value.
- `Normalize` covers `static/script/merge_directions.js`: the merge stub, the bounding-box scan, the rescale and the payload.
- `LedState` covers `new_fake_leds/src/state.rs`: `Led`, `Effect` and `AppState` with its initial values.
- `LedEffects` covers `new_fake_leds/src/effects.rs`: `update_effects` and `blink`.
- `LedWeb` covers `new_fake_leds/src/web.rs`: the state-changing bodies of the HTTP handlers.
- `FakeLeds` covers `fakeledcontrol.py`: `FakeLED`, `FakeLEDControl.update` and the active-point filter of `redraw`.

How values are modelled:
- Pixel data is a sequence of reals, four entries (R, G, B, A) per pixel.
- A canvas is a class whose `pixels` field is replaced by `putImageData`.
- Image buffers that the source changes in place (`image_data.data`, `dst.data`, the `Float32Array` accumulator) are Dafny arrays.
- The Rust `AppState` and the Python controller are classes whose methods change their fields.

Each imperative operation is proved against a specification function. These properties are proved about the functions:
- counting identities of the schedule;
- the blur never divides by zero, stays within the input's range and keeps a uniform image unchanged;
- constant background cancels in the lock-in sum, the LED's own light survives it, other LEDs' light comes out negative, and in a full one-hot scan every LED is found at its own spot;
- the peak search finds the first strict maximum;
- normalisation gives values in [0, 1], sends the extremes to 0 and 1, and is monotone;
- only the listed indices change, and positions round-trip between set and get.

## Model

| member | source | states |
|---|---|---|
| Schedule.IsLedOn | static/script/capture_unidirectional.js:20-23 | defines the one-hot schedule: LED led is lit in cycle c exactly when led == c |
| Schedule.CountsPartition | static/script/capture_unidirectional.js:28-37 | every cycle is counted either as on or as off: count_on + count_off == num_cycles |
| Schedule.CountOnOneHot | static/script/capture_unidirectional.js:20-23 | under the one-hot schedule an LED is on in exactly one of the first n cycles when led < n, else in none |
| Schedule.OffCycleGivesOffCount | static/script/capture_unidirectional.js:167-171 | an off cycle below num_cycles implies count_off > 0, so the weight taken on that branch never divides by zero |
| Schedule.EachLedLitOnce | static/script/capture_unidirectional.js:20-23 | with num_cycles == num_leds, the set of cycles lighting LED l is exactly {l} |
| Schedule.OffWeightOf | static/script/capture_unidirectional.js:28-39 | defines the off weight as count_on / count_off over the first num_cycles cycles, for an LED with at least one off cycle |
| Schedule.OffWeightBalances | static/script/capture_unidirectional.js:28-39 | off_weight · count_off == count_on |
| Schedule.OffWeightOneHot | static/script/capture_unidirectional.js:28-39 | for l < num_cycles ≥ 2 the weight is 1/(num_cycles−1); for an LED never lit it is 0 |
| Schedule.OffWeight | static/script/capture_unidirectional.js:28-39 | the counting loop returns a weight with weight · count_off == count_on, which is the off-weight function |
| Schedule.CycleCommand | static/script/capture_unidirectional.js:69-72 | defines cycle c's light command: every index below num_leds mapped to whether that LED is lit in cycle c |
| Schedule.CommandLightsOne | static/script/capture_unidirectional.js:69-72 | the dictionary of cycle c lights exactly {c} when c < num_leds, and nothing otherwise |
| Schedule.BuildCycleCommand | static/script/capture_unidirectional.js:69-72 | the dictionary has exactly the keys 0..num_leds−1, each mapped to (led == cycle) |
| Schedule.CaptureLockInCommands | static/script/capture_unidirectional.js:67-76 | one command per cycle, command c being cycle c's dictionary |
| Schedule.ScanLightsEachLedOnce | static/script/capture_unidirectional.js:67-76 | across the num_leds commands, each LED is lit by exactly one cycle, its own |
| Imaging.Canvas.constructor | static/script/main.js:26 | a canvas holds width·height RGBA pixels (its size is set from the video at static/script/ui.js:234-237) |
| Imaging.Canvas.GetImageData | static/script/capture_unidirectional.js:81 | returns a fresh copy of the canvas pixels |
| Imaging.Canvas.PutImageData | static/script/capture_unidirectional.js:92 | replaces the canvas pixels by the buffer's contents, keeping the dimensions |
| Imaging.Greyscale | static/script/capture_unidirectional.js:82-91 | the greyscale image has the same length as the input |
| Imaging.GreyscalePixels | static/script/capture_unidirectional.js:83-90 | every pixel gets R == G == B == the brightness of the original pixel, with alpha untouched |
| Imaging.GreyscaleInPlace | static/script/capture_unidirectional.js:82-91 | the in-place loop leaves the buffer equal to the greyscale image of its old contents |
| Imaging.ConvertToGreyscale | static/script/capture_unidirectional.js:79-94 | every canvas ends up holding the greyscale image of its old pixels, with canvases kept distinct |
| Imaging.WindowCountHasCentre | static/script/capture_unidirectional.js:117-131 | a window whose centre is in bounds counts at least one pixel |
| Imaging.WindowNeverEmpty | static/script/capture_unidirectional.js:128-137 | for every pixel the in-bounds count is ≥ 1, so `r / count` never divides by zero |
| Imaging.BlurredAt | static/script/capture_unidirectional.js:117-137 | defines channel ch of blurred pixel (x, y): the sum of that channel over the in-bounds pixels of the (2k+1)² window divided by their count |
| Imaging.Blurred | static/script/capture_unidirectional.js:133-137 | the output image has the same dimensions as the input |
| Imaging.BlurredEntry | static/script/capture_unidirectional.js:133-137 | entry 4·(y·width+x)+ch of the output is the window mean of channel ch at (x, y) |
| Imaging.KernelSums | static/script/capture_unidirectional.js:113-131 | the nested kernel loop returns the four in-bounds window sums and the in-bounds count |
| Imaging.WindowMeans | static/script/capture_unidirectional.js:113-137 | the four values written for a pixel are the four entries of the blurred image at that pixel |
| Imaging.BlurPixel | static/script/capture_unidirectional.js:133-137 | writes exactly the four entries of pixel (x, y) and leaves every other entry unchanged |
| Imaging.BlurRow | static/script/capture_unidirectional.js:112-138 | after the row loop, the destination agrees with the blurred image up to the end of row y, and every entry after row y is unchanged |
| Imaging.BlurData | static/script/capture_unidirectional.js:105-139 | a fresh destination buffer equal to the blurred image of the source data |
| Imaging.BlurCanvas | static/script/capture_unidirectional.js:101-141 | the canvas ends up holding the blurred image of its old pixels |
| Imaging.BlurImages | static/script/capture_unidirectional.js:97-143 | every canvas is blurred with the clamped half-kernel, and the canvases stay distinct |
| Imaging.BlurImagesDefault | static/script/capture_unidirectional.js:97 | called without a half-kernel, as the capture run does at line 221, every canvas is blurred with the clamped default half-kernel `DEFAULT_HALF_KERNEL`, which is 4 |
| Imaging.EffectiveHalfKernel | static/script/capture_unidirectional.js:98 | the half-kernel is at least 1 and equals the requested one when that is ≥ 1 |
| Imaging.TimesIsProduct | static/script/capture_unidirectional.js:124-128 | arithmetic helper of the blur and lock-in lemmas (UniformEntry, MeanOfCountWithin, ConstantPixelCancels, LedLightSurvives, OtherLedSums), not a model of these lines: adding v n times equals v · n |
| Imaging.RowSumWithin | static/script/capture_unidirectional.js:118-130 | a kernel row sum lies between lo·count and hi·count when every channel value lies in [lo, hi] |
| Imaging.WindowSumWithin | static/script/capture_unidirectional.js:117-131 | the window sum lies between lo·count and hi·count when every channel value lies in [lo, hi] |
| Imaging.MeanOfCountWithin | static/script/capture_unidirectional.js:134-137 | arithmetic helper of BlurStaysWithin, not a model of these lines: a sum between lo·n and hi·n, with n ≥ 1, has its mean in [lo, hi] |
| Imaging.BlurStaysWithin | static/script/capture_unidirectional.js:113-137 | every blurred value stays within the range of its input channel |
| Imaging.UniformEntry | static/script/capture_unidirectional.js:113-137 | on a uniform image, every entry of the blurred image equals the input entry |
| Imaging.BlurUniform | static/script/capture_unidirectional.js:97-143 | blurring a uniform image returns it unchanged |
| LockIn.Frames | static/script/capture_unidirectional.js:164-165 | the frames read are the pixels of the first num_cycles canvases |
| LockIn.LockInAt | static/script/capture_unidirectional.js:163-173 | defines pixel i of the lock-in value after the first cycles: on-frame reds added, off-frame reds subtracted times the off weight, cycle by cycle |
| LockIn.LockInImage | static/script/capture_unidirectional.js:161-175 | the lock-in image has width·height entries |
| LockIn.Add | static/script/capture_unidirectional.js:146-150 | base[i] grows by the red channel data[4i] of the addition, for every i |
| LockIn.Sub | static/script/capture_unidirectional.js:155-159 | base[i] shrinks by data[4i] · weight of the subtraction, for every i |
| LockIn.ComputeLockIn | static/script/capture_unidirectional.js:161-175 | a fresh, zero-started buffer equal to the lock-in image: red of on frames minus off_weight times red of off frames |
| LockIn.LockInFormula | static/script/capture_unidirectional.js:163-173 | result[i] = Σ_on red_c[i] − off_weight · Σ_off red_c[i] |
| LockIn.RedSumOfConstant | static/script/capture_unidirectional.js:146-159 | a pixel with value v in all selected frames sums to v added once per selected cycle |
| LockIn.ConstantPixelCancels | static/script/capture_unidirectional.js:153-175 | a pixel with the same value in every frame accumulates to exactly 0 |
| LockIn.LedLightSurvives | static/script/capture_unidirectional.js:161-175 | with the one-hot schedule and at least two cycles, a pixel brighter by d only in the LED's own frame comes out as d |
| LockIn.RedSumWithSpike | static/script/capture_unidirectional.js:146-159 | a red value v in every selected cycle, raised by e in cycle m only, sums to v once per selected cycle plus e when cycle m is selected |
| LockIn.LockInOneHot | static/script/capture_unidirectional.js:161-175 | under the one-hot schedule with at least two cycles the off frames are weighted by 1/(num_cycles−1) |
| LockIn.OtherLedSums | static/script/capture_unidirectional.js:163-173 | a pixel lit only in another LED's cycle has on sum b and off sum b·(num_cycles−1) + e |
| LockIn.OtherLedDimmed | static/script/capture_unidirectional.js:161-175 | another LED's light e at a pixel comes out as −e/(num_cycles−1) in this LED's lock-in image |
| LockIn.ScanValueAtSpot | static/script/capture_unidirectional.js:161-175 | in a one-hot scan of distinct spots, LED l's image is gains[l] at its own spot and −gains[m]/(num_cycles−1) at LED m's spot |
| LockIn.ScanValueElsewhere | static/script/capture_unidirectional.js:161-175 | in such a scan, a pixel no LED lights comes out as 0 |
| LockIn.Peak | static/script/capture_unidirectional.js:187-197 | the running maximum is ≥ 0 and ≥ every value; when > 0 it sits at the returned index, and all earlier values are strictly smaller; when 0 the index is 0 |
| LockIn.PeakPixel | static/script/capture_unidirectional.js:194-195 | for width > 0, x < width and y · width + x is the peak index, i.e. x = i mod width and y = ⌊i / width⌋ |
| LockIn.PeakPixelInImage | static/script/capture_unidirectional.js:194-195 | the peak's x = i mod width < width and y = i div width < height recover index i |
| LockIn.FindPeak | static/script/capture_unidirectional.js:187-197 | the scan returns the pixel of the first strict maximum, or (0, 0) when no value exceeds 0 |
| LockIn.PeakOfSingleBright | static/script/capture_unidirectional.js:187-197 | an image with one positive value and nothing else above 0 peaks at that value and index |
| LockIn.OneHotScanImage | static/script/capture_unidirectional.js:161-197 | in a full one-hot scan where every LED m adds gains[m] > 0 at its own distinct spot in its own cycle, LED l's image is gains[l] at its spot, −gains[m]/(num_cycles−1) at every other LED's spot, 0 elsewhere, and its peak is its own spot |
| LockIn.OneHotScanLocatesEveryLed | static/script/capture_unidirectional.js:178-198 | in such a scan with num_cycles == num_leds, the analysis records for every LED the (x, y) of its own spot |
| LockIn.LockInFindsLed | static/script/capture_unidirectional.js:161-198 | an LED lighting a single spot by d > 0 over a static background yields an image that is d at the spot and 0 elsewhere, and the peak search finds that spot |
| LockIn.LedPositions | static/script/capture_unidirectional.js:179-198 | the positions map has exactly the keys 0..num_leds−1 |
| LockIn.LocateLed | static/script/capture_unidirectional.js:181-197 | returns the peak pixel of the LED's lock-in image |
| LockIn.AnalyzeLockInData | static/script/capture_unidirectional.js:178-202 | writes led_positions_raw[l] = peak pixel of LED l for every l < num_leds and leaves every other index as it was |
| JsArrays.JsArray.constructor | static/script/main.js:9-11 | a new array has no index set |
| JsArrays.JsArray.Set | static/script/capture_unidirectional.js:198 | assigning index i sets that index only |
| Normalize.MergeLedPositions | static/script/merge_directions.js:2-7 | the stub merge returns an empty array whatever its inputs |
| Normalize.MinAlong | static/script/merge_directions.js:11-28 | no bound for empty input; otherwise a lower bound of every point on that axis, attained by some point |
| Normalize.MaxAlong | static/script/merge_directions.js:11-28 | no bound for empty input; otherwise an upper bound of every point on that axis, attained by some point |
| Normalize.ScanBounds | static/script/merge_directions.js:11-28 | the scan loop returns the minimum and maximum along x and y |
| Normalize.NormalizeLedPositions | static/script/merge_directions.js:10-38 | sets index i to the rescaled raw[i] for every i < num_leds and keeps every other index |
| Normalize.WriteNormalized | static/script/merge_directions.js:30-35 | the write loop sets index i to raw[i] rescaled within the scanned bounds for every i < num_leds, and nothing else |
| Normalize.Rescale | static/script/merge_directions.js:32-33 | a zero span (max == min) gives NaN and only then; otherwise the result r satisfies r · (max − min) == raw − min |
| Normalize.NormalizeAt | static/script/merge_directions.js:30-34 | defines point i's normalised position: raw x and raw y each rescaled by the minimum and maximum over all raw points on that axis |
| Normalize.RescaleInUnit | static/script/merge_directions.js:32-33 | a value within a positive span rescales into [0, 1] |
| Normalize.RescaleEnds | static/script/merge_directions.js:32-33 | the span's low end maps to 0 and its high end to 1 |
| Normalize.RescaleMonotone | static/script/merge_directions.js:32-33 | rescaling preserves order |
| Normalize.NormalizedInUnitBox | static/script/merge_directions.js:30-35 | with positive spans on both axes, every normalised coordinate lies in [0, 1] |
| Normalize.NormalizedExtremes | static/script/merge_directions.js:32 | a point at min_x maps to x = 0 and a point at max_x to x = 1 |
| Normalize.NormalizedExtremesY | static/script/merge_directions.js:33 | a point at min_y maps to y = 0 and a point at max_y to y = 1 |
| Normalize.NormalizedOrderX | static/script/merge_directions.js:32 | raw_x ≤ raw_x′ implies norm_x ≤ norm_x′ |
| Normalize.NormalizedOrderY | static/script/merge_directions.js:33 | raw_y ≤ raw_y′ implies norm_y ≤ norm_y′ |
| Normalize.ZeroSpanGivesNaN | static/script/merge_directions.js:32 | with no guard for a zero x span, the x coordinate is NaN |
| Normalize.ZeroSpanGivesNaNY | static/script/merge_directions.js:33 | with no guard for a zero y span, the y coordinate is NaN |
| Normalize.TransmitPayload | static/script/merge_directions.js:43-47 | the payload has exactly the keys 0..num_leds−1, each carrying normalized[i], or undefined when unset |
| LedState.InitialLeds | new_fake_leds/src/state.rs:42-49 | one LED per generated position |
| LedState.MakeLeds | new_fake_leds/src/state.rs:42-49 | the push loop builds, in generator order, enabled BLACK LEDs at the given positions |
| LedState.AppState.constructor | new_fake_leds/src/state.rs:41-61 | the new state has those LEDs, base colour rgb(150,150,150), effect None, the given start time, and all rotations and offsets 0 |
| LedState.AppState.IsInitial | new_fake_leds/src/state.rs:51-60 | defines the initial state: the initial LEDs, base colour rgb(150,150,150), effect None, start = the creation time, and rotations and offsets 0 |
| LedState.AppState.Assign | new_fake_leds/src/web.rs:43 | whole-state replacement: every field takes the other state's value |
| LedState.InitialStateShape | new_fake_leds/src/state.rs:41-61 | an initial state has |positions| LEDs, all enabled and BLACK at their positions, effect None and base rgb(150,150,150) |
| LedEffects.ElapsedSecs | new_fake_leds/src/effects.rs:19 | the whole seconds elapsed: 0 when now ≤ start, else the s with s·10⁹ ≤ now − start < (s+1)·10⁹, which is what `as_secs()` truncates nanoseconds to |
| LedEffects.Recolour | new_fake_leds/src/effects.rs:7-28 | one LED's recolouring keeps its enabled flag and position, leaves it untouched under None, gives it its old colour, the base colour or BLACK, and never gives a disabled LED the base colour unless that is its old colour or BLACK |
| LedEffects.ApplyEffect | new_fake_leds/src/effects.rs:4-29 | recolouring keeps the number of LEDs |
| LedEffects.Blink | new_fake_leds/src/effects.rs:18-29 | the loop recolours the LEDs as the blink effect for the elapsed-seconds phase and changes no other field |
| LedEffects.UpdateEffects | new_fake_leds/src/effects.rs:4-16 | the LEDs become the effect applied to the old LEDs; no other field changes |
| LedEffects.NoEffectKeepsLeds | new_fake_leds/src/effects.rs:14 | effect None leaves every LED unchanged |
| LedEffects.AllOnColours | new_fake_leds/src/effects.rs:7-13 | AllOn gives enabled LEDs the base colour and leaves disabled LEDs' colour as it was |
| LedEffects.BlinkColours | new_fake_leds/src/effects.rs:19-28 | Blink with even elapsed seconds: enabled LEDs get the base colour, disabled ones BLACK; with odd seconds every LED is BLACK |
| LedEffects.EffectKeepsLayout | new_fake_leds/src/effects.rs:4-29 | no effect changes the count, the enabled flags or the positions |
| LedEffects.EffectIdempotent | new_fake_leds/src/effects.rs:7-28 | applying an effect twice at the same phase equals applying it once |
| LedWeb.Configured | new_fake_leds/src/web.rs:35-38 | configuring keeps the number of LEDs |
| LedWeb.ConfigureLeds | new_fake_leds/src/web.rs:33-39 | leds become the configured LEDs: listed indices take the sent flag; no other field changes |
| LedWeb.ConfigureOnlyListed | new_fake_leds/src/web.rs:33-39 | enabled == sent value for listed indices and old value otherwise; colours and positions are kept |
| LedWeb.SetNumLeds | new_fake_leds/src/web.rs:41-44 | the whole state equals a fresh initial state with n LEDs |
| LedWeb.GetNumLeds | new_fake_leds/src/web.rs:46-48 | returns the number of LEDs |
| LedWeb.PositionOf | new_fake_leds/src/web.rs:55-59 | the position built from the sent array is (arr[0], arr[1], arr[2]) |
| LedWeb.Repositioned | new_fake_leds/src/web.rs:52-60 | repositioning keeps the number of LEDs |
| LedWeb.SetLedPositions | new_fake_leds/src/web.rs:50-61 | listed LEDs get position [x, y, z] from the first three numbers sent, others are kept; no other field changes |
| LedWeb.PositionsReport | new_fake_leds/src/web.rs:63-73 | the report has exactly the keys 0..len−1 |
| LedWeb.GetLedPositions | new_fake_leds/src/web.rs:63-73 | the loop fills exactly keys 0..len−1, each mapped to that LED's [x, y, z] |
| LedWeb.PositionsRoundTrip | new_fake_leds/src/web.rs:50-73 | set then get returns the sent [x, y, z] for listed LEDs and the old position for the others |
| LedWeb.StartBlink | new_fake_leds/src/web.rs:75-79 | effect becomes Blink and the effect start becomes now; nothing else changes |
| LedWeb.StartAllOn | new_fake_leds/src/web.rs:81-84 | effect becomes AllOn and the effect start is kept; nothing else changes |
| LedWeb.StopEffects | new_fake_leds/src/web.rs:86-89 | effect becomes None and the effect start is kept; nothing else changes |
| FakeLeds.NewFakeLed | fakeledcontrol.py:10-14 | the LED sits at x = i mod 10 < 10 and y with 10·y + x == i, and starts on |
| FakeLeds.InitialLeds | fakeledcontrol.py:26 | exactly 100 LEDs, entry i built from index i |
| FakeLeds.Slot | fakeledcontrol.py:40 | a Python index in [−100, 100) resolves to k or k + 100, within the list |
| FakeLeds.Updated | fakeledcontrol.py:39-40 | updating keeps 100 LEDs |
| FakeLeds.UpdatedLastWriteWins | fakeledcontrol.py:39-40 | after update, an LED has the on flag of the last item addressing it, or is unchanged when no item does |
| FakeLeds.FakeLedControl.constructor | fakeledcontrol.py:25-26 | the controller starts with the 100 initial LEDs |
| FakeLeds.FakeLedControl.Update | fakeledcontrol.py:36-40 | the loop leaves the LEDs equal to the updated table |
| FakeLeds.FakeLedControl.Redraw | fakeledcontrol.py:42-44 | returns the active points of the current LEDs |
| FakeLeds.ActivePoints | fakeledcontrol.py:44 | there are no more active points than LEDs |
| FakeLeds.ActivePointsExactlyLit | fakeledcontrol.py:44 | a point is active iff some LED that is on sits there |
| FakeLeds.AllLitGivesAllPoints | fakeledcontrol.py:44 | with every LED on, the active points are all LED positions, in index order |
| FakeLeds.InitialActivePoints | fakeledcontrol.py:25-33 | right after construction the active points are all 100 grid points (i mod 10, i div 10) |

## Left out

- Pixel arithmetic is over reals. Image data is a `Uint8ClampedArray`, which rounds and clamps each value to 0..255 as it is written (static/script/capture_unidirectional.js:88-90, 134-137); that rounding and clamping is not modelled. Neither is the 32-bit float rounding of the `Float32Array` accumulator (line 162).
- The brightness formula with `Math.sqrt` (static/script/capture_unidirectional.js:87) is a function parameter `luma`.
- The HTTP light command `configure_leds` and the camera grab `drawImage` (static/script/capture_unidirectional.js:59-64, 74) are I/O.
  - Capture is modelled as the sequence of light commands it issues.
  - The captured frames are the canvases' pixels, given as input.
- `Schedule.CaptureLockInCommands`: the commands are returned rather than sent, so the per-cycle interleaving with frame capture is not modelled.
- `console.log` output and the `test_is_led_on` debug printer are not modelled.
- `compute_lock_in_image_data_array` reads every canvas at the math canvas's size. `LockIn.ComputeLockIn` requires every captured canvas to have exactly that width and height (`CapturedAt`), so reads of a differently sized canvas are not modelled.
- `start_capturing` (static/script/capture_unidirectional.js:205-231) and `merge_and_transmit` (static/script/merge_directions.js:55-62) are wiring.
  - The call at static/script/ui.js:310-315 passes four arguments to a three-argument function.
  - The stub merge returns `[]`, so normalising its result could not produce positions.
  - The functions are modelled directly instead.
- `num_leds`, read but not in scope in `normalize_led_positions` and `transmit_led_positions` (static/script/merge_directions.js:30, 45), is a parameter.
  - The undeclared `norm_x`/`norm_y` (lines 32-33) are locals.
  - `Normalize.NormalizeLedPositions` requires `num_leds` ≤ the number of raw points, because destructuring a missing entry throws.
- A zero span on an axis divides 0 by 0. This is modelled as `NaN` rather than excluded. The lemmas about rescaled values require a positive span.
- The XHR POST in `transmit_led_positions` (static/script/merge_directions.js:48-51) and JSON serialisation are not modelled. So neither `NaN` becoming `null` nor the mismatch between the 2-element payload and the 3-number positions the server reads is modelled.
- JSON object keys are modelled as natural numbers. `LedWeb.ConfigureLeds` and `LedWeb.SetLedPositions` therefore do not model two spellings of one index ("07" and "7") in one body.
- Rust panics are preconditions: a key that does not parse, an index ≥ the number of LEDs, a non-bool flag, and a position with fewer than three numbers (new_fake_leds/src/web.rs:35-37, 52-58).
- `LedWeb.SetLedPositions`: positions are reals, so the `f64`→`f32` narrowing (new_fake_leds/src/web.rs:56-58) is not modelled.
- Random LED generation `generate_cone_leds` (new_fake_leds/src/main.rs) is left out: positions are an input of `AppState::new`.
- `Instant::now` and `elapsed()` are left out.
  - The clock reading `now` is a parameter: an integer time stamp in nanoseconds.
  - `effect_start` is such a time stamp, and `LedEffects.ElapsedSecs` divides the difference by 10^9 to get whole elapsed seconds, as `as_secs()` does.
- The `Mutex`, the axum router, the tokio runtime and the egui GUI (new_fake_leds/src/web.rs:12-31, gui.rs, main.rs) are left out, and so is the concurrency between the GUI loop and the handlers.
- The matplotlib process and `Queue` of fakeledcontrol.py (lines 28-34, 47-80) are left out, along with the `print` in `update`.
  - `FakeLeds.FakeLedControl.Redraw` returns the active points instead of queueing them.
  - The dictionary passed to `update` is the sequence of its items.
  - An index outside [−100, 100) raises in Python; it is a precondition here.
