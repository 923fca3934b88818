# Movie barcodes, modelled in Dafny

The repository turns a video into a "movie barcode". It samples the video at a
fixed stride and averages each sampled frame to one colour. It then draws one
vertical line per sample. A second script lays a vertical black gradient over
an image. Decoding, probing and image handling are done by `ffmpeg`, `ffprobe`
and PIL. This project models the logic between them.

- `Probe` (`probe.dfy`): choosing the frame count from the fields the probe
  reported. The undefined `warning` call on the duration fallback is made a
  flag.
- `Schedule` (`schedule.dfy`): the frame step and the sample count, using
  Python 2's half-away-from-zero `round` on true quotients.
- `FrameStream` (`frame_stream.dfy`): the decoder's output as a finite byte
  sequence, consumed one frame-sized read at a time.
  - Each full frame is reduced to its per-channel floor mean.
  - A short tail fails and is skipped.
- `Barcode` (`barcode.dfy`): the canvas, as a 2-D array, and the loop that
  draws one clipped vertical line per sample.
- `Gradient` (`gradient.dfy`): the one-column alpha mask of
  `apply_black_gradient`, as an array written row by row.
- `Numerics` (`numerics.dfy`): `int()` on a float (truncation toward zero) and
  Python 2 `round` of an integer quotient, each with its exact integer
  characterisation.
- `Outcomes` (`outcomes.dfy`): the early endings (`sys.exit`, `NameError`,
  `ZeroDivisionError`, `ValueError`) and the Option/Result wrappers.

Three facts about the code shape the model:

- The barcode height is `int(n * 9 / 16)`, which is the floor of 9n/16.
- Nothing clamps the step to at least 1.
- A chunk that fails to reshape can only be the short tail of the stream,
  because `read(n)` returns fewer than `n` bytes only at end of stream.

## Model

| member | source | states |
|---|---|---|
| Probe.GuessFromDuration | process_video.py:69-73 | the guessed count is `int(duration * rate)`, with the rate either `num/den` or plain, truncated toward zero for either sign of the product; a zero denominator raises ZeroDivisionError and nothing else fails |
| Probe.SelectFrameCount | process_video.py:57-76 | no stream exits with status 2; the only failures are exit 2, NameError for `warning` and a zero-denominator rate; a count is produced only from a positive `nb_frames`, or from the fallback when `warning` is bound |
| Probe.FrameCount | process_video.py:57-76 | as the script stands, any frame count it produces is positive |
| Probe.FrameCountWithWarning | process_video.py:57-76 | once `warning` is defined, the only failures are exit status 2 and a zero-denominator rate |
| Probe.NbFramesWins | process_video.py:64-65 | a positive `nb_frames` on the first stream is the frame count, whatever else was reported |
| Probe.ExitTwoIff | process_video.py:57-76 | the script exits with status 2 exactly when there is no stream, or when there is neither a positive `nb_frames` nor both duration and rate |
| Probe.FrameCountOnlyFromNbFrames | process_video.py:64-73 | as written, the script obtains a count exactly when `nb_frames` is positive, and that count is `nb_frames` |
| Probe.FallbackRaisesNameError | process_video.py:66-67 | as written, reaching the duration fallback raises NameError for `warning` |
| Probe.FallbackWitness | process_video.py:66-71 | no `nb_frames`, 10 s at 25/1: NameError as written, 250 frames once `warning` is defined |
| Probe.FallbackWithWarningComputes | process_video.py:66-73 | once `warning` is defined, the fallback yields `int(duration * rate)`, and it succeeds iff the rate is not `num/0` |
| Probe.WarningOnlyAffectsFallback | process_video.py:57-76 | defining `warning` changes no outcome outside the fallback branch |
| Numerics.Trunc | process_video.py:71 | `int()` of a float truncates toward zero: the result is the integer part, never farther from zero than the value |
| Numerics.RoundByPositive | process_video.py:79 | `round(n / d)` for d > 0 is within half of `d` of `n`, with ties away from zero |
| Numerics.RoundHalfAway | process_video.py:79-80 | Python 2 `round` of a true integer quotient satisfies the rounding characterisation for either sign of the divisor |
| Numerics.RoundsToUnique | process_video.py:79-80 | exactly one integer satisfies the rounding characterisation, so it determines `round` |
| Numerics.RoundsToNearest | process_video.py:79-80 | the rounded value is within 1/2 of the real quotient, and a tie goes away from zero |
| Numerics.TruncMonotone | gradient.py:58 | truncation is monotone |
| Schedule.Step | process_video.py:79 | `step` is `nbFrames / outputWidth` rounded half away from zero |
| Schedule.MakePlan | process_video.py:79-80 | the plan fails only with ZeroDivisionError, and a successful plan has the non-zero rounded step |
| Schedule.StepZeroIff | process_video.py:79 | the step is 0 exactly when `2 * abs(nbFrames) < outputWidth` |
| Schedule.MakePlanFailsIff | process_video.py:79-80 | line 80 divides by zero exactly when `2 * abs(nbFrames) < outputWidth` |
| Schedule.ShortVideoFails | process_video.py:11 | at the script's width of 5000, any video of 1 to 2499 frames stops on line 80 |
| Schedule.SampleCountNearFrameCount | process_video.py:80 | for a non-negative count, a successful plan has `step >= 1` and a sample count that is `nbFrames / step` rounded half away from zero, so `sampleCount * step` is within half a step of `nbFrames` |
| Schedule.ThousandFramesAtWidthHundred | process_video.py:79-80 | 1000 frames at width 100 give step 10 and 100 samples |
| Schedule.ClampedPlan | process_video.py:79-80 | the step is line 79's rounded step raised to 1 when it is below 1, and the sample count is the rounded `nbFrames / step` |
| Schedule.ClampedPlanSamples | process_video.py:79-80 | with the clamp, any video with at least one frame gives at least one sample, within half a step of the count |
| Schedule.ClampedPlanAgrees | process_video.py:79-80 | wherever the script's plan succeeds with a positive step, the clamped plan is the same |
| FrameStream.ChannelSum | process_video.py:116-118 | the sum of a uint8 channel over `k` pixels lies between 0 and `255 * k` |
| FrameStream.ChannelSumBounds | process_video.py:118 | a channel sum lies between the channel's lower and upper bounds times the pixel count |
| FrameStream.ChannelMean | process_video.py:118 | `int(numpy.average(...))` of a uint8 channel is a byte value |
| FrameStream.MeanWithinChannelRange | process_video.py:118 | the floor mean of a channel lies between that channel's smallest and largest value |
| FrameStream.Average | process_video.py:118 | a well-formed frame averages to a valid colour |
| FrameStream.UniformFrameAverage | process_video.py:116-118 | a frame of one colour averages to exactly that colour |
| FrameStream.DrawNextFrameRgbAvg | process_video.py:115-119 | reduction succeeds iff the chunk is exactly one frame of a positive number of pixels; otherwise it raises ValueError |
| FrameStream.Read | process_video.py:126 | a read returns the next bytes of the stream, at most `n` of them, and fewer only at end of stream |
| FrameStream.Frames | process_video.py:125-129 | every frame cut from the stream has exactly the frame size |
| FrameStream.Averages | process_video.py:132 | there is one colour per frame |
| FrameStream.AveragesAt | process_video.py:132 | colour `k` is the average of frame `k` |
| FrameStream.AveragesSnoc | process_video.py:132 | appending a frame appends its average |
| FrameStream.Samples | process_video.py:123-135 | there are as many samples as complete frames |
| FrameStream.FramesCount | process_video.py:125-129 | from any offset there are `(len - offset) div size` complete frames |
| FrameStream.FramesAt | process_video.py:126 | frame `k` from an offset is the bytes `offset + k*size .. offset + (k+1)*size` |
| FrameStream.SamplesCount | process_video.py:125-135 | the loop emits `len(bytes) div (3 * pixels)` samples; a trailing partial chunk adds none |
| FrameStream.SamplesAt | process_video.py:125-135 | sample `k` is the average of bytes `k*size .. (k+1)*size`, so samples are in stream order |
| FrameStream.ReadLoop | process_video.py:123-135 | the loop collects exactly the samples of the stream; `x` equals `len(rgb_list)`; the count is `len(bytes) div (3 * pixels)` |
| FrameStream.FiftyFrames | process_video.py:125-133 | exactly fifty 64x36 frames give fifty samples |
| FrameStream.ClosedEarly | process_video.py:131-135 | three 64x36 frames and a partial fourth give three samples; the partial one is skipped |
| Barcode.ImageHeight | process_video.py:143 | the image height is 9n/16 rounded down |
| Barcode.Row | process_video.py:147-150 | the image has one column per sample |
| Barcode.RowIsShiftedSamples | process_video.py:147-150 | left to right, the columns are black, then every sample but the last, in order; the last sample is not visible |
| Barcode.FiftySampleImage | process_video.py:143 | 50 samples give a barcode 28 pixels tall |
| Barcode.DrawVerticalLine | process_video.py:149 | for `y0 <= y1`, as at the script's only call, a line sets exactly the on-canvas pixels of its column from `y0` to `y1` and leaves every other pixel as it was |
| Barcode.DrawBarcode | process_video.py:143-150 | the image is `len(rgb_list)` by `floor(9n/16)`, column 0 is black, and each column `x >= 1` is `rgb_list[x-1]` from top to bottom |
| Gradient.Pos | gradient.py:57 | the real comparison `y < height / 2.` is the integer test `2y < h`: `pos` is `y` above the middle and `h - y` from it on |
| Gradient.Opacity | gradient.py:58 | row 0 gets `io * 255`, and a row with `gradient * pos >= h` gets no positive opacity when `io >= 0` |
| Gradient.PosBounds | gradient.py:57 | `0 <= pos <= h/2`, and `pos` is 0 only at row 0 |
| Gradient.PosLastRow | gradient.py:57 | the last row gets `pos` 1 while row 0 gets 0: the bottom half is mirrored with `h - y`, not `h - 1 - y` |
| Gradient.PosMirror | gradient.py:57 | rows `y` and `h - y` have the same `pos` |
| Gradient.Alpha | gradient.py:58-62 | the mask value is never negative, and it is positive exactly when the opacity is at least 1 |
| Gradient.AlphaMirror | gradient.py:56-62 | rows `y` and `h - y` (1 <= y < h) get the same value; row 0 has no partner, so the mask is symmetric about row h/2 but not top to bottom |
| Gradient.OpacityNonIncreasing | gradient.py:58 | for non-negative inputs, opacity never increases with `pos` |
| Gradient.AlphaNonIncreasing | gradient.py:58-62 | for a non-negative initial opacity and gradient, a row with a smaller `pos` is never lighter than a row with a larger `pos` |
| Gradient.AlphaTopRow | gradient.py:58 | for a non-negative initial opacity, row 0 gets `int(initial_opacity * 255)` |
| Gradient.AlphaAtMostInitial | gradient.py:41-43 | with opacity in [0, 1] and a non-negative gradient, every value is at most `int(io * 255)`, which is at most 255 |
| Gradient.AlphaFlat | gradient.py:38 | for a non-negative initial opacity, gradient 0 gives every row `int(io * 255)`, so 255 (fully black) when the initial opacity is 1 |
| Gradient.AlphaVanishes | gradient.py:40 | for a non-negative initial opacity, a row with `gradient * pos >= h` gets value 0; since `pos <= h/2`, this needs a gradient of at least 2, and at 2 only the middle row of an even-height image meets it (other rows can still truncate to 0) |
| Gradient.TopAndBottomRowsDiffer | gradient.py:56-62 | four rows at gradient 3 and opacity 1 give 255, 63, 0, 63: the top and bottom rows differ |
| Gradient.AlphaZeroOpacity | gradient.py:58-62 | initial opacity 0 gives a mask of zeros |
| Gradient.BuildAlphaGradient | gradient.py:55-62 | the mask has one entry per row, and after the loop over rows 0..h-1 each entry is that row's clamped alpha |

## Left out

- Running `ffprobe` and `ffmpeg`: the argument vectors, `Popen`, the
  `-threads 4` option and JSON decoding. The probe result is a datatype
  input, and the decoder output is a byte-sequence input.
- What ffmpeg's `select=not(mod(n,step))` filter keeps. The byte stream is an
  opaque input, so the model says nothing about which frames of the video are
  sampled.
- Parsing the decimal strings of `duration`, `r_frame_rate` and `nb_frames`.
  These come in as already-parsed numbers, so a malformed string, which makes
  Python raise ValueError, is not modelled.
- Probe.GuessFromDuration: uses exact real arithmetic for
  `float(duration) * (float(num) / float(den))`, not IEEE doubles, so a
  product that double rounding moves across an integer can truncate
  differently.
- Schedule.Step: `nbFrames / outputWidth` and `nbFrames / step` are doubles
  in the script. They are taken as exact quotients. Rounding them is exact
  only while the counts stay far below 2^53.
- Gradient.Alpha: the float expression on gradient.py line 58 is taken in
  exact reals, not IEEE doubles, for the same reason.
- Gradient.BuildAlphaGradient: a computed value above 255 is stored as
  computed. This happens with an initial opacity outside [0, 1] or a
  negative gradient.
  What PIL's `putpixel` does with it is library behaviour and is not
  modelled.
- FrameStream.ReadLoop: takes the pixel count `frameWidth * frameHeight`
  rather than the two dimensions. The reshape succeeds exactly when the
  chunk has three bytes per pixel, which depends only on that product.
- The print in the read loop's `except` branch, every other progress and
  timing print, `new.show()` and `new.save(...)`: output only.
- Command-line handling, default output paths, existence checks and
  directory creation in both scripts: file-system and argument handling.
- PIL's `resize` of the mask, `putalpha`, `alpha_composite` and RGBA
  conversion: library behaviour that is not visible here, so no compositing
  formula is modelled.
- The stale docstring "going from left to right": the code builds a vertical
  mask mirrored about row h/2, and the model follows the code.
- Barcode.DrawBarcode: `Image.new` with zero width is PIL's behaviour. The
  model produces an empty array there.

## Findings

| source | as written | input that shows it | evidently intended | confidence | as-written member | corrected member |
|---|---|---|---|---|---|---|
| process_video.py:67 | the duration fallback calls `warning(...)`, a name that is neither defined nor imported | a probe result without `nb_frames`, with duration 10.0 and `r_frame_rate` "25/1" | log a warning and use `int(duration * rate)`, which is 250 here | not executed | Probe.FallbackRaisesNameError | Probe.FallbackWithWarningComputes |
| process_video.py:79-80 | `step = int(round(nbFrames / outputWidth))` is not clamped, so `nbFrames / step` divides by zero | any video of 1 to 2499 frames at the width of 5000 on line 11, e.g. `nb_frames` = 1000 | a step of at least 1, so that any video with at least one frame gives at least one sample | not executed | Schedule.ShortVideoFails | Schedule.ClampedPlanSamples |
