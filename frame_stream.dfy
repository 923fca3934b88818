/**
 * Reducing the decoder's raw output to one colour per frame
 * (process_video.py, lines 115-135). The decoder writes frames of
 * `frameWidth * frameHeight` pixels, three interleaved bytes (R, G, B) per
 * pixel, row by row; its standard output is modelled as the finite byte
 * sequence it produces before closing.
 */
module FrameStream {
  import opened Outcomes
  import opened Numerics

  type byte = x: int | 0 <= x < 256

  datatype Rgb = Rgb(r: int, g: int, b: int)

  predicate IsColour(c: Rgb) {
    0 <= c.r < 256 && 0 <= c.g < 256 && 0 <= c.b < 256
  }

  /** Bytes per frame of `pixels` pixels (`frameWidth * frameHeight`): three per pixel. */
  function FrameSize(pixels: nat): nat {
    3 * pixels
  }

  /** Channel `c` (0 = R, 1 = G, 2 = B) of pixel `i`: `frame[row, col, c]` after the reshape. */
  function Channel(raw: seq<byte>, c: nat, i: nat): byte
    requires c < 3 && 3 * i + c < |raw|
  {
    raw[3 * i + c]
  }

  /** The sum of channel `c` over the first `k` pixels. */
  function ChannelSum(raw: seq<byte>, c: nat, k: nat): (s: int)
    requires c < 3 && 3 * k <= |raw|
    ensures 0 <= s <= 255 * k
  {
    if k == 0 then 0 else ChannelSum(raw, c, k - 1) + Channel(raw, c, k - 1)
  }

  /** Channel sums are bounded by the channel's smallest and largest value, times the pixel count. */
  lemma {:induction false} ChannelSumBounds(raw: seq<byte>, c: nat, k: nat, lo: int, hi: int)
    requires c < 3 && 3 * k <= |raw|
    requires forall i :: 0 <= i < k ==> lo <= Channel(raw, c, i) <= hi
    ensures lo * k <= ChannelSum(raw, c, k) <= hi * k
  {
    if k > 0 {
      ChannelSumBounds(raw, c, k - 1, lo, hi);
      assert lo * k == lo * (k - 1) + lo;
      assert hi * k == hi * (k - 1) + hi;
    }
  }

  /** `int(numpy.average(frame[:, :, c]))`: the channel's mean over all pixels, rounded down. */
  function ChannelMean(raw: seq<byte>, c: nat, pixels: nat): (m: int)
    requires c < 3 && 0 < pixels && 3 * pixels <= |raw|
    ensures 0 <= m < 256
  {
    DivBetween(ChannelSum(raw, c, pixels), pixels, 0, 255);
    ChannelSum(raw, c, pixels) / pixels
  }

  /** Euclidean division is determined by quotient and remainder. */
  lemma DivUnique(a: int, n: int, q: int, r: int)
    requires n > 0 && 0 <= r < n && a == q * n + r
    ensures a / n == q
  {
    var k := a / n - q;
    assert k * n == r - a % n by {
      assert a == (a / n) * n + a % n;
      assert (a / n) * n - q * n == k * n;
    }
    if k >= 1 {
      MulGrows(n, k);
    } else if k <= -1 {
      MulGrows(n, -k);
    }
  }

  lemma DivStep(a: int, n: int)
    requires a >= n > 0
    ensures a / n == (a - n) / n + 1
  {
    var q, r := (a - n) / n, (a - n) % n;
    assert a - n == q * n + r;
    assert (q + 1) * n == q * n + n;
    DivUnique(a, n, q + 1, r);
  }

  lemma DivBetween(s: int, n: int, lo: int, hi: int)
    requires n > 0 && lo * n <= s <= hi * n
    ensures lo <= s / n <= hi
  {
    var q := s / n;
    assert s == q * n + s % n;
    if q < lo {
      MulGrows(n, lo - q);
    }
    if q > hi {
      MulGrows(n, q - hi);
    }
  }

  /** The mean of a channel lies between that channel's smallest and largest value in the frame. */
  lemma MeanWithinChannelRange(raw: seq<byte>, c: nat, pixels: nat, lo: int, hi: int)
    requires c < 3 && 0 < pixels && 3 * pixels <= |raw|
    requires forall i :: 0 <= i < pixels ==> lo <= Channel(raw, c, i) <= hi
    ensures lo <= ChannelMean(raw, c, pixels) <= hi
  {
    ChannelSumBounds(raw, c, pixels, lo, hi);
    DivBetween(ChannelSum(raw, c, pixels), pixels, lo, hi);
  }

  /** The colour of one well-formed frame of `pixels` pixels (line 118). */
  function Average(raw: seq<byte>, pixels: nat): (avg: Rgb)
    requires |raw| == FrameSize(pixels) && pixels > 0
    ensures IsColour(avg)
  {
    Rgb(ChannelMean(raw, 0, pixels), ChannelMean(raw, 1, pixels), ChannelMean(raw, 2, pixels))
  }

  /** A frame whose every pixel is `colour` averages to exactly `colour`. */
  lemma UniformFrameAverage(raw: seq<byte>, pixels: nat, colour: Rgb)
    requires |raw| == FrameSize(pixels) && pixels > 0
    requires forall i :: 0 <= i < pixels ==>
      Channel(raw, 0, i) == colour.r && Channel(raw, 1, i) == colour.g && Channel(raw, 2, i) == colour.b
    ensures Average(raw, pixels) == colour
  {
    MeanWithinChannelRange(raw, 0, pixels, colour.r, colour.r);
    MeanWithinChannelRange(raw, 1, pixels, colour.g, colour.g);
    MeanWithinChannelRange(raw, 2, pixels, colour.b, colour.b);
  }

  /**
   * `draw_next_frame_rgb_avg` (lines 115-119). `reshape` raises ValueError
   * unless the chunk holds exactly one frame; a zero-pixel frame averages
   * to NaN, on which `int` raises ValueError too. Whether the reshape to
   * `(frameHeight, frameWidth, 3)` succeeds depends only on the pixel count
   * `pixels = frameWidth * frameHeight`, so that is what is passed.
   */
  function DrawNextFrameRgbAvg(raw: seq<byte>, pixels: nat): (r: Result<Rgb>)
    ensures r.Ok? <==> |raw| == FrameSize(pixels) && pixels > 0
    ensures r.Ok? ==> IsColour(r.value)
    ensures r.Err? ==> r.error == ValueError
  {
    if |raw| == FrameSize(pixels) && pixels > 0
    then Ok(Average(raw, pixels))
    else Err(ValueError)
  }

  /** `pipe.stdout.read(n)` at offset `pos`: up to `n` bytes, fewer only when the stream ends. */
  function Read(stdout: seq<byte>, pos: nat, n: nat): (chunk: seq<byte>)
    requires pos <= |stdout|
    ensures |chunk| <= n && pos + |chunk| <= |stdout|
    ensures |chunk| < n ==> pos + |chunk| == |stdout|
    ensures chunk == stdout[pos..pos + |chunk|]
  {
    if pos + n <= |stdout| then stdout[pos..pos + n] else stdout[pos..]
  }

  /** The complete frames of `size` bytes from offset `pos` on, in order; a trailing partial frame is not one. */
  function Frames(stdout: seq<byte>, pos: nat, size: nat): (frames: seq<seq<byte>>)
    requires pos <= |stdout|
    ensures |frames| > 0 ==> size > 0
    ensures forall i :: 0 <= i < |frames| ==> |frames[i]| == size
    decreases |stdout| - pos
  {
    if size == 0 || |stdout| - pos < size then []
    else [stdout[pos..pos + size]] + Frames(stdout, pos + size, size)
  }

  /** The average of each frame of `pixels` pixels, in order. */
  function Averages(frames: seq<seq<byte>>, pixels: nat): (avgs: seq<Rgb>)
    requires frames != [] ==> pixels > 0
    requires forall i :: 0 <= i < |frames| ==> |frames[i]| == FrameSize(pixels)
    ensures |avgs| == |frames|
  {
    if frames == [] then []
    else Averages(frames[..|frames| - 1], pixels) + [Average(frames[|frames| - 1], pixels)]
  }

  /** Entry `k` of Averages is the average of frame `k`. */
  lemma {:induction false} AveragesAt(frames: seq<seq<byte>>, pixels: nat, k: nat)
    requires frames != [] ==> pixels > 0
    requires forall i :: 0 <= i < |frames| ==> |frames[i]| == FrameSize(pixels)
    requires k < |frames|
    ensures Averages(frames, pixels)[k] == Average(frames[k], pixels)
    decreases |frames|
  {
    if k < |frames| - 1 {
      AveragesAt(frames[..|frames| - 1], pixels, k);
    }
  }

  /** The colours the read loop collects: the average of each complete frame, in stream order. */
  function Samples(stdout: seq<byte>, pixels: nat): (samples: seq<Rgb>)
    ensures |samples| == |Frames(stdout, 0, FrameSize(pixels))|
  {
    Averages(Frames(stdout, 0, FrameSize(pixels)), pixels)
  }

  /** Appending a frame appends its average. */
  lemma AveragesSnoc(frames: seq<seq<byte>>, frame: seq<byte>, pixels: nat)
    requires pixels > 0 && |frame| == FrameSize(pixels)
    requires forall i :: 0 <= i < |frames| ==> |frames[i]| == FrameSize(pixels)
    ensures Averages(frames + [frame], pixels) == Averages(frames, pixels) + [Average(frame, pixels)]
  {
    assert (frames + [frame])[..|frames|] == frames;
  }

  /** From offset `pos` there are as many frames as whole multiples of `size` bytes left. */
  lemma {:induction false} FramesCount(stdout: seq<byte>, pos: nat, size: nat)
    requires size > 0 && pos <= |stdout|
    ensures |Frames(stdout, pos, size)| == (|stdout| - pos) / size
    decreases |stdout| - pos
  {
    if |stdout| - pos >= size {
      FramesCount(stdout, pos + size, size);
      DivStep(|stdout| - pos, size);
    }
  }

  /** Frame `k` from offset `pos` is bytes `pos + k*size .. pos + (k+1)*size` of the stream. */
  lemma {:induction false} FramesAt(stdout: seq<byte>, pos: nat, size: nat, k: nat)
    requires pos <= |stdout| && k < |Frames(stdout, pos, size)|
    ensures pos + (k + 1) * size <= |stdout|
    ensures Frames(stdout, pos, size)[k] == stdout[pos + k * size..pos + (k + 1) * size]
    decreases k
  {
    if k > 0 {
      FramesAt(stdout, pos + size, size, k - 1);
      assert (k - 1) * size + size == k * size && k * size + size == (k + 1) * size;
    }
  }

  /** There are as many samples as complete frames in the stream; a trailing partial frame adds none. */
  lemma SamplesCount(stdout: seq<byte>, pixels: nat)
    requires pixels > 0
    ensures |Samples(stdout, pixels)| == |stdout| / FrameSize(pixels)
  {
    FramesCount(stdout, 0, FrameSize(pixels));
  }

  /** Sample `k` is the average of the `k`-th frame of the stream. */
  lemma SamplesAt(stdout: seq<byte>, pixels: nat, k: nat)
    requires k < |Samples(stdout, pixels)|
    ensures pixels > 0 && (k + 1) * FrameSize(pixels) <= |stdout|
    ensures Samples(stdout, pixels)[k] ==
      Average(stdout[k * FrameSize(pixels)..(k + 1) * FrameSize(pixels)], pixels)
  {
    FramesAt(stdout, 0, FrameSize(pixels), k);
    AveragesAt(Frames(stdout, 0, FrameSize(pixels)), pixels, k);
  }

  /**
   * The read loop (lines 123-135) for frames of `pixels` pixels
   * (`frameWidth * frameHeight`): read one frame's worth of bytes at a
   * time until a read returns nothing; each chunk that reduces is appended
   * to `rgbList` and counted in `x`, and a chunk that does not (the short
   * tail of the stream) is reported and skipped.
   */
  method ReadLoop(stdout: seq<byte>, pixels: nat) returns (rgbList: seq<Rgb>, x: int)
    ensures rgbList == Samples(stdout, pixels)
    ensures x == |rgbList|
    ensures pixels > 0 ==> |rgbList| == |stdout| / FrameSize(pixels)
  {
    var size := FrameSize(pixels);
    var pos := 0;
    ghost var frames: seq<seq<byte>> := [];
    rgbList, x := [], 0;
    while true
      invariant pos <= |stdout|
      invariant x == |rgbList|
      invariant forall i :: 0 <= i < |frames| ==> |frames[i]| == size
      invariant frames + Frames(stdout, pos, size) == Frames(stdout, 0, size)
      invariant rgbList == Averages(frames, pixels)
      decreases |stdout| - pos
    {
      var frame := Read(stdout, pos, size);
      if frame == [] {
        break;
      }
      var avg := DrawNextFrameRgbAvg(frame, pixels);
      match avg
      case Ok(rgb) =>
        AveragesSnoc(frames, frame, pixels);
        assert frames + [frame] + Frames(stdout, pos + size, size) == frames + Frames(stdout, pos, size);
        pos := pos + |frame|;
        frames := frames + [frame];
        rgbList := rgbList + [rgb];
        x := x + 1;
      case Err(_) =>
        // reported and skipped: only the short tail of the stream gets here
        pos := pos + |frame|;
    }
    assert Frames(stdout, pos, size) == [];
    assert frames == Frames(stdout, 0, size);
    if size > 0 {
      SamplesCount(stdout, pixels);
    }
  }

  /** Fifty well-formed 64x36 frames give fifty samples. */
  lemma FiftyFrames(stdout: seq<byte>)
    requires |stdout| == 50 * FrameSize(64 * 36)
    ensures |Samples(stdout, 64 * 36)| == 50
  {
    SamplesCount(stdout, 64 * 36);
  }

  /** A decoder that closes after three frames, mid-way through a fourth, gives three samples. */
  lemma ClosedEarly(stdout: seq<byte>, tail: nat)
    requires tail < FrameSize(64 * 36) && |stdout| == 3 * FrameSize(64 * 36) + tail
    ensures |Samples(stdout, 64 * 36)| == 3
  {
    SamplesCount(stdout, 64 * 36);
  }
}
