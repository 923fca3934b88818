/**
 * Choosing the number of frames of the video from what the metadata probe
 * reported for its first video stream (process_video.py, lines 55-76).
 * The probe's JSON is taken already decoded: a frame count that parses as
 * an integer, a duration and a frame rate that parse as numbers.
 */
module Probe {
  import opened Outcomes
  import opened Numerics

  /** `r_frame_rate`: either "num/den" or a plain number. */
  datatype FrameRate = Ratio(num: real, den: real) | Plain(fps: real)

  /** The fields of `streams[i]` the script looks at. */
  datatype VideoStream = VideoStream(nbFrames: Option<int>, rFrameRate: Option<FrameRate>)

  /** The field of the `format` block the script looks at. */
  datatype Format = Format(duration: Option<real>)

  datatype ProbeOutput = ProbeOutput(format: Format, streams: seq<VideoStream>)

  /** `'nb_frames' in stream and int(stream['nb_frames']) > 0` */
  predicate ReportsFrameCount(s: VideoStream) {
    s.nbFrames.Some? && s.nbFrames.value > 0
  }

  /** `'duration' in format and 'r_frame_rate' in stream` */
  predicate CanGuessFrameCount(p: ProbeOutput)
    requires |p.streams| > 0
  {
    p.format.duration.Some? && p.streams[0].rFrameRate.Some?
  }

  /** `int(duration * rate)`, where "num/den" is evaluated as a float division. */
  function GuessFromDuration(duration: real, rate: FrameRate): (r: Result<int>)
    ensures r.Err? <==> rate.Ratio? && rate.den == 0.0
    ensures r.Err? ==> r.error == ZeroDivisionError
    ensures r.Ok? && rate.Plain? && duration * rate.fps >= 0.0 ==>
      r.value as real <= duration * rate.fps < r.value as real + 1.0
    ensures r.Ok? && rate.Ratio? && duration * (rate.num / rate.den) >= 0.0 ==>
      r.value as real <= duration * (rate.num / rate.den) < r.value as real + 1.0
    ensures r.Ok? && rate.Plain? && duration * rate.fps < 0.0 ==>
      r.value as real - 1.0 < duration * rate.fps <= r.value as real
    ensures r.Ok? && rate.Ratio? && duration * (rate.num / rate.den) < 0.0 ==>
      r.value as real - 1.0 < duration * (rate.num / rate.den) <= r.value as real
  {
    match rate
    case Ratio(num, den) =>
      if den == 0.0 then Err(ZeroDivisionError) else Ok(Trunc(duration * (num / den)))
    case Plain(fps) => Ok(Trunc(duration * fps))
  }

  /**
   * Lines 57-76. `warningDefined` says whether the name `warning`, called on
   * line 67 before the fallback computes anything, is bound: in the script
   * it is neither defined nor imported, so the call raises NameError.
   */
  function SelectFrameCount(p: ProbeOutput, warningDefined: bool): (r: Result<int>)
    ensures |p.streams| == 0 ==> r == Err(Exit(2))
    ensures r.Err? ==> r.error in {Exit(2), NameError("warning"), ZeroDivisionError}
    ensures r.Ok? ==>
      && |p.streams| > 0
      && (ReportsFrameCount(p.streams[0]) || (warningDefined && CanGuessFrameCount(p)))
  {
    if |p.streams| == 0 then Err(Exit(2))
    else if ReportsFrameCount(p.streams[0]) then Ok(p.streams[0].nbFrames.value)
    else if CanGuessFrameCount(p) then
      if !warningDefined then Err(NameError("warning"))
      else GuessFromDuration(p.format.duration.value, p.streams[0].rFrameRate.value)
    else Err(Exit(2))
  }

  /** The frame count as the script computes it. */
  function FrameCount(p: ProbeOutput): (r: Result<int>)
    ensures r.Ok? ==> r.value > 0
  {
    SelectFrameCount(p, false)
  }

  /** The frame count once `warning` names a logging function that returns. */
  function FrameCountWithWarning(p: ProbeOutput): (r: Result<int>)
    ensures r.Err? ==> r.error == Exit(2) || r.error == ZeroDivisionError
  {
    SelectFrameCount(p, true)
  }

  /** A positive `nb_frames` on the first stream is the answer, whatever else the probe said. */
  lemma NbFramesWins(p: ProbeOutput, warningDefined: bool)
    requires |p.streams| > 0 && ReportsFrameCount(p.streams[0])
    ensures SelectFrameCount(p, warningDefined) == Ok(p.streams[0].nbFrames.value)
  {
  }

  /** Exit status 2 exactly when there is no video stream, or no usable count and nothing to guess from. */
  lemma ExitTwoIff(p: ProbeOutput, warningDefined: bool)
    ensures SelectFrameCount(p, warningDefined) == Err(Exit(2)) <==>
      |p.streams| == 0 ||
      (!ReportsFrameCount(p.streams[0]) && !CanGuessFrameCount(p))
  {
  }

  /** As written, every successful selection came from `nb_frames`: the fallback never completes. */
  lemma FrameCountOnlyFromNbFrames(p: ProbeOutput)
    ensures FrameCount(p).Ok? <==> |p.streams| > 0 && ReportsFrameCount(p.streams[0])
    ensures FrameCount(p).Ok? ==> FrameCount(p).value == p.streams[0].nbFrames.value
  {
  }

  /** As written, reaching the duration fallback raises NameError on line 67. */
  lemma FallbackRaisesNameError(p: ProbeOutput)
    requires |p.streams| > 0 && !ReportsFrameCount(p.streams[0]) && CanGuessFrameCount(p)
    ensures FrameCount(p) == Err(NameError("warning"))
  {
  }

  /** A concrete probe result that reaches the fallback: no `nb_frames`, 10 s at 25/1 fps. */
  lemma FallbackWitness()
    ensures var p := ProbeOutput(Format(Some(10.0)), [VideoStream(None, Some(Ratio(25.0, 1.0)))]);
      FrameCount(p) == Err(NameError("warning")) && FrameCountWithWarning(p) == Ok(250)
  {
    var p := ProbeOutput(Format(Some(10.0)), [VideoStream(None, Some(Ratio(25.0, 1.0)))]);
    assert 10.0 * (25.0 / 1.0) == 250.0;
    assert Trunc(250.0) == 250;
  }

  /**
   * With `warning` defined, the fallback yields `int(duration * rate)`,
   * failing only on a "num/0" rate, and agrees with the script elsewhere.
   */
  lemma FallbackWithWarningComputes(p: ProbeOutput)
    requires |p.streams| > 0 && !ReportsFrameCount(p.streams[0]) && CanGuessFrameCount(p)
    ensures FrameCountWithWarning(p) ==
      GuessFromDuration(p.format.duration.value, p.streams[0].rFrameRate.value)
    ensures FrameCountWithWarning(p).Ok? <==>
      !(p.streams[0].rFrameRate.value.Ratio? && p.streams[0].rFrameRate.value.den == 0.0)
  {
  }

  /** Defining `warning` changes nothing outside the fallback branch. */
  lemma WarningOnlyAffectsFallback(p: ProbeOutput)
    requires |p.streams| == 0 || ReportsFrameCount(p.streams[0]) || !CanGuessFrameCount(p)
    ensures FrameCountWithWarning(p) == FrameCount(p)
  {
  }
}
