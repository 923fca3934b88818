/**
 * The frame step and the resulting number of samples
 * (process_video.py, lines 79-80):
 *
 *   step = int(round(nbFrames / outputWidth))
 *   sampleCount = int(round(nbFrames / step))
 *
 * `/` is true division (`from __future__ import division`) and `round` is
 * Python 2's, which rounds halves away from zero. The quotients are taken
 * as exact rationals; the script's doubles agree with them for frame
 * counts far below 2^53.
 */
module Schedule {
  import opened Outcomes
  import opened Numerics

  /** The script's `outputWidth` (process_video.py, line 11). */
  const OUTPUT_WIDTH := 5000

  datatype Plan = Plan(step: int, sampleCount: int)

  /** Line 79: the stride between sampled frames. */
  function Step(nbFrames: int, outputWidth: int): (step: int)
    requires outputWidth > 0
    ensures RoundsTo(nbFrames, outputWidth, step)
  {
    RoundHalfAway(nbFrames, outputWidth)
  }

  /** Lines 79-80 as written: a zero step makes line 80 raise ZeroDivisionError. */
  function MakePlan(nbFrames: int, outputWidth: int): (r: Result<Plan>)
    requires outputWidth > 0
    ensures r.Err? ==> r.error == ZeroDivisionError
    ensures r.Ok? ==> r.value.step != 0 && r.value.step == Step(nbFrames, outputWidth)
  {
    var step := Step(nbFrames, outputWidth);
    if step == 0 then Err(ZeroDivisionError)
    else Ok(Plan(step, RoundHalfAway(nbFrames, step)))
  }

  /** The step is zero exactly when fewer than half a frame falls on each output column. */
  lemma StepZeroIff(nbFrames: int, outputWidth: int)
    requires outputWidth > 0
    ensures Step(nbFrames, outputWidth) == 0 <==>
      2 * (if nbFrames < 0 then -nbFrames else nbFrames) < outputWidth
  {
    var s := Step(nbFrames, outputWidth);
    if s != 0 {
      if s >= 1 {
        MulGrows(outputWidth, s);
      } else {
        MulGrows(outputWidth, -s);
      }
    }
  }

  /** As written, planning fails exactly when the step rounds to zero. */
  lemma MakePlanFailsIff(nbFrames: int, outputWidth: int)
    requires outputWidth > 0
    ensures MakePlan(nbFrames, outputWidth).Err? <==>
      2 * (if nbFrames < 0 then -nbFrames else nbFrames) < outputWidth
  {
    StepZeroIff(nbFrames, outputWidth);
  }

  /**
   * A video of fewer than 2500 frames at the script's width of 5000 has
   * step 0 and stops on line 80.
   */
  lemma ShortVideoFails(nbFrames: int)
    requires 0 < nbFrames < 2500
    ensures MakePlan(nbFrames, OUTPUT_WIDTH) == Err(ZeroDivisionError)
  {
    MakePlanFailsIff(nbFrames, OUTPUT_WIDTH);
  }

  /**
   * When planning succeeds, the step is positive and the sample count is
   * the frame count divided by it, rounded half away from zero; so
   * `sampleCount * step` is within half a step of the frame count.
   */
  lemma SampleCountNearFrameCount(nbFrames: int, outputWidth: int)
    requires outputWidth > 0 && nbFrames >= 0
    requires MakePlan(nbFrames, outputWidth).Ok?
    ensures var p := MakePlan(nbFrames, outputWidth).value;
      && p.step >= 1
      && RoundsTo(nbFrames, p.step, p.sampleCount)
      && -p.step <= 2 * (p.sampleCount * p.step - nbFrames) <= p.step
  {
    var p := MakePlan(nbFrames, outputWidth).value;
    assert p.step >= 0;
  }

  lemma ThousandFramesAtWidthHundred()
    ensures MakePlan(1000, 100) == Ok(Plan(10, 100))
  {
  }

  /**
   * The plan with the step clamped to at least 1; it never fails.
   */
  function ClampedPlan(nbFrames: int, outputWidth: int): (p: Plan)
    requires outputWidth > 0
    ensures p.step >= 1
    ensures p.step == if Step(nbFrames, outputWidth) < 1 then 1 else Step(nbFrames, outputWidth)
    ensures RoundsTo(nbFrames, p.step, p.sampleCount)
  {
    var rounded := Step(nbFrames, outputWidth);
    var step := if rounded < 1 then 1 else rounded;
    Plan(step, RoundHalfAway(nbFrames, step))
  }

  /** A video with at least one frame always yields at least one sample under the clamped plan. */
  lemma ClampedPlanSamples(nbFrames: int, outputWidth: int)
    requires outputWidth > 0 && nbFrames >= 1
    ensures ClampedPlan(nbFrames, outputWidth).sampleCount >= 1
    ensures var p := ClampedPlan(nbFrames, outputWidth);
      -p.step <= 2 * (p.sampleCount * p.step - nbFrames) <= p.step
  {
    var p := ClampedPlan(nbFrames, outputWidth);
    RoundsToAtMost(nbFrames, outputWidth, Step(nbFrames, outputWidth));
    RoundsToPositive(nbFrames, p.step, p.sampleCount);
  }

  /** Where the script's plan succeeds with a positive step, clamping changes nothing. */
  lemma ClampedPlanAgrees(nbFrames: int, outputWidth: int)
    requires outputWidth > 0
    requires MakePlan(nbFrames, outputWidth).Ok? && MakePlan(nbFrames, outputWidth).value.step >= 1
    ensures ClampedPlan(nbFrames, outputWidth) == MakePlan(nbFrames, outputWidth).value
  {
  }
}
