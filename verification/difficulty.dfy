/** `DifficultyManager`: elapsed play time is banked in intervals of five
    minutes; every completed interval raises the level, and the level sets
    the multiplier applied to spawning and to new enemies. */
module Difficulty {
  import opened Numeric

  const Interval: real := 300.0
  const Scale: real := 1.1

  datatype Timer = Timer(elapsed: real, level: nat)

  const Initial: Timer := Timer(0.0, 0)

  /** One frame of `update(dt)`: a single `if`, so one call raises the level
      by at most one, and no time is ever lost from the account. */
  function Update(d: Timer, dt: real): (d': Timer)
    ensures d'.level == d.level || d'.level == d.level + 1
    ensures d'.level == d.level + 1 <==> d.elapsed + dt >= Interval
    ensures d'.level as real * Interval + d'.elapsed == d.level as real * Interval + d.elapsed + dt
  {
    var t := d.elapsed + dt;
    if t >= Interval then Timer(t - Interval, d.level + 1) else Timer(t, d.level)
  }

  /** `multiplier()`: `scale ** level`, never below one. */
  function Multiplier(d: Timer): (m: real)
    ensures 1.0 <= m
  {
    PowAtLeastOne(Scale, d.level);
    Pow(Scale, d.level)
  }

  /** A frame either keeps the multiplier or scales it by exactly 1.1. */
  lemma MultiplierAfterUpdate(d: Timer, dt: real)
    ensures d.elapsed + dt >= Interval ==> Multiplier(Update(d, dt)) == Scale * Multiplier(d)
    ensures d.elapsed + dt < Interval ==> Multiplier(Update(d, dt)) == Multiplier(d)
  {
  }

  /** Total of a run of frame times. */
  function Sum(dts: seq<real>): real
  {
    if |dts| == 0 then 0.0 else Sum(dts[..|dts| - 1]) + dts[|dts| - 1]
  }

  /** The timer after a run of frames. */
  function Run(d: Timer, dts: seq<real>): Timer
  {
    if |dts| == 0 then d else Update(Run(d, dts[..|dts| - 1]), dts[|dts| - 1])
  }

  /** Whatever the frame times, levels plus the banked remainder account for
      all of the time that was fed in. */
  lemma {:induction false} RunAccountsForAllTime(d: Timer, dts: seq<real>)
    ensures Run(d, dts).level as real * Interval + Run(d, dts).elapsed
         == d.level as real * Interval + d.elapsed + Sum(dts)
  {
    if |dts| > 0 {
      RunAccountsForAllTime(d, dts[..|dts| - 1]);
    }
  }

  /** With frames shorter than an interval, the remainder stays below one
      interval, so the level is exactly the number of whole intervals played. */
  lemma {:induction false} RunCountsWholeIntervals(dts: seq<real>)
    requires forall i :: 0 <= i < |dts| ==> 0.0 <= dts[i] < Interval
    ensures 0.0 <= Run(Initial, dts).elapsed < Interval
    ensures Run(Initial, dts).level == (Sum(dts) / Interval).Floor
  {
    if |dts| > 0 {
      RunCountsWholeIntervals(dts[..|dts| - 1]);
    }
    RunAccountsForAllTime(Initial, dts);
    var r := Run(Initial, dts);
    var q := Sum(dts) / Interval;
    assert q == r.level as real + r.elapsed / Interval;
    assert r.level as real <= q < r.level as real + 1.0;
  }

  /** A single long frame of two intervals raises the level by one only;
      the second interval stays banked for the next call. */
  lemma LongFrameRaisesOneLevel()
    ensures Update(Initial, 2.0 * Interval) == Timer(Interval, 1)
    ensures Update(Update(Initial, 2.0 * Interval), 0.0) == Timer(0.0, 2)
  {
  }
}
