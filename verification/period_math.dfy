/** Counting frames in periods, by adding and taking away one period at a time:
    `count * period` and `frames / period` without nonlinear arithmetic. */
module PeriodMath {

  function Frames(count: nat, period: nat): nat {
    if count == 0 then 0 else Frames(count - 1, period) + period
  }

  function Periods(frames: nat, period: nat): (count: nat)
    requires period > 0
    ensures count <= frames
  {
    if frames < period then 0 else Periods(frames - period, period) + 1
  }

  lemma {:induction false} FramesIsProduct(count: nat, period: nat)
    ensures Frames(count, period) == count * period
  {
    if count > 0 {
      FramesIsProduct(count - 1, period);
    }
  }

  lemma {:induction false} PeriodsFit(frames: nat, period: nat)
    requires period > 0
    ensures Frames(Periods(frames, period), period) <= frames < Frames(Periods(frames, period), period) + period
  {
    if frames >= period {
      PeriodsFit(frames - period, period);
    }
  }

  lemma {:induction false} FramesAdd(a: nat, b: nat, period: nat)
    ensures Frames(a + b, period) == Frames(a, period) + Frames(b, period)
  {
    if b > 0 {
      FramesAdd(a, b - 1, period);
    }
  }

  lemma FramesGrow(a: nat, b: nat, period: nat)
    ensures a <= b ==> Frames(a, period) <= Frames(b, period)
    ensures a < b ==> Frames(a, period) + period <= Frames(b, period)
  {
    if a < b {
      FramesAdd(a + 1, b - a - 1, period);
    }
  }

  /** A count of periods fits in `frames` just when it is at most the whole periods. */
  lemma FramesFitWhenWhole(frames: nat, period: nat, count: nat)
    requires period > 0
    ensures count <= Periods(frames, period) <==> Frames(count, period) <= frames
  {
    PeriodsFit(frames, period);
    FramesGrow(count, Periods(frames, period), period);
    FramesGrow(Periods(frames, period), count, period);
  }

  /** A whole number of periods. */
  predicate Whole(frames: nat, period: nat)
    requires period > 0
  {
    Frames(Periods(frames, period), period) == frames
  }

  lemma WholeOfFrames(count: nat, period: nat)
    requires period > 0
    ensures Periods(Frames(count, period), period) == count && Whole(Frames(count, period), period)
  {
    PeriodsFit(Frames(count, period), period);
    FramesGrow(count, Periods(Frames(count, period), period), period);
    FramesGrow(Periods(Frames(count, period), period), count, period);
  }

  lemma WholeDifference(a: nat, b: nat, period: nat)
    requires period > 0 && b <= a && Whole(a, period) && Whole(b, period)
    ensures Whole(a - b, period)
  {
    FramesGrow(Periods(a, period), Periods(b, period), period);
    if Periods(b, period) <= Periods(a, period) {
      FramesAdd(Periods(b, period), Periods(a, period) - Periods(b, period), period);
      WholeOfFrames(Periods(a, period) - Periods(b, period), period);
    }
  }

  lemma WholeLessOne(frames: nat, period: nat)
    requires period > 0 && period <= frames
    ensures Whole(frames, period) ==> Whole(frames - period, period)
  {
  }

  function Padded(frames: nat, period: nat): (padded: nat)
    requires period > 0
  {
    var whole := Frames(Periods(frames, period), period);
    if whole == frames then frames else whole + period
  }

  /** Padding reaches the next whole period, and no further. */
  lemma PaddedIsNextWhole(frames: nat, period: nat)
    requires period > 0
    ensures Whole(Padded(frames, period), period)
    ensures frames <= Padded(frames, period) < frames + period
    ensures forall whole: nat :: frames <= whole && Whole(whole, period) ==> Padded(frames, period) <= whole
  {
    PeriodsFit(frames, period);
    WholeOfFrames(Periods(frames, period) + 1, period);
    forall whole: nat | frames <= whole && Whole(whole, period)
      ensures Padded(frames, period) <= whole
    {
      FramesGrow(Periods(frames, period) + 1, Periods(whole, period), period);
      FramesGrow(Periods(whole, period), Periods(frames, period), period);
    }
  }
}
