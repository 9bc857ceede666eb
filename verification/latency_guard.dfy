/** Detects buffering that stays after a hardware stall: windows of nine samples
    whose median has risen by a period, twice in a row, near a stall. */
module LatencyGuard {
  import opened Sequences

  const WINDOW := 9
  const SECOND := 1_000_000_000
  const WARMUP_NANOS := 1_000_000_000
  const STALL_WINDOW_NANOS := 10_000_000_000
  const I64_MAX := 0x7fff_ffff_ffff_ffff

  /** How many of the samples are at least `level`. */
  function AtLeast(samples: seq<int>, level: int): nat {
    if samples == [] then 0
    else AtLeast(samples[..|samples| - 1], level) + if samples[|samples| - 1] >= level then 1 else 0
  }

  predicate Sorted(samples: seq<int>) {
    forall i, j :: 0 <= i < j < |samples| ==> samples[i] <= samples[j]
  }

  lemma {:induction false} AtLeastAppend(a: seq<int>, b: seq<int>, level: int)
    ensures AtLeast(a + b, level) == AtLeast(a, level) + AtLeast(b, level)
  {
    if b == [] {
      assert a + b == a;
    } else {
      AtLeastAppend(a, b[..|b| - 1], level);
      assert (a + b)[..|a + b| - 1] == a + b[..|b| - 1];
    }
  }

  lemma AtLeastSwap(samples: seq<int>, i: nat, level: int)
    requires i + 1 < |samples|
    ensures AtLeast(samples[i := samples[i + 1]][i + 1 := samples[i]], level) == AtLeast(samples, level)
  {
    var swapped := samples[i := samples[i + 1]][i + 1 := samples[i]];
    assert samples == samples[..i] + [samples[i], samples[i + 1]] + samples[i + 2..];
    assert swapped == samples[..i] + [samples[i + 1], samples[i]] + samples[i + 2..];
    AtLeastAppend(samples[..i] + [samples[i], samples[i + 1]], samples[i + 2..], level);
    AtLeastAppend(samples[..i] + [samples[i + 1], samples[i]], samples[i + 2..], level);
    AtLeastAppend(samples[..i], [samples[i], samples[i + 1]], level);
    AtLeastAppend(samples[..i], [samples[i + 1], samples[i]], level);
    assert [samples[i], samples[i + 1]][..1] == [samples[i]] && [samples[i + 1], samples[i]][..1] == [samples[i + 1]];
  }

  lemma {:induction false} NoneAtLeast(samples: seq<int>, level: int)
    requires forall i :: 0 <= i < |samples| ==> samples[i] < level
    ensures AtLeast(samples, level) == 0
  {
    if samples != [] {
      NoneAtLeast(samples[..|samples| - 1], level);
    }
  }

  /** In sorted samples the one at `k` reaches a level just when those from `k` on do. */
  lemma {:induction false} RankInSorted(sorted: seq<int>, k: nat, level: int)
    requires Sorted(sorted) && k < |sorted|
    ensures sorted[k] >= level <==> AtLeast(sorted, level) >= |sorted| - k
  {
    var last := |sorted| - 1;
    if sorted[last] < level {
      NoneAtLeast(sorted, level);
    } else if k < last {
      RankInSorted(sorted[..last], k, level);
    }
  }

  /** The same samples in another order, as far as any level can tell. */
  ghost predicate SameCounts(a: seq<int>, b: seq<int>) {
    |a| == |b| && forall level :: AtLeast(a, level) == AtLeast(b, level)
  }

  /** The median of nine reaches a level just when five of them do. */
  lemma MedianIsMajority(samples: seq<int>, sorted: seq<int>, level: int)
    requires |samples| == WINDOW && SameCounts(samples, sorted) && Sorted(sorted)
    ensures sorted[WINDOW / 2] >= level <==> AtLeast(samples, level) >= 5
  {
    RankInSorted(sorted, WINDOW / 2, level);
  }

  /** Sorts in place. */
  method Sort(a: array<int>)
    modifies a
    ensures Sorted(a[..]) && SameCounts(old(a[..]), a[..])
  {
    for i := 0 to a.Length
      invariant Sorted(a[..i]) && SameCounts(old(a[..]), a[..])
    {
      var j := i;
      while j > 0 && a[j - 1] > a[j]
        invariant 0 <= j <= i && SameCounts(old(a[..]), a[..])
        invariant forall p, q :: 0 <= p < q <= i && q != j ==> a[p] <= a[q]
      {
        ghost var before := a[..];
        a[j - 1], a[j] := a[j], a[j - 1];
        assert a[..] == before[j - 1 := before[j]][j := before[j - 1]];
        forall level ensures AtLeast(a[..], level) == AtLeast(before, level) {
          AtLeastSwap(before, j - 1, level);
        }
        j := j - 1;
      }
    }
    assert a[..a.Length] == a[..];
  }

  /** A full window: its samples, and whether a stall was in reach when it closed. */
  datatype Window = Window(samples: seq<int>, stalled: bool)

  predicate High(window: Window, baseline: int, period: int) {
    window.stalled && AtLeast(window.samples, baseline + period) >= 5
  }

  /** How many windows at the end are high; the first one only sets the baseline. */
  function TrailingHigh(windows: seq<Window>, baseline: int, period: int): (count: nat)
    ensures count < |windows| || count == 0
    ensures count >= 2 <==>
              |windows| >= 3 && High(windows[|windows| - 1], baseline, period) &&
                High(windows[|windows| - 2], baseline, period)
  {
    if |windows| <= 1 then 0
    else if High(windows[|windows| - 1], baseline, period)
    then TrailingHigh(windows[..|windows| - 1], baseline, period) + 1
    else 0
  }

  /** The middle one of nine. */
  ghost predicate IsMedian(samples: seq<int>, median: int) {
    forall level :: median >= level <==> AtLeast(samples, level) >= 5
  }

  function NextPowerOfTwo(n: nat, candidate: nat): (power: nat)
    requires 0 < candidate
    ensures power >= n && power >= candidate
    decreases n - candidate
  {
    if candidate >= n then candidate else NextPowerOfTwo(n, 2 * candidate)
  }

  function PowerOfTwo(exponent: nat): (power: nat)
    ensures power > 0
  {
    if exponent == 0 then 1 else 2 * PowerOfTwo(exponent - 1)
  }

  /** The search goes on from one power of two to the next and stops at the first that
      is large enough. */
  lemma {:induction false} NextPowerIsLeast(n: nat, exponent: nat) returns (found: nat)
    requires exponent == 0 || PowerOfTwo(exponent - 1) < n
    ensures NextPowerOfTwo(n, PowerOfTwo(exponent)) == PowerOfTwo(found) >= n
    ensures found == 0 || PowerOfTwo(found - 1) < n
    decreases n - PowerOfTwo(exponent)
  {
    if PowerOfTwo(exponent) >= n {
      found := exponent;
    } else {
      found := NextPowerIsLeast(n, exponent + 1);
    }
  }

  /** Sampling at least once and at most about twelve times a second. */
  function SamplePeriods(periodFrames: nat, rate: nat): nat
    requires periodFrames > 0
  {
    var perSample := rate / periodFrames / 12;
    NextPowerOfTwo(if perSample < 1 then 1 else perSample, 1)
  }

  /** It is the least power of two that is at least a twelfth of the periods in a second. */
  lemma SamplePeriodsIsLeastPower(periodFrames: nat, rate: nat) returns (exponent: nat)
    requires periodFrames > 0
    ensures SamplePeriods(periodFrames, rate) == PowerOfTwo(exponent) >= rate / periodFrames / 12
    ensures exponent == 0 || PowerOfTwo(exponent - 1) < rate / periodFrames / 12
  {
    var perSample := rate / periodFrames / 12;
    exponent := NextPowerIsLeast(if perSample < 1 then 1 else perSample, 0);
  }

  /** A quotient is the whole part of the division. */
  lemma Quotient(n: nat, d: nat)
    requires d > 0
    ensures n / d * d <= n < (n / d + 1) * d
  {
    assert n == n / d * d + n % d;
    assert (n / d + 1) * d == n / d * d + d;
  }

  /** The first window sets the baseline; the counter holds the high ones at the end. */
  ghost predicate WindowsAgree(windows: seq<Window>, baseline: Option<int>, highWindows: nat, period: nat) {
    && (baseline.None? <==> windows == [])
    && (baseline.None? ==> highWindows == 0)
    && (baseline.Some? ==> 0 <= baseline.value <= I64_MAX && IsMedian(windows[0].samples, baseline.value))
    && (baseline.Some? ==>
          var high := TrailingHigh(windows, baseline.value, period);
          highWindows == if high < 255 then high else 255)
  }

  lemma NoWindows(period: nat)
    ensures WindowsAgree([], None, 0, period)
  {
  }

  lemma FirstWindow(windows: seq<Window>, highWindows: nat, period: nat, window: Window, median: int)
    requires WindowsAgree(windows, None, highWindows, period)
    requires IsMedian(window.samples, median) && 0 <= median <= I64_MAX
    ensures windows == [] && highWindows == 0 && WindowsAgree(windows + [window], Some(median), 0, period)
  {
  }

  lemma NextWindow(windows: seq<Window>, baseline: int, highWindows: nat, period: nat, window: Window, median: int)
    requires WindowsAgree(windows, Some(baseline), highWindows, period) && IsMedian(window.samples, median)
    ensures var high := window.stalled && median - baseline >= period;
            var now := if high then (if highWindows < 255 then highWindows + 1 else 255) else 0;
            var after := windows + [window];
            && WindowsAgree(after, Some(baseline), now, period)
            && (now >= 2 <==>
                  |after| >= 3 && High(after[|after| - 1], baseline, period) &&
                    High(after[|after| - 2], baseline, period))
  {
    assert median >= baseline + period <==> AtLeast(window.samples, baseline + period) >= 5;
    assert (windows + [window])[..|windows|] == windows;
  }

  class Guard {
    const periodFrames: nat
    const periodNanos: u64
    const samplePeriods: nat
    const stallWindow: u64
    var generation: Option<u64>
    var warmUntil: u64
    var lastReady: Option<u64>
    var stalledUntil: u64
    const samples: array<int>
    var count: nat
    var baseline: Option<int>
    var highWindows: nat

    /** In this generation: the full windows, the samples since, and the last stall. */
    ghost var windows: seq<Window>
    ghost var current: seq<int>
    ghost var lastStall: Option<u64>

    ghost predicate Valid()
      reads this, samples
    {
      && 0 < periodFrames && samples.Length == WINDOW
      && count < WINDOW && samples[..count] == current
      && (forall i :: 0 <= i < |current| ==> 0 <= current[i] <= I64_MAX)
      && WindowsAgree(windows, baseline, highWindows, periodFrames)
      && stalledUntil == (if lastStall.None? then 0 else SaturatingAdd(lastStall.value, stallWindow))
    }

    /** The evidence window is long enough for three windows of samples. */
    constructor (periodFrames: nat, rate: nat)
      requires 0 < periodFrames && 0 < rate && periodFrames * SECOND / rate < RANGE
      ensures Valid() && windows == [] && current == [] && lastStall == None && fresh(samples)
      ensures generation == None && lastReady == None
      ensures this.periodFrames == periodFrames && samplePeriods == SamplePeriods(periodFrames, rate)
      ensures periodNanos * rate <= periodFrames * SECOND < (periodNanos + 1) * rate
      ensures stallWindow ==
              Max(STALL_WINDOW_NANOS, SaturatingMul(SaturatingMul(periodNanos, samplePeriods), WINDOW * 3))
    {
      this.periodFrames := periodFrames;
      Quotient(periodFrames * SECOND, rate);
      var nanos: u64 := periodFrames * SECOND / rate;
      periodNanos := nanos;
      samplePeriods := SamplePeriods(periodFrames, rate);
      var evidence := SaturatingMul(SaturatingMul(nanos, SamplePeriods(periodFrames, rate)), WINDOW * 3);
      stallWindow := if STALL_WINDOW_NANOS > evidence then STALL_WINDOW_NANOS else evidence;
      generation, warmUntil, lastReady, stalledUntil := None, 0, None, 0;
      samples := new int[WINDOW](_ => 0);
      count, baseline, highWindows := 0, None, 0;
      windows, current, lastStall := [], [], None;
    }

    /** The hardware became ready. A new generation forgets everything; a late one
        within a generation is a stall. */
    method Ready(gen: u64, now: u64)
      requires Valid()
      modifies this
      ensures Valid() && generation == Some(gen) && lastReady == Some(now)
      ensures old(generation) != Some(gen) ==>
                windows == [] && current == [] && lastStall == None && warmUntil == SaturatingAdd(now, WARMUP_NANOS)
      ensures old(generation) == Some(gen) ==>
                && windows == old(windows) && current == old(current) && warmUntil == old(warmUntil)
                && lastStall == if old(lastReady).Some? && now > old(lastReady).value &&
                                   now - old(lastReady).value > SaturatingMul(periodNanos, 2)
                                then Some(now) else old(lastStall)
    {
      hide WindowsAgree, SaturatingMul;
      if generation != Some(gen) {
        NoWindows(periodFrames);
        generation, warmUntil, lastReady := Some(gen), SaturatingAdd(now, WARMUP_NANOS), None;
        stalledUntil, baseline, count, highWindows := 0, None, 0, 0;
        windows, current, lastStall := [], [], None;
      }
      if lastReady.Some? && SaturatingSub(now, lastReady.value) > SaturatingMul(periodNanos, 2) {
        stalledUntil, lastStall := SaturatingAdd(now, stallWindow), Some(now);
      }
      lastReady := Some(now);
    }

    /** A cycle that took longer than a period is a stall. */
    method Completed(ready: u64, now: u64)
      requires Valid()
      modifies `stalledUntil, `lastStall
      ensures Valid()
      ensures lastStall == if now > ready && now - ready > periodNanos then Some(now) else old(lastStall)
    {
      if SaturatingSub(now, ready) > periodNanos {
        stalledUntil, lastStall := SaturatingAdd(now, stallWindow), Some(now);
      }
    }

    /** Fires just when this sample completes a window that is high, the window
        before it was high too, and neither is the one that set the baseline. */
    method Sample(now: u64, playback: int, capture: int) returns (fired: bool)
      requires Valid() && playback <= I64_MAX && capture <= I64_MAX
      modifies this, samples
      ensures Valid() && generation == old(generation) && warmUntil == old(warmUntil) && lastStall == old(lastStall)
      ensures now < warmUntil || playback < 0 || capture < 0 ==>
                !fired && windows == old(windows) && current == old(current) && baseline == old(baseline)
      ensures now >= warmUntil && playback >= 0 && capture >= 0 ==>
                var total := if playback + capture <= I64_MAX then playback + capture else I64_MAX;
                var seen := old(current) + [total];
                && (|seen| < WINDOW ==> !fired && windows == old(windows) && current == seen)
                && (|seen| == WINDOW ==>
                      && current == []
                      && windows == old(windows) +
                         [Window(seen, lastStall.Some? && now < SaturatingAdd(lastStall.value, stallWindow))]
                      && baseline.Some? && (old(baseline).Some? ==> baseline == old(baseline))
                      && (fired <==>
                            && |windows| >= 3
                            && High(windows[|windows| - 1], baseline.value, periodFrames)
                            && High(windows[|windows| - 2], baseline.value, periodFrames)))
    {
      hide WindowsAgree, High, TrailingHigh, IsMedian, AtLeast, SaturatingAdd;
      if now < warmUntil || playback < 0 || capture < 0 {
        return false;
      }
      var total := if playback + capture <= I64_MAX then playback + capture else I64_MAX;
      Remember(total);
      if count != WINDOW {
        return false;
      }
      count := 0;
      fired := CloseWindow(now);
    }

    /** One more sample in the window. */
    method Remember(total: int)
      requires count < samples.Length && samples[..count] == current
      modifies `count, `current, samples
      ensures count == old(count) + 1 && current == old(current) + [total] == samples[..count]
    {
      samples[count] := total;
      current := current + [total];
      count := count + 1;
    }

    /** The window is full: its median sets or is measured against the baseline. */
    method CloseWindow(now: u64) returns (fired: bool)
      requires 0 < periodFrames && samples.Length == WINDOW && count == 0 && samples[..] == current
      requires forall i :: 0 <= i < |current| ==> 0 <= current[i] <= I64_MAX
      requires WindowsAgree(windows, baseline, highWindows, periodFrames)
      requires stalledUntil == if lastStall.None? then 0 else SaturatingAdd(lastStall.value, stallWindow)
      modifies `windows, `current, `baseline, `highWindows, samples
      ensures Valid() && current == []
      ensures windows == old(windows) + [Window(old(current), now < stalledUntil)]
      ensures baseline.Some? && (old(baseline).Some? ==> baseline == old(baseline))
      ensures fired <==>
                && |windows| >= 3
                && High(windows[|windows| - 1], baseline.value, periodFrames)
                && High(windows[|windows| - 2], baseline.value, periodFrames)
    {
      hide IsMedian, SameCounts, AtLeast, Sorted, TrailingHigh, High, WindowsAgree;
      ghost var window := Window(current, now < stalledUntil);
      Sort(samples);
      var median := samples[WINDOW / 2];
      MedianOfSorted(window.samples, samples[..]);
      current := [];
      if baseline.None? {
        FirstWindow(windows, highWindows, periodFrames, window, median);
        baseline, windows := Some(median), windows + [window];
        return false;
      }
      NextWindow(windows, baseline.value, highWindows, periodFrames, window, median);
      windows := windows + [window];
      if now < stalledUntil && median - baseline.value >= periodFrames {
        highWindows := if highWindows < 255 then highWindows + 1 else 255;
      } else {
        highWindows := 0;
      }
      return highWindows >= 2;
    }
  }

  lemma MedianOfSorted(samples: seq<int>, sorted: seq<int>)
    requires |samples| == WINDOW && SameCounts(samples, sorted) && Sorted(sorted)
    requires forall i :: 0 <= i < |samples| ==> 0 <= samples[i] <= I64_MAX
    ensures IsMedian(samples, sorted[WINDOW / 2]) && 0 <= sorted[WINDOW / 2] <= I64_MAX
  {
    forall level ensures sorted[WINDOW / 2] >= level <==> AtLeast(samples, level) >= 5 {
      MedianIsMajority(samples, sorted, level);
    }
    AllAtLeast(samples, 0);
    NoneAtLeast(samples, I64_MAX + 1);
  }

  lemma {:induction false} AllAtLeast(samples: seq<int>, level: int)
    requires forall i :: 0 <= i < |samples| ==> samples[i] >= level
    ensures AtLeast(samples, level) == |samples|
  {
    if samples != [] {
      AllAtLeast(samples[..|samples| - 1], level);
    }
  }
}
