/** How long a direct PRO cycle may wait for its clients: never so long that the
    hardware eats into the frames reserved for writing. */
module DirectCutoff {
  import opened Sequences

  const SECOND := 1_000_000_000
  const RESERVE_DIVISOR := 4

  type u32 = x: int | 0 <= x < 0x1_0000_0000

  function DivCeil(a: nat, b: nat): nat
    requires b > 0
  {
    (a + b - 1) / b
  }

  /** Frames kept back for the write. */
  function WriteReserve(period: u32, rate: u32): nat {
    Min(DivCeil(period, RESERVE_DIVISOR), DivCeil(rate, 3000))
  }

  /** The time it takes to play `frames`, rounded down. */
  function Budget(frames: nat, rate: nat): u64
    requires rate > 0
  {
    BudgetIsBounded(frames, rate);
    SaturatingMul(frames, SECOND) / rate
  }

  function Spare(queued: int, reserve: nat): nat {
    if queued < reserve then 0 else queued - reserve
  }

  function Cutoff(observed: u64, queued: int, period: u32, rate: u32, handoff: u64): u64
    requires rate > 0
  {
    SaturatingAdd(observed, Min(handoff, Budget(Spare(queued, WriteReserve(period, rate)), rate)))
  }

  /** The handoff that the automatic mode configures. */
  function AutomaticHandoff(period: u32, rate: u32): nat {
    Spare(period, WriteReserve(period, rate)) * SECOND / (if rate == 0 then 1 else rate)
  }

  /** When a deferred capture's cycle must stop waiting. */
  function HandoffTarget(captureRead: u64, started: u64, handoff: u64, delay: int, reserve: nat, rate: nat): u64
    requires rate > 0
  {
    var configured := SaturatingAdd(started, handoff);
    var bounded := SaturatingAdd(captureRead, Budget(Spare(delay, reserve), rate));
    if configured < bounded then configured else bounded
  }

  lemma Quotient(n: nat, d: nat)
    requires d > 0
    ensures n / d * d <= n < n / d * d + d && n / d <= n
  {
    assert n == n / d * d + n % d;
    if n / d >= 1 {
      QuotientIsSmaller(n, d);
    }
  }

  lemma QuotientIsSmaller(n: nat, d: nat)
    requires d > 0
    ensures n / d <= n
  {
    assert n == n / d * d + n % d;
    assert n / d * d >= n / d by {
      ProductGrows(n / d, 1, d);
    }
  }

  lemma ProductGrows(k: nat, a: nat, b: nat)
    requires a <= b
    ensures k * a <= k * b
  {
    assert k * b == k * a + k * (b - a);
    assert k * (b - a) >= 0;
  }

  lemma QuotientGrows(a: nat, b: nat, d: nat)
    requires a <= b && d > 0
    ensures a / d <= b / d
  {
    Quotient(a, d);
    Quotient(b, d);
    if a / d > b / d {
      ProductGrows(d, b / d + 1, a / d);
    }
  }

  lemma BudgetIsBounded(frames: nat, rate: nat)
    requires rate > 0
    ensures 0 <= SaturatingMul(frames, SECOND) / rate < RANGE
  {
    Quotient(SaturatingMul(frames, SECOND), rate);
  }

  /** Within the budget no more than `frames` are played; without saturation one
      nanosecond more would be too long. */
  lemma BudgetIsTight(frames: nat, rate: nat)
    requires rate > 0
    ensures Budget(frames, rate) * rate <= frames * SECOND
    ensures frames * SECOND < RANGE ==> frames * SECOND < (Budget(frames, rate) + 1) * rate
  {
    Quotient(SaturatingMul(frames, SECOND), rate);
    assert (Budget(frames, rate) + 1) * rate == Budget(frames, rate) * rate + rate;
  }

  /** The reserve is a quarter of the period or a third of a millisecond, whichever
      is less, rounded up. */
  lemma ReserveFitsPeriod(period: u32, rate: u32)
    ensures WriteReserve(period, rate) <= period
    ensures 4 * WriteReserve(period, rate) < period + 4 && 3000 * WriteReserve(period, rate) < rate + 3000
    ensures period <= 4 * WriteReserve(period, rate) || rate <= 3000 * WriteReserve(period, rate)
  {
  }

  /** Waiting until the cutoff plays at most the queued frames beyond the reserve,
      whatever rate, period, queue and handoff are. */
  lemma CutoffKeepsReserve(observed: u64, queued: int, period: u32, rate: u32, handoff: u64)
    requires rate > 0
    ensures var waited := Cutoff(observed, queued, period, rate, handoff) - observed;
            0 <= waited <= handoff && waited * rate <= Max(queued - WriteReserve(period, rate), 0) * SECOND
  {
    var spare := Spare(queued, WriteReserve(period, rate));
    var waited := Cutoff(observed, queued, period, rate, handoff) - observed;
    BudgetIsTight(spare, rate);
    ProductGrows(rate, waited, Budget(spare, rate));
    assert rate * waited == waited * rate && rate * Budget(spare, rate) == Budget(spare, rate) * rate;
  }

  /** And it wastes no time: a longer handoff is cut off only where one nanosecond
      more would touch the reserve. */
  lemma CutoffIsLatest(observed: u64, queued: int, period: u32, rate: u32, handoff: u64)
    requires rate > 0
    requires var spare := Max(queued - WriteReserve(period, rate), 0);
             spare * SECOND < RANGE && observed + Budget(spare, rate) < RANGE
    ensures var waited := Cutoff(observed, queued, period, rate, handoff) - observed;
            waited < handoff ==> Max(queued - WriteReserve(period, rate), 0) * SECOND < (waited + 1) * rate
  {
    BudgetIsTight(Spare(queued, WriteReserve(period, rate)), rate);
  }

  /** In automatic mode every queue of at least one period yields the same cutoff. */
  lemma AutomaticCutoffIgnoresQueue(observed: u64, queued: int, period: u32, rate: u32)
    requires rate > 0 && period <= queued
    ensures AutomaticHandoff(period, rate) < RANGE
    ensures Cutoff(observed, queued, period, rate, AutomaticHandoff(period, rate)) ==
            SaturatingAdd(observed, AutomaticHandoff(period, rate)) ==
            Cutoff(observed, period, period, rate, AutomaticHandoff(period, rate))
  {
    var reserve := WriteReserve(period, rate);
    var least := Spare(period, reserve) * SECOND;
    Quotient(least, rate);
    QuotientGrows(least, SaturatingMul(Spare(queued, reserve), SECOND), rate);
  }

  /** The bound of a deferred handoff keeps its reserve in the same way. */
  lemma HandoffKeepsReserve(captureRead: u64, started: u64, handoff: u64, delay: int, reserve: nat, rate: nat)
    requires rate > 0 && captureRead <= started
    ensures var waited := HandoffTarget(captureRead, started, handoff, delay, reserve, rate) - captureRead;
            0 <= waited && waited * rate <= Max(delay - reserve, 0) * SECOND
    ensures HandoffTarget(captureRead, started, handoff, delay, reserve, rate) - started <= handoff
  {
    var spare := Spare(delay, reserve);
    var waited := HandoffTarget(captureRead, started, handoff, delay, reserve, rate) - captureRead;
    BudgetIsTight(spare, rate);
    ProductGrows(rate, waited, Budget(spare, rate));
    assert rate * waited == waited * rate && rate * Budget(spare, rate) == Budget(spare, rate) * rate;
  }

  /** And it is cut off only there: a cycle that stops before its configured handoff
      could not have waited one nanosecond longer. */
  lemma HandoffIsLatest(captureRead: u64, started: u64, handoff: u64, delay: int, reserve: nat, rate: nat)
    requires rate > 0 && started + handoff < RANGE
    requires var spare := Max(delay - reserve, 0);
             spare * SECOND < RANGE && captureRead + Budget(spare, rate) < RANGE
    ensures var target := HandoffTarget(captureRead, started, handoff, delay, reserve, rate);
            target < started + handoff ==> Max(delay - reserve, 0) * SECOND < (target - captureRead + 1) * rate
  {
    BudgetIsTight(Spare(delay, reserve), rate);
  }

  /** The automatic handoff is the time it takes to play a period less the reserve,
      rounded down to a nanosecond. */
  lemma AutomaticHandoffIsLongest(period: u32, rate: u32)
    requires rate > 0
    ensures var spare := Max(period - WriteReserve(period, rate), 0);
            AutomaticHandoff(period, rate) * rate <= spare * SECOND < (AutomaticHandoff(period, rate) + 1) * rate
  {
    Quotient(Spare(period, WriteReserve(period, rate)) * SECOND, rate);
    var handoff := AutomaticHandoff(period, rate);
    assert (handoff + 1) * rate == handoff * rate + rate;
  }
}
