/** How the ALSA adapter labels queued playback periods. */
module PlaybackPlan {
  import opened Sequences

  /** The error codes the adapter answers ALSA with. */
  datatype Errno = EAgain | EBusy | EInvalid | EIo | EOverflow | EPipe | ENoDevice

  datatype Result<+T> = Ok(value: T) | Err(error: Errno)

  datatype SequencePlan = SequencePlan(sequence: u64, expiredPeriods: u64)

  function NewestSequence(observed: u64, sameCycle: bool): u64 {
    if sameCycle then observed else WrapAdd(observed, 1)
  }

  function LatestPublishable(observed: u64): u64 {
    WrapAdd(observed, 1)
  }

  function EarliestSequence(observed: u64, latency: u64, sameCycle: bool): u64 {
    if sameCycle then observed else WrapAdd(WrapSub(observed, latency), 1)
  }

  function PlanWithQueue(next: Option<u64>, observed: u64, latency: u64, sameCycle: bool, queuedPeriods: u64)
    : Result<SequencePlan>
  {
    var newest := NewestSequence(observed, sameCycle);
    var earliest := EarliestSequence(observed, latency, sameCycle);
    match next
    case Some(next) => (
      match SequenceOrder(next, earliest)
      case Some(Less) => Ok(SequencePlan(earliest, WrapSub(earliest, next)))
      case Some(_) => Ok(SequencePlan(next, 0))
      case None => Err(EPipe))
    case None =>
      var aligned := WrapSub(newest, SaturatingSub(queuedPeriods, 1));
      match SequenceOrder(aligned, earliest)
      case Some(Less) => Ok(SequencePlan(earliest, 0))
      case Some(_) => Ok(SequencePlan(aligned, 0))
      case None => Err(EPipe)
  }

  function ApplyProWatermark(plan: SequencePlan, minimum: u64): Result<SequencePlan> {
    match SequenceOrder(plan.sequence, minimum)
    case Some(Less) =>
      Ok(SequencePlan(minimum, SaturatingAdd(plan.expiredPeriods, WrapSub(minimum, plan.sequence))))
    case Some(_) => Ok(plan)
    case None => Err(EPipe)
  }

  /** Only past audio that was really discarded does the label move. */
  function RealignedSequence(earliest: u64, expiredPeriods: u64, discardedPeriods: u64): u64 {
    WrapSub(earliest, SaturatingSub(expiredPeriods, discardedPeriods))
  }

  function SequenceConsumed(submitted: u64, observed: u64, latency: u64, sameCycle: bool): Result<bool> {
    match SequenceOrder(observed, WrapAdd(submitted, if sameCycle then 1 else latency))
    case Some(Less) => Ok(false)
    case Some(_) => Ok(true)
    case None => Err(EPipe)
  }

  function ForwardDistance(origin: u64, current: u64): Option<u64> {
    match SequenceOrder(current, origin)
    case Some(Less) => None
    case Some(_) => Some(WrapSub(current, origin))
    case None => None
  }

  /** A label the daemon can still play: at most one past the observed cycle,
      and not consumed. */
  predicate Playable(sequence: u64, observed: u64, latency: u64, sameCycle: bool) {
    && (SequenceOrder(sequence, LatestPublishable(observed)) == Some(Less) ||
        SequenceOrder(sequence, LatestPublishable(observed)) == Some(Equal))
    && SequenceConsumed(sequence, observed, latency, sameCycle) == Ok(false)
  }

  /** What a plan without expiry lets through the publish test is playable; the
      latency is a 32-bit count of periods. */
  lemma PlannedIsPlayable(next: Option<u64>, observed: u64, latency: u64, sameCycle: bool, queuedPeriods: u64)
    requires latency < 0x1_0000_0000 && (sameCycle ==> latency == 0)
    ensures var plan := PlanWithQueue(next, observed, latency, sameCycle, queuedPeriods);
            plan.Ok? && plan.value.expiredPeriods == 0 &&
            (SequenceOrder(plan.value.sequence, LatestPublishable(observed)) == Some(Less) ||
             SequenceOrder(plan.value.sequence, LatestPublishable(observed)) == Some(Equal)) ==>
              Playable(plan.value.sequence, observed, latency, sameCycle)
  {
  }

  /** Conversely every playable label is one a plan keeps. */
  lemma PlayableIsKept(next: u64, observed: u64, latency: u64, sameCycle: bool, queuedPeriods: u64)
    requires latency < 0x1_0000_0000 && (sameCycle ==> latency == 0)
    requires Playable(next, observed, latency, sameCycle)
    ensures PlanWithQueue(Some(next), observed, latency, sameCycle, queuedPeriods) == Ok(SequencePlan(next, 0))
  {
  }

  /** Discarding `discarded` whole periods of expired audio moves the next label
      by exactly that many, however many labels have expired. */
  lemma RealignMovesByDiscarded(next: u64, observed: u64, latency: u64, queuedPeriods: u64)
    ensures var plan := PlanWithQueue(Some(next), observed, latency, false, queuedPeriods);
            plan.Ok? && plan.value.expiredPeriods > 0 ==>
              var discarded := Min(plan.value.expiredPeriods, queuedPeriods);
              RealignedSequence(plan.value.sequence, plan.value.expiredPeriods, discarded) == WrapAdd(next, discarded)
  {
  }

  /** An unlabelled queue is aligned so that its last period gets the newest
      label, except that no label is planned before the earliest playable one. */
  lemma AlignedToNewest(observed: u64, latency: u64, sameCycle: bool, queuedPeriods: u64)
    requires latency < 0x1_0000_0000 && 0 < queuedPeriods < HALF_RANGE && (sameCycle ==> latency == 0)
    ensures var plan := PlanWithQueue(None, observed, latency, sameCycle, queuedPeriods);
            var room := if sameCycle then 1 else latency + 1;
            && plan.Ok? && plan.value.expiredPeriods == 0
            && (queuedPeriods <= room ==>
                  WrapAdd(plan.value.sequence, queuedPeriods - 1) == NewestSequence(observed, sameCycle))
            && (queuedPeriods > room ==> plan.value.sequence == EarliestSequence(observed, latency, sameCycle))
  {
  }

  /** On ideal counts, a playable label is at most one ahead of the observed cycle, and
      not older than the client latency or, within the same cycle, than the cycle. */
  lemma PlayableOnCounts(sequence: int, observed: int, latency: u64, sameCycle: bool)
    requires latency < 0x1_0000_0000 && -HALF_RANGE + 1 < sequence - observed < HALF_RANGE - 0x1_0000_0000
    ensures SequenceConsumed(Wrap(sequence), Wrap(observed), latency, sameCycle) ==
            Ok(if sameCycle then sequence < observed else sequence + latency <= observed)
    ensures Playable(Wrap(sequence), Wrap(observed), latency, sameCycle) <==>
              if sameCycle then observed <= sequence <= observed + 1
              else observed < sequence + latency && sequence <= observed + 1
  {
    WrapShift(sequence, if sameCycle then 1 else latency);
    WrapShift(observed, 1);
    OrderOfNearCounts(observed, sequence + if sameCycle then 1 else latency);
    OrderOfNearCounts(sequence, observed + 1);
  }

  /** A shared plan moves a label up to the oldest one that is not consumed, and
      reports the labels passed over as expired. */
  lemma SharedPlanIsMaximum(next: int, observed: int, latency: u64, queuedPeriods: u64)
    requires -HALF_RANGE < next - (observed - latency + 1) < HALF_RANGE
    ensures var oldest := observed - latency + 1;
            PlanWithQueue(Some(Wrap(next)), Wrap(observed), latency, false, queuedPeriods) ==
            Ok(SequencePlan(Wrap(Max(next, oldest)), Max(oldest - next, 0)))
  {
    var oldest := observed - latency + 1;
    WrapShift(observed, latency);
    WrapShift(observed - latency, 1);
    OrderOfNearCounts(next, oldest);
    if next < oldest {
      WrapDifference(oldest, next);
    }
  }

  /** An unlabelled queue ends at the newest label, or starts at the oldest playable one. */
  lemma FreshPlanOnCounts(observed: int, latency: u64, sameCycle: bool, queuedPeriods: u64)
    requires latency < 0x1_0000_0000 && 0 < queuedPeriods < HALF_RANGE && (sameCycle ==> latency == 0)
    ensures PlanWithQueue(None, Wrap(observed), latency, sameCycle, queuedPeriods) ==
            Ok(SequencePlan(Wrap(if sameCycle then observed
                                 else Max(observed + 1 - (queuedPeriods - 1), observed - latency + 1)), 0))
  {
    WrapShift(observed, 1);
    WrapShift(observed, latency);
    WrapShift(observed - latency, 1);
    var newest := if sameCycle then observed else observed + 1;
    var earliest := if sameCycle then observed else observed - latency + 1;
    WrapShift(newest, queuedPeriods - 1);
    OrderOfNearCounts(newest - (queuedPeriods - 1), earliest);
  }

  /** The distance covered since `origin`; nothing when the count has gone back, or half
      the range apart, when the order does not tell. */
  lemma ForwardDistanceOnCounts(origin: int, current: int)
    requires -HALF_RANGE <= current - origin <= HALF_RANGE
    ensures ForwardDistance(Wrap(origin), Wrap(current)) ==
            if current < origin || current == origin + HALF_RANGE then None else Some(current - origin)
  {
    OrderOfNearCounts(current, origin);
    if origin <= current {
      WrapDifference(current, origin);
    }
  }

  /** A PRO plan moves a label to the latest of itself, the observed cycle and the
      watermark, and reports the whole distance as expired; counts are ideal, and
      near enough for the wrapping order to be theirs. */
  lemma ProPlanIsMaximum(next: int, observed: int, minimum: int, queuedPeriods: u64)
    requires -HALF_RANGE < next - observed < HALF_RANGE
    requires -HALF_RANGE < next - minimum < HALF_RANGE
    requires -HALF_RANGE < observed - minimum < HALF_RANGE
    ensures var plan := PlanWithQueue(Some(Wrap(next)), Wrap(observed), 0, true, queuedPeriods);
            var latest := Max(next, Max(observed, minimum));
            plan.Ok? && ApplyProWatermark(plan.value, Wrap(minimum)) == Ok(SequencePlan(Wrap(latest), latest - next))
  {
    OrderOfNearCounts(next, observed);
    OrderOfNearCounts(Max(next, observed), minimum);
    WrapDifference(Max(next, observed), next);
    WrapDifference(Max(next, Max(observed, minimum)), Max(next, observed));
  }
}
