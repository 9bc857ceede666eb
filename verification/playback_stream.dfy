/** The playback half of the ALSA adapter: a FIFO of frames cut into labelled
    periods, submitted to the daemon one by one. */
module PlaybackStream {
  import opened Sequences
  import opened PeriodMath
  import opened PlaybackPlan
  import opened PlaybackHistory

  const SILENCE: Frame := 0

  /** What the daemon and the clock answer during one pass of the flush loop. */
  datatype Cycle = Cycle(now: u64, wait: Result<u64>, watermark: u64, accepted: Result<bool>, activation: Option<u64>)

  datatype Pass = Again(progressed: bool) | Finished | Failed(error: Errno)

  /** `Unfinished`: the script of answers ended before the call returned. */
  datatype Flush = Flushed(progressed: bool) | FlushFailed(error: Errno) | Unfinished

  /** How a call of ALSA's ends; `Pending` when the script of answers ends first. */
  datatype Outcome = Done(frames: nat) | Refused(error: Errno) | Pending

  /** The plan for the front period: only a PRO stream heeds the watermark. */
  function PlanFront(next: Option<u64>, observed: u64, latency: u64, pro: bool, queued: u64, watermark: u64)
    : (r: Result<SequencePlan>)
    requires latency < 0x1_0000_0000 && (pro ==> latency == 0)
    ensures !pro ==> r == PlanWithQueue(next, observed, latency, pro, queued)
    ensures r.Ok? && r.value.expiredPeriods > 0 && !pro ==> next.Some?
    ensures r.Ok? && r.value.expiredPeriods == 0 && next.Some? ==> r.value.sequence == next.value
    ensures r.Ok? && r.value.expiredPeriods == 0 &&
            (SequenceOrder(r.value.sequence, LatestPublishable(observed)) == Some(Less) ||
             SequenceOrder(r.value.sequence, LatestPublishable(observed)) == Some(Equal)) ==>
              Playable(r.value.sequence, observed, latency, pro)
    ensures pro && r.Ok? ==> !IsBefore(r.value.sequence, watermark)
    ensures pro && r.Ok? && next.Some? ==> r.value.sequence == WrapAdd(next.value, r.value.expiredPeriods)
    ensures pro && r.Ok? && next.Some? ==>
              (r.value.expiredPeriods > 0 <==> IsBefore(next.value, observed) || IsBefore(next.value, watermark))
  {
    PlannedIsPlayable(next, observed, latency, pro, queued);
    var plan := PlanWithQueue(next, observed, latency, pro, queued);
    if plan.Ok? && pro then ApplyProWatermark(plan.value, watermark) else plan
  }

  /** What a plan in hand says, whatever it was made from. */
  lemma PlanMoves(next: Option<u64>, observed: u64, latency: u64, pro: bool, queued: u64, watermark: u64,
                  plan: SequencePlan)
    requires latency < 0x1_0000_0000 && (pro ==> latency == 0)
    requires PlanFront(next, observed, latency, pro, queued, watermark) == Ok(plan)
    ensures !pro ==> PlanWithQueue(next, observed, latency, pro, queued) == Ok(plan)
    ensures plan.expiredPeriods > 0 && !pro ==> next.Some?
    ensures plan.expiredPeriods == 0 && next.Some? ==> plan.sequence == next.value
    ensures pro && next.Some? ==> plan.sequence == WrapAdd(next.value, plan.expiredPeriods)
    ensures pro ==> !IsBefore(plan.sequence, watermark)
    ensures plan.expiredPeriods == 0 &&
            (SequenceOrder(plan.sequence, LatestPublishable(observed)) == Some(Less) ||
             SequenceOrder(plan.sequence, LatestPublishable(observed)) == Some(Equal)) ==>
              Playable(plan.sequence, observed, latency, pro)
  {
  }

  /** How a pass ends once it has planned the front period against `observed`. */
  predicate PassIs(pass: Pass, plan: SequencePlan, observed: u64, c: Cycle, pro: bool, fault: Option<Errno>) {
    if plan.expiredPeriods > 0 then pass == if pro then Failed(EPipe) else Again(true)
    else
      match SequenceOrder(plan.sequence, LatestPublishable(observed))
      case Some(Greater) => pass == Again(false)
      case None => pass == Failed(EPipe)
      case Some(_) =>
        if c.accepted.Err? then pass == Failed(c.accepted.error)
        else if !c.accepted.value then pass == Finished
        else if pro || fault.None? then pass == Again(true) else pass == Failed(fault.value)
  }

  /** The label of the last block sent since `before`, if one has been. */
  function LastSent(sent: seq<Sent>, before: seq<Sent>, last: Option<u64>): Option<u64> {
    if |sent| <= |before| then last else Some(sent[|sent| - 1].sequence)
  }

  /** What a flush may move. */
  datatype Flow = Flow(h: History, hidden: u64, running: bool, bufferFrames: nat, sent: seq<Sent>, position: u64,
                       fifoFrames: nat, next: Option<u64>, last: Option<u64>)

  /** Nothing queued is lost or relabelled: at most more periods have left the front
      of the FIFO. */
  ghost predicate KeptFrom(a: Flow, b: Flow, pro: bool, period: nat)
    requires period > 0
  {
    && Extends(a.h, b.h) && b.hidden == a.hidden && b.running == a.running
    && b.bufferFrames == a.bufferFrames && a.sent <= b.sent && (pro ==> b.position == a.position)
    && (Whole(a.fifoFrames, period) ==> Whole(b.fifoFrames, period))
    && (a.next.Some? ==> b.next.Some? && b.h.anchor == a.h.anchor)
    && b.last == LastSent(b.sent, a.sent, a.last)
  }

  lemma KeptTransitive(a: Flow, b: Flow, c: Flow, pro: bool, period: nat)
    requires period > 0 && KeptFrom(a, b, pro, period) && KeptFrom(b, c, pro, period)
    ensures KeptFrom(a, c, pro, period)
  {
    hide Whole;
  }

  lemma KeptSame(a: Flow, pro: bool, period: nat)
    requires period > 0
    ensures KeptFrom(a, a, pro, period)
  {
  }

  lemma KeptByTaking(a: Flow, b: Flow, block: Sent, pro: bool, period: nat)
    requires period > 0 && Extends(a.h, b.h) && b.h.anchor == a.h.anchor
    requires a.next == Some(block.sequence) && b.next.Some?
    requires b.hidden == a.hidden && b.running == a.running && b.bufferFrames == a.bufferFrames
    requires b.position == a.position && b.sent == a.sent + [block] && b.last == a.next
    requires Whole(a.fifoFrames, period) ==> Whole(b.fifoFrames, period)
    ensures KeptFrom(a, b, pro, period)
  {
    hide Extends, Whole;
  }

  lemma KeptExtends(a: Flow, b: Flow, pro: bool, period: nat)
    requires period > 0 && KeptFrom(a, b, pro, period)
    ensures a.h.taken <= b.h.taken && b.running == a.running && b.bufferFrames == a.bufferFrames
    ensures Whole(a.fifoFrames, period) ==> Whole(b.fifoFrames, period)
    ensures b.last == LastSent(b.sent, a.sent, a.last) && b.h.Accepted() == a.h.Accepted()
    ensures a.sent <= b.sent && (pro ==> b.position == a.position)
  {
  }

  /** Behind what was queued stand more frames; otherwise as `KeptFrom`. */
  ghost predicate GrewFrom(a: Flow, b: Flow, frames: seq<Frame>, pad: bool) {
    && GrewBy(a.h, b.h, frames, pad) && b.bufferFrames == a.bufferFrames && a.sent <= b.sent
    && b.hidden == (if pad then WrapAdd(a.hidden, |frames| % RANGE) else a.hidden)
    && (a.next.Some? ==> b.next.Some? && b.h.anchor == a.h.anchor)
  }

  lemma GrewNone(a: Flow, pad: bool)
    ensures GrewFrom(a, a, [], pad)
  {
    ExtendsIsGrewByNone(a.h, a.h, pad);
  }

  lemma GrewByQueue(a: Flow, b: Flow, frames: seq<Frame>, pad: bool)
    requires b.h == a.h.(stream := a.h.stream + frames, padding := a.h.padding + Repeat(pad, |frames|))
    requires b.bufferFrames == a.bufferFrames && b.sent == a.sent && b.next == a.next
    requires b.hidden == if pad then WrapAdd(a.hidden, |frames| % RANGE) else a.hidden
    ensures GrewFrom(a, b, frames, pad)
  {
  }

  lemma GrewTransitive(a: Flow, b: Flow, c: Flow, frames: seq<Frame>, more: seq<Frame>)
    requires GrewFrom(a, b, frames, false) && GrewFrom(b, c, more, false)
    ensures GrewFrom(a, c, frames + more, false)
  {
    GrewByTransitive(a.h, b.h, c.h, frames, more, false);
  }

  lemma GrewThenKept(a: Flow, b: Flow, c: Flow, frames: seq<Frame>, pad: bool, pro: bool, period: nat)
    requires GrewFrom(a, b, frames, pad) && period > 0 && KeptFrom(b, c, pro, period)
    ensures GrewFrom(a, c, frames, pad)
  {
    ExtendsIsGrewByNone(b.h, c.h, pad);
    GrewByTransitive(a.h, b.h, c.h, frames, [], pad);
    assert frames + [] == frames;
  }

  lemma RemaindersAdd(a: nat, b: nat)
    ensures (a + b) % RANGE == if a % RANGE + b % RANGE < RANGE then a % RANGE + b % RANGE
                               else a % RANGE + b % RANGE - RANGE
  {
    assert a == a / RANGE * RANGE + a % RANGE && b == b / RANGE * RANGE + b % RANGE;
  }

  lemma HiddenAdds(hidden: u64, pads: nat, more: nat)
    ensures WrapAdd(WrapAdd(hidden, pads % RANGE), more % RANGE) == WrapAdd(hidden, (pads + more) % RANGE)
  {
    RemaindersAdd(pads, more);
  }

  lemma PadsAdd(a: Flow, b: Flow, c: Flow, pads: nat, more: nat)
    requires GrewFrom(a, b, Repeat(SILENCE, pads), true) && GrewFrom(b, c, Repeat(SILENCE, more), true)
    ensures GrewFrom(a, c, Repeat(SILENCE, pads + more), true)
  {
    hide GrewBy, WrapAdd;
    HiddenAdds(a.hidden, pads, more);
    GrewByTransitive(a.h, b.h, c.h, Repeat(SILENCE, pads), Repeat(SILENCE, more), true);
    assert Repeat(SILENCE, pads) + Repeat(SILENCE, more) == Repeat(SILENCE, pads + more);
  }

  lemma NoneSent(sent: seq<Sent>, last: Option<u64>)
    ensures LastSent(sent, sent, last) == last
  {
  }

  lemma LastSentJoins(a: seq<Sent>, b: seq<Sent>, c: seq<Sent>, last: Option<u64>)
    requires a <= b <= c
    ensures LastSent(c, b, LastSent(b, a, last)) == LastSent(c, a, last)
  {
  }

  /** This answer brings a cycle, no earlier than the last one, in which the label can
      be played and its position told, and the daemon takes it. */
  predicate TakesLabel(c: Cycle, sequence: u64, last: Option<u64>, start: Option<u64>, period: nat, latency: u64,
                       pro: bool)
  {
    && c.wait == Ok(c.now) && c.accepted == Ok(true) && Playable(sequence, c.now, latency, pro)
    && (last.None? || c.now == last.value || IsAfter(c.now, last.value))
    && (if pro then sequence == c.watermark || IsAfter(sequence, c.watermark) else PositionOf(sequence, start, period))
  }

  /** A shared position can be told for a label. */
  predicate PositionOf(sequence: u64, start: Option<u64>, period: nat) {
    && start.Some? && SequenceOrder(sequence, start.value).Some?
    && (IsAfter(sequence, start.value) ==> Frames(WrapSub(sequence, start.value), period) < RANGE)
  }

  /** Why it cannot: there is no start, the order does not tell, or it does not fit. */
  function PositionFault(sequence: u64, start: Option<u64>, period: nat): (fault: Option<Errno>)
    ensures fault.None? <==> PositionOf(sequence, start, period)
  {
    if start.None? then Some(EIo)
    else if SequenceOrder(sequence, start.value).None? then Some(EPipe)
    else if IsAfter(sequence, start.value) && Frames(WrapSub(sequence, start.value), period) >= RANGE
    then Some(EOverflow)
    else None
  }

  /** From `at` on `count` answers each take the label that is then next. */
  predicate Accepting(script: seq<Cycle>, at: nat, count: nat, sequence: u64, last: Option<u64>, start: Option<u64>,
                      period: nat, latency: u64, pro: bool)
    decreases count
  {
    count == 0 ||
    (at < |script| && TakesLabel(script[at], sequence, last, start, period, latency, pro) &&
     Accepting(script, at + 1, count - 1, WrapAdd(sequence, 1), Some(script[at].now), start, period, latency, pro))
  }

  /** What a caller may be promised: `ready` answers take as many periods in a row, from
      `sequence` on and in a stream that began at `start`; an unlabelled queue of this many
      frames is planned to begin at `sequence`. */
  datatype Promise = Promise(ready: nat, sequence: u64, start: Option<u64>, queued: nat)

  /** What is still promised once `count` periods have been taken. */
  function After(p: Promise, count: nat): Promise {
    p.(ready := if count <= p.ready then p.ready - count else 0, sequence := Wrap(p.sequence + count))
  }

  lemma AfterOne(p: Promise)
    requires p.ready > 0
    ensures After(p, 1) == p.(ready := p.ready - 1, sequence := WrapAdd(p.sequence, 1))
  {
  }

  lemma AfterNone(p: Promise)
    ensures After(p, 0) == p
  {
  }

  lemma AfterMore(p: Promise, count: nat, more: nat)
    requires count + more <= p.ready
    ensures After(After(p, count), more) == After(p, count + more)
  {
    WrapMore(p.sequence + count, more);
  }

  lemma WrapMore(n: nat, more: nat)
    ensures Wrap(Wrap(n) + more) == Wrap(n + more)
  {
    assert n == n / RANGE * RANGE + n % RANGE;
  }

  lemma TakenAsPlanned(c: Cycle, sequence: u64, last: Option<u64>, start: Option<u64>, period: nat, latency: u64,
                       pro: bool, queued: u64)
    requires TakesLabel(c, sequence, last, start, period, latency, pro)
    requires latency < 0x1_0000_0000 && (pro ==> latency == 0)
    ensures PlanFront(Some(sequence), c.now, latency, pro, queued, c.watermark) == Ok(SequencePlan(sequence, 0))
  {
    PlayableIsKept(sequence, c.now, latency, pro, queued);
  }

  lemma TakenGoesOn(pass: Pass, c: Cycle, sequence: u64, last: Option<u64>, start: Option<u64>, period: nat,
                    latency: u64, pro: bool, fault: Option<Errno>)
    requires TakesLabel(c, sequence, last, start, period, latency, pro) && (pro || fault.None?)
    requires PassIs(pass, SequencePlan(sequence, 0), c.now, c, pro, fault)
    ensures pass == Again(true)
  {
  }

  lemma TakenIsUnconsumed(c: Cycle, sequence: u64, last: Option<u64>, start: Option<u64>, period: nat, latency: u64,
                          pro: bool)
    requires TakesLabel(c, sequence, last, start, period, latency, pro)
    ensures SequenceConsumed(sequence, c.now, latency, pro) == Ok(false)
  {
  }

  lemma LastOfWrap(sequence: u64, count: nat)
    ensures Wrap(sequence) == sequence && Wrap(WrapAdd(sequence, 1) + (count - 1) - 1) == Wrap(sequence + count - 1)
  {
  }

  /** The last of the labels taken has not been consumed in the cycle that took it. */
  lemma {:induction false} LastIsTaken(script: seq<Cycle>, at: nat, count: nat, sequence: u64, last: Option<u64>,
                                       start: Option<u64>, period: nat, latency: u64, pro: bool)
    requires count > 0 && Accepting(script, at, count, sequence, last, start, period, latency, pro)
    ensures at + count <= |script|
    ensures SequenceConsumed(Wrap(sequence + count - 1), script[at + count - 1].now, latency, pro) == Ok(false)
    decreases count
  {
    hide SequenceConsumed, TakesLabel, Wrap;
    TakenIsUnconsumed(script[at], sequence, last, start, period, latency, pro);
    LastOfWrap(sequence, count);
    if count > 1 {
      LastIsTaken(script, at + 1, count - 1, WrapAdd(sequence, 1), Some(script[at].now), start, period, latency, pro);
    }
  }

  /** The front of the FIFO: how much is queued, the next label and the last one sent. */
  datatype Front = Front(fifoFrames: nat, next: Option<u64>, last: Option<u64>)

  /** Between the two `count` periods have been sent, from this label on. */
  predicate Served(a: Front, b: Front, sequence: u64, count: nat, period: nat) {
    && b.next == (if count == 0 then a.next else Some(Wrap(sequence + count)))
    && b.last == (if count == 0 then a.last else Some(Wrap(sequence + count - 1)))
    && b.fifoFrames == a.fifoFrames - Frames(count, period)
  }

  lemma ServedNone(a: Front, sequence: u64, period: nat)
    ensures Served(a, a, sequence, 0, period)
  {
  }

  lemma ServedOneMore(a: Front, b: Front, c: Front, sequence: u64, count: nat, period: nat)
    requires Served(a, b, sequence, count, period) && Served(b, c, Wrap(sequence + count), 1, period)
    ensures Served(a, c, sequence, count + 1, period)
  {
    assert Frames(1, period) == Frames(0, period) + period;
    WrapMore(sequence + count, 1);
    WrapMore(sequence + count, 0);
  }

  lemma ServedLast(a: Front, b: Front, sequence: u64, count: nat, period: nat)
    requires Served(a, b, sequence, count, period)
    ensures if count == 0 then b.next == a.next && b.last == a.last
            else b.next == Some(Wrap(sequence + count)) && b.last == Some(Wrap(sequence + count - 1))
    ensures b.fifoFrames == a.fifoFrames - Frames(count, period)
  {
  }

  /** Whole periods are left just as long as fewer than all have been sent. */
  lemma ServedLeaves(a: Front, b: Front, sequence: u64, count: nat, period: nat)
    requires Served(a, b, sequence, count, period) && period > 0
    ensures period <= b.fifoFrames <==> count < Periods(a.fifoFrames, period)
    ensures count <= Periods(a.fifoFrames, period)
  {
    FramesFitWhenWhole(a.fifoFrames, period, count);
    FramesFitWhenWhole(a.fifoFrames, period, count + 1);
  }

  lemma GrewFromGrew(a: Flow, b: Flow, frames: seq<Frame>, pad: bool)
    requires GrewFrom(a, b, frames, pad)
    ensures GrewBy(a.h, b.h, frames, pad) && a.sent <= b.sent
  {
  }

  /** What is left to send are at most the periods of all there is less those sent. */
  lemma ServesMore(total: nat, now: nat, queued: nat, used: nat, period: nat)
    requires period > 0 && queued + Frames(used, period) == now <= total
    ensures used + Periods(queued, period) <= Periods(total, period)
  {
    PeriodsFit(queued, period);
    FramesAdd(used, Periods(queued, period), period);
    FramesFitWhenWhole(total, period, used + Periods(queued, period));
  }

  /** Whole periods go first; what is left is less than one, and padded to one if it is
      anything. */
  lemma PeriodsInTwo(frames: nat, period: nat)
    requires period > 0
    ensures var first := Periods(frames, period);
            && Frames(first, period) <= frames
            && Periods(Padded(frames, period), period) ==
               first + Periods(Padded(frames - Frames(first, period), period), period)
  {
    var first := Periods(frames, period);
    PeriodsFit(frames, period);
    WholeOfFrames(first, period);
    WholeOfFrames(first + 1, period);
    PaddedShort(frames - Frames(first, period), period);
  }

  /** Less than a period is padded to one. */
  lemma PaddedShort(frames: nat, period: nat)
    requires frames < period
    ensures Padded(frames, period) == (if frames == 0 then 0 else period)
    ensures Periods(0, period) == 0 && Periods(period, period) == 1
  {
  }

  lemma PaddedHasPeriod(frames: nat, period: nat)
    requires period > 0
    ensures 0 < frames ==> period <= Padded(frames, period)
  {
    if period <= frames {
      PaddedIsNextWhole(frames, period);
    }
  }

  lemma ConsumedFault(submitted: u64, observed: u64, latency: u64, sameCycle: bool)
    ensures var consumed := SequenceConsumed(submitted, observed, latency, sameCycle);
            consumed.Err? ==> consumed.error == EPipe
  {
  }

  lemma PaddedFits(frames: nat, buffer: nat, period: nat)
    requires period > 0 && frames <= buffer && Whole(buffer, period)
    ensures frames <= Padded(frames, period) <= buffer && Padded(frames, period) < frames + period
    ensures Whole(Padded(frames, period), period)
  {
    PaddedIsNextWhole(frames, period);
  }

  lemma HasPeriod(frames: nat, period: nat)
    requires period > 0
    ensures period <= frames <==> 0 < Periods(frames, period)
  {
  }

  /** One of these cycles was the current one or the one waited for. */
  predicate SeenIn(observed: u64, cycles: seq<Cycle>) {
    exists i :: 0 <= i < |cycles| && (cycles[i].now == observed || cycles[i].wait == Ok(observed))
  }

  /** Every period submitted since `from` was submitted against one of these cycles. */
  ghost predicate AllSeen(taken: seq<Period>, from: nat, cycles: seq<Cycle>) {
    forall k :: from <= k < |taken| && taken[k].submitted ==> SeenIn(taken[k].observed, cycles)
  }

  lemma SeenNow(observed: u64, c: Cycle)
    requires observed == c.now || c.wait == Ok(observed)
    ensures SeenIn(observed, [c])
  {
    assert [c][0] == c;
  }

  lemma AllSeenLater(before: seq<Period>, taken: seq<Period>, from: nat, cycles: seq<Cycle>)
    requires AllSeen(before, from, cycles) && (before <= taken || taken == []) && AllSeen(taken, |before|, cycles)
    ensures AllSeen(taken, from, cycles)
  {
  }

  lemma SeenInMore(taken: seq<Period>, from: nat, cycles: seq<Cycle>, at: nat)
    requires at < |cycles| && AllSeen(taken, from, [cycles[at]])
    ensures AllSeen(taken, from, cycles)
  {
    forall k | from <= k < |taken| && taken[k].submitted ensures SeenIn(taken[k].observed, cycles) {
      var c := cycles[at];
      var i :| 0 <= i < |[c]| && ([c][i].now == taken[k].observed || [c][i].wait == Ok(taken[k].observed));
      assert cycles[at].now == taken[k].observed || cycles[at].wait == Ok(taken[k].observed);
    }
  }

  lemma NothingSeen(from: nat, cycles: seq<Cycle>)
    ensures AllSeen([], from, cycles)
  {
  }

  lemma NoneSeen(taken: seq<Period>, cycles: seq<Cycle>)
    ensures AllSeen(taken, |taken|, cycles)
  {
  }

  class Stream {
    const pro: bool
    const period: nat
    const latency: u64
    const fifo: array<Frame>
    var bufferFrames: nat
    var fifoFrames: nat
    /** Leading FIFO frames that a rewind may not remove. */
    var lockedFrames: nat
    var next: Option<u64>
    var cycle: Option<u64>
    var lastObserved: Option<u64>
    var lastSubmitted: Option<u64>
    var startSequence: Option<u64>
    var origin: Option<u64>
    var position: u64
    var hiddenFrames: u64
    var running: bool
    /** Everything handed to the daemon. */
    var sent: seq<Sent>
    /** What became of everything queued. */
    ghost var h: History

    ghost predicate FifoValid()
      reads `fifoFrames, `bufferFrames, `lockedFrames, `h, fifo
    {
      && 0 < period < RANGE && lockedFrames <= fifoFrames <= bufferFrames <= fifo.Length < RANGE &&
         Whole(bufferFrames, period)
      && latency < 0x1_0000_0000 && (pro ==> latency == 0)
      && FifoAgrees(h, fifo[..fifoFrames], lockedFrames)
    }

    ghost predicate Valid()
      reads `fifoFrames, `bufferFrames, `lockedFrames, `h, `next, `sent, `hiddenFrames, `running, `position, `origin,
            fifo
    {
      && FifoValid() && LabelsAgree(h, next, period, latency, pro) && SentAgrees(h, sent)
      && CleanAgrees(h, next, period, pro, hiddenFrames, running, position, origin)
    }

    constructor (pro: bool, period: nat, bufferFrames: nat, latency: u64)
      requires 0 < period < RANGE && bufferFrames < RANGE && Whole(bufferFrames, period)
      requires latency < 0x1_0000_0000 && (pro ==> latency == 0)
      ensures Valid() && h == Cleared([], true) && sent == [] && fifoFrames == 0 && !running && next == None &&
              fresh(fifo)
      ensures this.pro == pro && this.period == period && this.latency == latency && this.bufferFrames == bufferFrames
      ensures fifo.Length == bufferFrames && position == hiddenFrames == 0
      ensures cycle == lastObserved == lastSubmitted == startSequence == origin == None
    {
      this.pro, this.period, this.latency := pro, period, latency;
      fifo := new Frame[bufferFrames](_ => SILENCE);
      this.bufferFrames := bufferFrames;
      fifoFrames, lockedFrames := 0, 0;
      next, cycle, lastObserved, lastSubmitted := None, None, None, None;
      startSequence, origin := None, None;
      position, hiddenFrames, running := 0, 0, false;
      sent, h := [], Cleared([], true);
    }

    // ------------------------------------------------------------ FIFO storage

    /** Copies frames behind the queued ones. */
    method AppendFrames(frames: seq<Frame>)
      requires fifoFrames + |frames| <= fifo.Length
      modifies fifo, `fifoFrames
      ensures fifoFrames == old(fifoFrames) + |frames|
      ensures fifo[..fifoFrames] == old(fifo[..fifoFrames]) + frames
    {
      for i := 0 to |frames|
        modifies fifo
        invariant fifo[..fifoFrames] == old(fifo[..fifoFrames])
        invariant fifo[fifoFrames..fifoFrames + i] == frames[..i]
      {
        fifo[fifoFrames + i] := frames[i];
      }
      assert fifo[..fifoFrames + |frames|] == fifo[..fifoFrames] + fifo[fifoFrames..fifoFrames + |frames|];
      fifoFrames := fifoFrames + |frames|;
    }

    /** Moves the tail of the FIFO to its front, in place. */
    method DropFront(frames: nat)
      requires frames <= fifoFrames <= fifo.Length
      modifies fifo, `fifoFrames, `lockedFrames
      ensures fifoFrames == old(fifoFrames) - frames
      ensures fifo[..fifoFrames] == old(fifo[..fifoFrames])[frames..]
      ensures lockedFrames == if frames <= old(lockedFrames) then old(lockedFrames) - frames else 0
    {
      var remaining := fifoFrames - frames;
      for i := 0 to remaining
        modifies fifo
        invariant fifo[..i] == old(fifo[frames..frames + i])
        invariant forall j :: i <= j < fifo.Length ==> fifo[j] == old(fifo[j])
      {
        fifo[i] := fifo[frames + i];
      }
      assert old(fifo[..fifoFrames])[frames..] == old(fifo[frames..fifoFrames]);
      fifoFrames := remaining;
      lockedFrames := if frames <= lockedFrames then lockedFrames - frames else 0;
    }

    // -------------------------------------------------------------- submission

    ghost function Now(): Flow
      reads `h, `hiddenFrames, `running, `bufferFrames, `sent, `position, `fifoFrames, `next, `lastSubmitted
    {
      Flow(h, hiddenFrames, running, bufferFrames, sent, position, fifoFrames, next, lastSubmitted)
    }

    ghost function Line(): Front
      reads `fifoFrames, `next, `lastSubmitted
    {
      Front(fifoFrames, next, lastSubmitted)
    }

    twostate predicate Kept()
      requires period > 0
      reads `h, `hiddenFrames, `running, `bufferFrames, `sent, `position, `fifoFrames, `next, `lastSubmitted
    {
      KeptFrom(old(Now()), Now(), pro, period)
    }

    /** And no period has left it either. */
    twostate predicate Untouched()
      requires period > 0
      reads this
    {
      && Kept() && h == old(h) && fifoFrames == old(fifoFrames) && next == old(next)
      && sent == old(sent) && lastSubmitted == old(lastSubmitted)
    }

    method ForgetCycles()
      modifies `cycle, `lastObserved, `lastSubmitted
      ensures cycle == lastObserved == lastSubmitted == None
    {
      cycle, lastObserved, lastSubmitted := None, None, None;
    }

    method ClearFifo()
      requires FifoValid()
      modifies this
      ensures Valid() && h == Cleared(sent, false) && next == None && sent == old(sent)
      ensures running == old(running) && bufferFrames == old(bufferFrames) && fifoFrames == 0
      ensures cycle == lastObserved == lastSubmitted == None && startSequence == old(startSequence)
      ensures position == old(position) && hiddenFrames == old(hiddenFrames) && origin == old(origin)
    {
      hide FifoAgrees, LabelsAgree, SentAgrees, CleanAgrees;
      ClearedAgrees(sent, false, period, latency, pro, running, position);
      UncleanAgrees(Cleared(sent, false), None, period, pro, hiddenFrames, running, position, origin);
      assert fifo[..0] == [];
      ForgetCycles();
      fifoFrames, lockedFrames, next, h := 0, 0, None, Cleared(sent, false);
    }

    /** Observing this cycle does not run backward. */
    predicate Accepts(sequence: u64)
      reads `lastObserved
    {
      lastObserved.None? || sequence == lastObserved.value || IsAfter(sequence, lastObserved.value)
    }

    /** The last observed cycle is still current and the next label publishable in it. */
    predicate Reuses(now: u64)
      reads `cycle, `next
    {
      && cycle.Some? && next.Some? && now == cycle.value
      && (next.value == LatestPublishable(now) || IsBefore(next.value, LatestPublishable(now)))
    }

    /** The clock has run backward, or the order does not tell. */
    predicate Confused(now: u64)
      reads `cycle, `next
    {
      && cycle.Some? && next.Some?
      && (if now == cycle.value then SequenceOrder(next.value, LatestPublishable(now)).None?
          else !IsAfter(now, cycle.value))
    }

    /** The cycle that a pass plans against, if it gets to planning. */
    function Planned(c: Cycle): Option<u64>
      reads `cycle, `next, `lastObserved
    {
      if Confused(c.now) then None
      else if Reuses(c.now) then Some(c.now)
      else if c.wait.Ok? && Accepts(c.wait.value) then Some(c.wait.value)
      else None
    }

    /** There is no cycle at hand, and the answer brings an error instead of one. */
    predicate FailsFirst(script: seq<Cycle>, at: nat, nonblock: bool)
      reads `cycle
    {
      && cycle.None? && at < |script| && script[at].wait.Err?
      && !(nonblock && script[at].wait == Err(EAgain))
    }

    /** A shared position can be told for this label. */
    predicate Positioned(sequence: u64, activation: Option<u64>)
      reads `startSequence
    {
      PositionOf(sequence, if startSequence.Some? then startSequence else activation, period)
    }

    /** Why it cannot. */
    function Fault(sequence: u64, activation: Option<u64>): (fault: Option<Errno>)
      reads `startSequence
      ensures fault.None? <==> Positioned(sequence, activation)
    {
      PositionFault(sequence, if startSequence.Some? then startSequence else activation, period)
    }

    /** An unlabelled queue of this many frames is planned to begin at `sequence`. */
    predicate Opens(c: Cycle, sequence: u64, queued: nat) {
      && 0 < period && queued < RANGE && latency < 0x1_0000_0000 && (pro ==> latency == 0)
      && PlanFront(None, c.now, latency, pro, Periods(queued, period), c.watermark) == Ok(SequencePlan(sequence, 0))
    }

    /** The stream begins at `start`, or will once this answer has shown a cycle. */
    predicate Begins(known: Option<u64>, c: Cycle, start: Option<u64>)
      reads `cycle, `next
    {
      pro || known == start || (known.None? && (cycle.None? || next.None?) && c.activation == start)
    }

    /** The next answer takes the front period under the promised label. */
    predicate TakesNow(c: Cycle, p: Promise)
      reads `cycle, `next, `lastObserved, `startSequence, `fifoFrames
    {
      && (cycle.None? || cycle == lastObserved)
      && (next == Some(p.sequence) || (next.None? && Opens(c, p.sequence, fifoFrames)))
      && Begins(startSequence, c, p.start)
      && TakesLabel(c, p.sequence, lastObserved, if pro then None else p.start, period, latency, pro)
    }

    /** From `at` on the answers keep the promise, with the start known by then. */
    predicate Expects(known: Option<u64>, script: seq<Cycle>, at: nat, p: Promise)
      reads `cycle, `next, `lastObserved
    {
      && (cycle.None? || cycle == lastObserved) && (next.None? || next == Some(p.sequence))
      && (p.ready > 0 ==>
            && at < |script| && (next.Some? || Opens(script[at], p.sequence, p.queued))
            && Begins(known, script[at], p.start)
            && Accepting(script, at, p.ready, p.sequence, lastObserved, if pro then None else p.start, period, latency,
                         pro))
    }

    lemma PlansNow(c: Cycle, p: Promise)
      requires TakesNow(c, p) && latency < 0x1_0000_0000 && (pro ==> latency == 0)
      ensures Planned(c) == Some(c.now) && (!pro ==> Positioned(p.sequence, c.activation))
      ensures !pro ==> p.start.Some? && (startSequence == p.start || (!Reuses(c.now) && c.activation == p.start))
    {
    }

    /** May the last observed cycle be used again, without waiting for another? */
    method ReuseObserved(now: u64) returns (reuse: Result<bool>)
      requires Valid()
      modifies this
      ensures Valid()
      ensures reuse.Ok? ==> Untouched() && cycle == old(cycle)
      ensures reuse == Ok(true) <==> old(Reuses(now))
      ensures reuse.Err? <==> old(Confused(now))
      ensures reuse.Ok? ==> startSequence == old(startSequence) && lastObserved == old(lastObserved)
      ensures reuse.Err? ==> reuse.error == EPipe && h == Cleared(sent, false)
      ensures running == old(running)
    {
      if cycle.None? || next.None? {
        return Ok(false);
      }
      match SequenceOrder(now, cycle.value) {
        case Some(Equal) =>
          match SequenceOrder(next.value, LatestPublishable(cycle.value)) {
            case Some(Greater) => return Ok(false);
            case Some(_) => return Ok(true);
            case None =>
          }
        case Some(Greater) => return Ok(false);
        case _ =>
      }
      ClearFifo();
      return Err(EPipe);
    }

    /** The cycle clock of one stream never runs backward. */
    method Observe(sequence: u64) returns (observed: Result<()>)
      requires Valid()
      modifies this
      ensures Valid()
      ensures observed.Ok? ==> Untouched() && cycle == Some(sequence) && lastObserved == Some(sequence)
      ensures observed.Ok? ==> lastSubmitted == old(lastSubmitted)
      ensures observed.Ok? <==> old(Accepts(sequence))
      ensures startSequence == old(startSequence)
      ensures observed.Err? ==> observed == Err(EPipe) && h == Cleared(sent, false)
      ensures running == old(running)
    {
      if lastObserved.Some? {
        match SequenceOrder(sequence, lastObserved.value) {
          case Some(Equal) =>
          case Some(Greater) =>
          case _ =>
            ClearFifo();
            return Err(EPipe);
        }
      }
      lastObserved, cycle := Some(sequence), Some(sequence);
      return Ok(());
    }

    /** Discards expired audio and moves the next label past exactly what was
        discarded; a partial tail goes too once every whole period has expired. */
    method RealignFront(plan: SequencePlan, observed: u64)
      requires Valid() && !pro && period <= fifoFrames && plan.expiredPeriods > 0 && next.Some?
      requires PlanWithQueue(next, observed, latency, pro, Periods(fifoFrames, period)) == Ok(plan)
      modifies this, fifo
      ensures Valid() && Kept() && cycle == old(cycle) && sent == old(sent)
      ensures fifoFrames == old(fifoFrames) - DroppedFrames(old(fifoFrames), plan.expiredPeriods, period)
      ensures fifoFrames < old(fifoFrames)
      ensures |h.taken| == |old(h).taken| + Min(plan.expiredPeriods, Periods(old(fifoFrames), period))
      ensures forall k :: |old(h).taken| <= k < |h.taken| ==>
                !h.taken[k].submitted && (h.taken[k].tail > 0 ==> k == |h.taken| - 1 && fifoFrames == 0)
    {
      ghost var after := Realign(h, fifo[..fifoFrames], lockedFrames, next.value, period, latency, sent, observed,
                                 plan);
      var discarded := Min(plan.expiredPeriods, Periods(fifoFrames, period));
      var frames := DroppedFrames(fifoFrames, plan.expiredPeriods, period);
      DropFrontAgrees(h, fifo[..fifoFrames], lockedFrames, frames, after);
      DroppedFromWhole(fifoFrames, plan.expiredPeriods, period);
      DropFront(frames);
      next := Some(RealignedSequence(plan.sequence, plan.expiredPeriods, discarded));
      h := after;
    }

    /** A PRO expiry is an XRUN: the expired audio is dropped, and what follows
        starts a new run of labels. */
    method DropExpired(plan: SequencePlan)
      requires Valid() && pro && period <= fifoFrames && plan.expiredPeriods > 0
      requires next.Some? ==> plan.sequence == WrapAdd(next.value, plan.expiredPeriods)
      modifies this, fifo
      ensures Valid() && !h.clean && next == Some(plan.sequence) && sent == old(sent) && h.taken == []
      ensures fifoFrames == old(fifoFrames) - DroppedFrames(old(fifoFrames), plan.expiredPeriods, period)
      ensures running == old(running) && bufferFrames == old(bufferFrames)
      ensures h.bounded ==
              (old(h).bounded && KeepsBound(origin, plan.expiredPeriods, old(fifoFrames), period))
      ensures h.stream == old(h).stream && h.padding == old(h).padding && hiddenFrames == old(hiddenFrames)
    {
      hide DroppedFrames, FifoAgrees, LabelsAgree, SentAgrees, CleanAgrees, KeepsBound, WrapAdd, Whole;
      var frames := DroppedFrames(fifoFrames, plan.expiredPeriods, period);
      ghost var queued := fifo[..fifoFrames];
      ghost var after := StartOver(h, queued, lockedFrames, next, plan.expiredPeriods, plan.sequence, period, sent,
                                   hiddenFrames, running, position, origin);
      DropFront(frames);
      next := Some(plan.sequence);
      h := after;
    }

    /** The front period has been accepted by the daemon under `sequence`. */
    method TakeSubmitted(sequence: u64, observed: u64)
      requires Valid() && period <= fifoFrames && next == Some(sequence)
      requires Playable(sequence, observed, latency, pro)
      modifies this, fifo
      ensures Valid() && Kept() && fifoFrames == old(fifoFrames) - period
      ensures h.taken == old(h).taken +
              [Period(sequence, true, observed, old(h).head, old(fifo[..fifoFrames])[..period], 0)]
      ensures sent == old(sent) + [Sent(sequence, old(fifo[..fifoFrames])[..period])]
      ensures next == Some(WrapAdd(sequence, 1)) && lastSubmitted == Some(sequence)
      ensures startSequence == old(startSequence) && cycle == old(cycle) && lastObserved == old(lastObserved)
    {
      hide FifoAgrees, LabelsAgree, SentAgrees, CleanAgrees, Playable, Whole, WrapAdd, KeptFrom, Extends, CountPadding;
      hide History.Accepted, Frames;
      WholeLessOne(fifoFrames, period);
      ghost var before, queued := Now(), fifo[..fifoFrames];
      ghost var after := Submit(h, queued, lockedFrames, sequence, period, latency, pro, sent, observed);
      DropFrontAgrees(h, queued, lockedFrames, period, after);
      SubmitKeepsClean(h, after, period, pro, hiddenFrames, running, position, origin, sequence);
      SendFront(sequence);
      h := after;
      KeptByTaking(before, Now(), Sent(sequence, queued[..period]), pro, period);
    }

    /** The front period goes to the daemon under its label. */
    method SendFront(sequence: u64)
      requires period <= fifoFrames <= fifo.Length
      modifies fifo, `fifoFrames, `lockedFrames, `sent, `origin, `next, `lastSubmitted
      ensures fifoFrames == old(fifoFrames) - period && fifo[..fifoFrames] == old(fifo[..fifoFrames])[period..]
      ensures lockedFrames == if period <= old(lockedFrames) then old(lockedFrames) - period else 0
      ensures sent == old(sent) + [Sent(sequence, old(fifo[..fifoFrames])[..period])]
      ensures origin == if pro && old(origin).None? then Some(sequence) else old(origin)
      ensures next == Some(WrapAdd(sequence, 1)) && lastSubmitted == Some(sequence)
    {
      assert fifo[..period] == fifo[..fifoFrames][..period];
      sent := sent + [Sent(sequence, fifo[..period])];
      DropFront(period);
      if pro && origin.None? {
        origin := Some(sequence);
      }
      next, lastSubmitted := Some(WrapAdd(sequence, 1)), Some(sequence);
    }

    method UpdatePosition(sequence: u64, activation: Option<u64>) returns (updated: Result<()>)
      requires Valid() && !pro
      modifies this`position
      ensures Valid()
      ensures var start := if startSequence.Some? then startSequence else activation;
              updated.Ok? ==>
                && start.Some?
                && position ==
                   if IsAfter(sequence, start.value) then Frames(WrapSub(sequence, start.value), period) else 0
      ensures updated.Err? ==> position == old(position)
      ensures updated.Ok? <==> Positioned(sequence, activation)
      ensures updated.Err? ==> Fault(sequence, activation) == Some(updated.error)
    {
      var start := if startSequence.Some? then startSequence else activation;
      if start.None? {
        return Err(EIo);
      }
      var elapsed: u64 := 0;
      match SequenceOrder(sequence, start.value) {
        case Some(Greater) => elapsed := WrapSub(sequence, start.value);
        case Some(_) =>
        case None => return Err(EPipe);
      }
      if Frames(elapsed, period) >= RANGE {
        return Err(EOverflow);
      }
      position := Frames(elapsed, period);
      return Ok(());
    }

    /** The next label: kept while there is one, otherwise the first of a new run. */
    method AssignLabel(sequence: u64)
      requires Valid() && (next.Some? ==> next.value == sequence)
      modifies `next, `h
      ensures Valid() && Kept() && next == Some(sequence) && h == old(h).(anchor := h.anchor)
    {
      if next.None? {
        h := h.(anchor := sequence);
      }
      next := Some(sequence);
    }

    /** The cycle to plan against, or the way the pass ends without one. */
    method ObservedCycle(c: Cycle, nonblock: bool) returns (observed: u64, end: Option<Pass>)
      requires Valid()
      modifies this
      ensures Valid()
      ensures end == None || end == Some(Finished) || (end.Some? && end.value.Failed?)
      ensures (end.Some? && end.value.Failed? && h == Cleared(sent, false)) || Untouched()
      ensures running == old(running)
      ensures end == None <==> old(Planned(c)).Some?
      ensures end == None ==> observed == old(Planned(c)).value && (observed == c.now || c.wait == Ok(observed))
      ensures end == None ==>
                forall sequence :: Fault(sequence, c.activation) == old(Fault(sequence, c.activation))
      ensures end == None ==>
                && cycle == Some(observed)
                && startSequence == (if old(startSequence).Some? || old(Reuses(c.now)) then old(startSequence)
                                     else c.activation)
                && lastObserved == if old(Reuses(c.now)) then old(lastObserved) else Some(observed)
      ensures end == Some(Finished) ==> cycle == old(cycle)
      ensures end == Some(Finished) <==>
                nonblock && c.wait == Err(EAgain) && !old(Confused(c.now)) && !old(Reuses(c.now))
      ensures end.Some? && end.value.Failed? ==>
                end.value.error == if c.wait.Err? && !old(Confused(c.now)) then c.wait.error else EPipe
    {
      observed := 0;
      var reuse := ReuseObserved(c.now);
      if reuse.Err? {
        return 0, Some(Failed(reuse.error));
      }
      if reuse.value {
        return cycle.value, None;
      }
      if c.wait.Err? {
        return 0, Some(if c.wait.error == EAgain && nonblock then Finished else Failed(c.wait.error));
      }
      if startSequence.None? {
        startSequence := c.activation;
      }
      var seen := Observe(c.wait.value);
      if seen.Err? {
        return 0, Some(Failed(seen.error));
      }
      return c.wait.value, None;
    }

    method SubmitFront(c: Cycle, sequence: u64, observed: u64) returns (pass: Pass)
      requires Valid() && period <= fifoFrames && next == Some(sequence) && Playable(sequence, observed, latency, pro)
      modifies this, fifo
      ensures Valid() && Kept()
      ensures pass == Again(true) ==> fifoFrames == old(fifoFrames) - period
      ensures |h.taken| == |old(h).taken| ||
              (|h.taken| == |old(h).taken| + 1 && h.taken[|h.taken| - 1].observed == observed)
      ensures pass == Again(true) ==> sent == old(sent) + [Sent(sequence, old(fifo[..fifoFrames])[..period])]
      ensures pass == Finished ==>
                && fifoFrames == old(fifoFrames) && h == old(h) && sent == old(sent) && next == old(next)
                && cycle == None
      ensures pass != Again(false)
      ensures pass == Again(true) ==>
                && startSequence == old(startSequence) && cycle == old(cycle) && lastObserved == old(lastObserved)
                && lastSubmitted == Some(sequence)
      ensures pass == Finished <==> c.accepted == Ok(false)
      ensures c.accepted.Err? ==> pass == Failed(c.accepted.error)
      ensures c.accepted == Ok(true) ==>
                pass == if pro || old(Fault(sequence, c.activation)).None? then Again(true)
                        else Failed(old(Fault(sequence, c.activation)).value)
      ensures pass == Again(true) ==>
                c.accepted == Ok(true) && next == Some(WrapAdd(sequence, 1)) && sequence == WrapSub(next.value, 1)
    {
      hide FifoAgrees, LabelsAgree, SentAgrees, CleanAgrees, Playable;
      if c.accepted.Err? {
        return Failed(c.accepted.error);
      }
      if !c.accepted.value {
        cycle := None;
        return Finished;
      }
      TakeSubmitted(sequence, observed);
      if !pro {
        var updated := UpdatePosition(sequence, c.activation);
        if updated.Err? {
          return Failed(updated.error);
        }
      }
      return Again(true);
    }

    /** Discards what has expired; for a PRO stream that is an error. */
    method ExpireFront(c: Cycle, observed: u64, plan: SequencePlan) returns (pass: Pass)
      requires Valid() && period <= fifoFrames && plan.expiredPeriods > 0
      requires PlanFront(next, observed, latency, pro, Periods(fifoFrames, period), c.watermark) == Ok(plan)
      modifies this, fifo
      ensures Valid() && running == old(running) && sent == old(sent)
      ensures Kept() || (pro && !h.clean && h.taken == [])
      ensures AllSeen(h.taken, |old(h).taken|, [c])
      ensures pass == if pro then Failed(EPipe) else Again(true)
      ensures !pro ==> fifoFrames < old(fifoFrames)
      ensures pro ==>
                h.bounded == (old(h).bounded && KeepsBound(origin, plan.expiredPeriods, old(fifoFrames), period))
    {
      hide Valid, Playable, LastSent, PlanFront, SequenceOrder, PlanWithQueue, KeptFrom, KeepsBound;
      hide WrapAdd, SeenIn, Frames, Whole;
      FitsBuffer();
      PlanMoves(next, observed, latency, pro, Periods(fifoFrames, period), c.watermark, plan);
      if pro {
        DropExpired(plan);
        return Failed(EPipe);
      }
      ghost var begun := Now();
      RealignFront(plan, observed);
      KeptExtends(begun, Now(), pro, period);
      return Again(true);
    }

    /** Discards what has expired, or labels the front period and submits it. */
    method ActOnPlan(c: Cycle, observed: u64, plan: SequencePlan) returns (pass: Pass)
      requires Valid() && period <= fifoFrames && SeenIn(observed, [c])
      requires PlanFront(next, observed, latency, pro, Periods(fifoFrames, period), c.watermark) == Ok(plan)
      modifies this, fifo
      ensures Valid() && running == old(running)
      ensures Kept() || (pass.Failed? && !h.clean && h.taken == [])
      ensures AllSeen(h.taken, |old(h).taken|, [c])
      ensures pass == Again(true) ==> fifoFrames < old(fifoFrames)
      ensures pass == Again(false) || pass == Finished ==> fifoFrames == old(fifoFrames) && h.taken == old(h).taken
      ensures pass == Again(true) && plan.expiredPeriods == 0 ==>
                && startSequence == old(startSequence) && cycle == old(cycle) && lastObserved == old(lastObserved)
                && next == Some(WrapAdd(plan.sequence, 1)) && lastSubmitted == Some(plan.sequence)
                && fifoFrames == old(fifoFrames) - period && sent != old(sent)
      ensures pass == Again(false) || pass == Finished ==> next == Some(plan.sequence) && cycle == None
      ensures plan.expiredPeriods == 0 && SequenceOrder(plan.sequence, LatestPublishable(observed)).None? ==>
                h == Cleared(sent, false) && next == None
      ensures pro && plan.expiredPeriods > 0 ==>
                && pass == Failed(EPipe)
                && h.bounded == (old(h).bounded && KeepsBound(origin, plan.expiredPeriods, old(fifoFrames), period))
      ensures pass == Again(true) ==>
                if sent == old(sent) then !pro && plan.expiredPeriods > 0
                else c.accepted == Ok(true) && next.Some? && plan.expiredPeriods == 0 &&
                     sent == old(sent) + [Sent(WrapSub(next.value, 1), old(fifo[..fifoFrames])[..period])] &&
                     (pro ==> !IsBefore(WrapSub(next.value, 1), c.watermark))
      ensures PassIs(pass, plan, observed, c, pro, old(Fault(plan.sequence, c.activation)))
      ensures pass == Again(false) ==> next.Some? && IsAfter(next.value, LatestPublishable(observed))
      ensures pass == Finished ==> c.accepted == Ok(false)
    {
      hide Valid, Playable, LastSent, PlanFront, SequenceOrder, PlanWithQueue, KeptFrom, KeepsBound;
      hide LatestPublishable, WrapAdd, WrapSub, SeenIn, Fault, PositionFault, PositionOf;
      FitsBuffer();
      NoneSeen(h.taken, [c]);
      PlanMoves(next, observed, latency, pro, Periods(fifoFrames, period), c.watermark, plan);
      ghost var begun := Now();
      if plan.expiredPeriods > 0 {
        pass := ExpireFront(c, observed, plan);
        return;
      }
      AssignLabel(plan.sequence);
      ghost var middle := Now();
      match SequenceOrder(plan.sequence, LatestPublishable(observed)) {
        case Some(Greater) =>
          cycle := None;
          return Again(false);
        case Some(_) =>
          pass := SubmitFront(c, plan.sequence, observed);
          KeptTransitive(begun, middle, Now(), pro, period);
          KeptExtends(begun, Now(), pro, period);
        case None =>
          ClearFifo();
          return Failed(EPipe);
      }
    }

    /** One pass of the flush loop over the period at the front of the FIFO. */
    method FlushPass(c: Cycle, nonblock: bool, ghost p: Promise) returns (pass: Pass)
      requires Valid() && period <= fifoFrames
      modifies this, fifo
      ensures Valid()
      ensures Kept() || (pass.Failed? && !h.clean && h.taken == [])
      ensures AllSeen(h.taken, |old(h).taken|, [c])
      ensures running == old(running)
      ensures pass == Again(true) ==> fifoFrames < old(fifoFrames)
      ensures pass == Again(false) || pass == Finished ==> fifoFrames == old(fifoFrames) && h.taken == old(h).taken
      ensures pass == Again(false) ==> cycle == None
      ensures pass == Finished ==> cycle == None || cycle == old(cycle)
      // How it ends, for every cycle and answer.
      ensures old(Planned(c)).None? ==>
                pass == if old(Confused(c.now)) || c.wait.Ok? then Failed(EPipe)
                        else if nonblock && c.wait == Err(EAgain) then Finished
                        else Failed(c.wait.error)
      ensures old(Planned(c)).Some? ==>
                var observed := old(Planned(c)).value;
                match PlanFront(old(next), observed, latency, pro, Periods(old(fifoFrames), period), c.watermark)
                case Err(error) => pass == Failed(error)
                case Ok(plan) =>
                  && PassIs(pass, plan, observed, c, pro, old(Fault(plan.sequence, c.activation)))
                  && (pass == Again(true) && plan.expiredPeriods == 0 ==> next == Some(WrapAdd(plan.sequence, 1)))
                  && (pass == Again(false) || pass == Finished ==> next == Some(plan.sequence))
                  && (pro && plan.expiredPeriods > 0 ==>
                        h.bounded ==
                        (old(h).bounded && KeepsBound(origin, plan.expiredPeriods, old(fifoFrames), period)))
      ensures old(TakesNow(c, p)) ==>
                && pass == Again(true) && fifoFrames == old(fifoFrames) - period
                && next == Some(WrapAdd(p.sequence, 1)) && lastSubmitted == Some(p.sequence)
                && cycle == lastObserved == Some(c.now) && (pro || startSequence == p.start)
      ensures pass == Finished && c.wait == Err(EAgain) && old(cycle).None? ==> cycle == None
      // It goes on after a submission or, if shared, an expiry ...
      ensures pass == Again(true) ==>
                if sent == old(sent) then !pro
                else c.accepted == Ok(true) && next.Some? &&
                     sent == old(sent) + [Sent(WrapSub(next.value, 1), old(fifo[..fifoFrames])[..period])] &&
                     (pro ==> !IsBefore(WrapSub(next.value, 1), c.watermark))
      // A PRO label that the watermark has passed is never submitted: that is an error.
      ensures pro && old(next).Some? && IsBefore(old(next).value, c.watermark) ==>
                pass.Failed? || (pass == Finished && nonblock && c.wait == Err(EAgain))
      // ... or to wait for a cycle that the front period may be published in, ...
      ensures pass == Again(false) ==>
                next.Some? && (IsAfter(next.value, LatestPublishable(c.now)) ||
                               (c.wait.Ok? && IsAfter(next.value, LatestPublishable(c.wait.value))))
      // ... and ends because there is no cycle yet or the daemon took nothing.
      ensures pass == Finished ==> c.accepted == Ok(false) || (nonblock && c.wait == Err(EAgain))
    {
      hide Valid, LastSent, PlanFront, AllSeen, SeenIn, LatestPublishable, IsAfter, IsBefore, WrapSub, KeptFrom;
      hide TakesLabel, PassIs, PositionOf, KeepsBound;
      FitsBuffer();
      NoneSeen(h.taken, [c]);
      NothingSeen(|h.taken|, [c]);
      ghost var begun := Now();
      KeptSame(begun, pro, period);
      ghost var takes, last, start := TakesNow(c, p), lastObserved, if pro then None else p.start;
      if takes {
        PlansNow(c, p);
      }
      var observed, end := ObservedCycle(c, nonblock);
      if end.Some? {
        return end.value;
      }
      SeenNow(observed, c);
      FitsBuffer();
      ghost var middle := Now();
      var planned := PlanFront(next, observed, latency, pro, Periods(fifoFrames, period), c.watermark);
      if takes {
        TakenAsPlanned(c, p.sequence, last, start, period, latency, pro, Periods(fifoFrames, period));
      }
      if planned.Err? {
        return Failed(planned.error);
      }
      ghost var fault := Fault(planned.value.sequence, c.activation);
      pass := ActOnPlan(c, observed, planned.value);
      if takes {
        TakenGoesOn(pass, c, p.sequence, last, start, period, latency, pro, fault);
      }
      if KeptFrom(middle, Now(), pro, period) {
        KeptTransitive(begun, middle, Now(), pro, period);
      }
    }

    /** The promise stands here; an unlabelled queue is the one it speaks of. */
    predicate TakesOne(script: seq<Cycle>, at: nat, p: Promise)
      reads `cycle, `next, `lastObserved, `startSequence, `fifoFrames
    {
      Expects(startSequence, script, at, p) && p.ready > 0 && (next.None? ==> p.queued == fifoFrames)
    }

    lemma ExpectsNow(script: seq<Cycle>, at: nat, p: Promise)
      requires TakesOne(script, at, p)
      ensures at < |script| && TakesNow(script[at], p)
      ensures Accepting(script, at + 1, p.ready - 1, WrapAdd(p.sequence, 1), Some(script[at].now),
                        if pro then None else p.start, period, latency, pro)
    {
    }

    lemma HasNext(script: seq<Cycle>, at: nat, p: Promise)
      requires Expects(startSequence, script, at, p)
      ensures p.ready > 0 ==> at < |script|
    {
    }

    /** One pass, on one answer of a script. */
    method FlushOnce(script: seq<Cycle>, at: nat, nonblock: bool, ghost p: Promise) returns (pass: Pass)
      requires Valid() && period <= fifoFrames && at < |script|
      modifies this, fifo
      ensures Valid() && running == old(running)
      ensures Kept() || (pass.Failed? && !h.clean && h.taken == [])
      ensures AllSeen(h.taken, |old(h).taken|, script)
      ensures pass == Again(true) ==> fifoFrames < old(fifoFrames)
      ensures pass == Again(false) || pass == Finished ==> fifoFrames == old(fifoFrames) && h.taken == old(h).taken
      ensures pass == Finished ==> script[at].accepted == Ok(false) || (nonblock && script[at].wait == Err(EAgain))
      ensures nonblock && old(cycle).None? && script[at].wait == Err(EAgain) ==> pass == Finished && cycle.None?
      ensures old(FailsFirst(script, at, nonblock)) ==> pass == Failed(script[at].wait.error)
      ensures old(TakesOne(script, at, p)) ==>
                && pass == Again(true) && Expects(startSequence, script, at + 1, After(p, 1))
                && Served(old(Line()), Line(), p.sequence, 1, period) && cycle == lastObserved == Some(script[at].now)
    {
      hide Valid, KeptFrom, AllSeen, PassIs, PlanFront, TakesLabel, IsAfter, IsBefore, LatestPublishable, After;
      ghost var expects := TakesOne(script, at, p);
      if expects {
        ExpectsNow(script, at, p);
        AfterOne(p);
      }
      pass := FlushPass(script[at], nonblock, p);
      SeenInMore(h.taken, |old(h).taken|, script, at);
      assert expects ==> Frames(1, period) == Frames(0, period) + period;
    }

    /** There are enough accepting answers for all that is queued. */
    predicate SendsAll(script: seq<Cycle>, at: nat, p: Promise)
      requires period > 0
      reads `fifoFrames, `cycle, `next, `lastObserved, `startSequence
    {
      && Expects(startSequence, script, at, p) && Periods(fifoFrames, period) <= p.ready
      && (next.None? ==> p.queued == fifoFrames)
    }

    lemma SendsAllMeans(script: seq<Cycle>, at: nat, p: Promise)
      requires period > 0
      ensures SendsAll(script, at, p) <==>
                && Expects(startSequence, script, at, p) && Periods(fifoFrames, period) <= p.ready
                && (next.None? ==> p.queued == fifoFrames)
    {
    }

    /** The promise has been kept for `count` periods. */
    ghost predicate Sending(begun: Front, script: seq<Cycle>, at: nat, count: nat, p: Promise)
      requires period > 0
      reads `fifoFrames, `cycle, `next, `lastObserved, `startSequence, `lastSubmitted
    {
      && count <= Periods(begun.fifoFrames, period) <= p.ready && (begun.next.None? ==> p.queued == begun.fifoFrames)
      && Expects(startSequence, script, at + count, After(p, count)) && at + count <= |script|
      && Served(begun, Line(), p.sequence, count, period)
      && (count > 0 ==> cycle == lastObserved == Some(script[at + count - 1].now))
    }

    lemma StartsSending(script: seq<Cycle>, at: nat, p: Promise)
      requires period > 0 && SendsAll(script, at, p) && at <= |script|
      ensures Sending(Line(), script, at, 0, p)
    {
      AfterNone(p);
    }

    /** As long as periods are left the promise speaks of the next one. */
    lemma TakesNext(begun: Front, script: seq<Cycle>, at: nat, count: nat, p: Promise)
      requires period > 0 && Sending(begun, script, at, count, p)
      ensures if period <= fifoFrames then at + count < |script| && TakesOne(script, at + count, After(p, count))
              else count == Periods(begun.fifoFrames, period)
    {
      hide Expects, Periods;
      ServedLeaves(begun, Line(), p.sequence, count, period);
      if period <= fifoFrames {
        HasNext(script, at + count, After(p, count));
      }
    }

    lemma StaysSending(begun: Front, middle: Front, script: seq<Cycle>, at: nat, count: nat, p: Promise)
      requires period > 0 && count < Periods(begun.fifoFrames, period) <= p.ready && at + count < |script|
      requires Served(begun, middle, p.sequence, count, period)
      requires Served(middle, Line(), After(p, count).sequence, 1, period)
      requires begun.next.None? ==> p.queued == begun.fifoFrames
      requires Expects(startSequence, script, at + count + 1, After(After(p, count), 1))
      requires cycle == lastObserved == Some(script[at + count].now)
      ensures Sending(begun, script, at, count + 1, p)
    {
      hide Expects, Periods;
      AfterMore(p, count, 1);
      ServedOneMore(begun, middle, Line(), p.sequence, count, period);
    }

    lemma SendingMeans(begun: Front, script: seq<Cycle>, at: nat, count: nat, p: Promise)
      requires period > 0 && Sending(begun, script, at, count, p)
      ensures Served(begun, Line(), p.sequence, count, period) && (begun.next.None? ==> p.queued == begun.fifoFrames)
      ensures Expects(startSequence, script, at + count, After(p, count)) && at + count <= |script|
      ensures count <= Periods(begun.fifoFrames, period) <= p.ready
      ensures count > 0 ==> cycle == lastObserved == Some(script[at + count - 1].now)
      ensures period <= fifoFrames ==> count < Periods(begun.fifoFrames, period)
    {
      hide Expects, Periods;
      ServedLeaves(begun, Line(), p.sequence, count, period);
    }

    /** Submits every whole period the daemon takes now; `now` is where the script of
        answers then stands. */
    method FlushBlocks(script: seq<Cycle>, at: nat, nonblock: bool, ghost p: Promise) returns (result: Flush, now: nat)
      requires Valid() && at <= |script|
      modifies this, fifo
      ensures Valid() && running == old(running) && at <= now <= |script|
      ensures Kept() || (result.FlushFailed? && !h.clean && h.taken == [])
      ensures AllSeen(h.taken, |old(h).taken|, script)
      ensures result.FlushFailed? ==> period <= old(fifoFrames) && at < now
      ensures result.Unfinished? ==> period <= fifoFrames && period <= old(fifoFrames) && now == |script|
      ensures result == Flushed(true) ==> fifoFrames < old(fifoFrames) && at < now
      ensures result == Flushed(false) ==> fifoFrames == old(fifoFrames) && h.taken == old(h).taken
      ensures result.Flushed? ==> if period <= old(fifoFrames) then at < now else at == now
      // It leaves a whole period only because there is no cycle yet or the daemon took nothing.
      ensures result.Flushed? && period <= fifoFrames ==>
                at < now && (script[now - 1].accepted == Ok(false) || (nonblock && script[now - 1].wait == Err(EAgain)))
      ensures at == |script| && period <= old(fifoFrames) ==> result == Unfinished
      ensures old(FailsFirst(script, at, nonblock)) && period <= old(fifoFrames) ==>
                result == FlushFailed(script[at].wait.error)
      // Without a cycle it ends at once; with enough accepting answers it sends everything.
      ensures nonblock && old(cycle).None? && at < |script| && script[at].wait == Err(EAgain) ==>
                result == Flushed(false) && cycle.None? && now <= at + 1
      ensures old(SendsAll(script, at, p)) ==>
                var used := Periods(old(fifoFrames), period);
                && used <= p.ready && result == Flushed(used > 0) && now == at + used && fifoFrames < period
                && Served(old(Line()), Line(), p.sequence, used, period)
                && Expects(startSequence, script, now, After(p, used))
                && (used > 0 ==> cycle == lastObserved == Some(script[now - 1].now))
    {
      hide SendsAll, Valid, KeptFrom, AllSeen, Expects, Served, Periods, TakesOne, After, Sending;
      FitsBuffer();
      NoneSeen(h.taken, script);
      ghost var begun := Now();
      KeptSame(begun, pro, period);
      var progressed := false;
      now := at;
      ghost var expects, front := SendsAll(script, at, p), Line();
      if expects {
        StartsSending(script, at, p);
        SendingMeans(front, script, at, 0, p);
      }
      while period <= fifoFrames
        invariant Valid() && running == old(running) && at <= now <= |script|
        invariant KeptFrom(begun, Now(), pro, period) && AllSeen(h.taken, |begun.h.taken|, script)
        invariant at < now ==> period <= begun.fifoFrames
        invariant if progressed then fifoFrames < begun.fifoFrames && at < now
                  else fifoFrames == begun.fifoFrames && h.taken == begun.h.taken
        invariant if at == now then cycle == old(cycle)
                  else !(old(cycle).None? && script[at].wait.Err?)
        invariant expects ==> Sending(front, script, at, now - at, p) && progressed == (at < now)
        decreases |script| - now
      {
        if expects {
          TakesNext(front, script, at, now - at, p);
          SendingMeans(front, script, at, now - at, p);
        }
        if now == |script| {
          return Unfinished, now;
        }
        ghost var before, line := Now(), Line();
        var pass := FlushOnce(script, now, nonblock, After(p, now - at));
        if KeptFrom(before, Now(), pro, period) {
          KeptTransitive(begun, before, Now(), pro, period);
          KeptExtends(before, Now(), pro, period);
        }
        AllSeenLater(before.h.taken, h.taken, |begun.h.taken|, script);
        if expects {
          StaysSending(front, line, script, at, now - at, p);
        }
        now := now + 1;
        match pass {
          case Again(progress) => progressed := progressed || progress;
          case Finished => return Flushed(progressed), now;
          case Failed(error) => return FlushFailed(error), now;
        }
      }
      if expects {
        TakesNext(front, script, at, now - at, p);
        SendingMeans(front, script, at, now - at, p);
      }
      return Flushed(progressed), now;
    }

    // ------------------------------------------------------------- ALSA's calls

    twostate predicate Grew(frames: seq<Frame>, pad: bool)
      reads `h, `hiddenFrames, `running, `bufferFrames, `sent, `position, `fifoFrames, `next, `lastSubmitted
    {
      GrewFrom(old(Now()), Now(), frames, pad)
    }

    lemma FitsBuffer()
      requires Valid()
      ensures 0 < period && fifoFrames <= bufferFrames <= fifo.Length < RANGE
      ensures latency < 0x1_0000_0000 && (pro ==> latency == 0)
    {
    }

    method Enqueue(frames: seq<Frame>)
      requires Valid() && fifoFrames + |frames| <= bufferFrames
      modifies this, fifo
      ensures Valid() && Grew(frames, false) && running == old(running) && position == old(position)
      ensures fifoFrames == old(fifoFrames) + |frames| && lockedFrames == old(lockedFrames)
      ensures h.Accepted() == old(h).Accepted() + |frames| && next == old(next) && h.taken == old(h).taken
      ensures cycle == old(cycle) && lastObserved == old(lastObserved) && startSequence == old(startSequence)
    {
      hide FifoAgrees, LabelsAgree, CleanAgrees;
      ghost var after := Queue(h, fifo[..fifoFrames], lockedFrames, frames, false, lockedFrames);
      LabelsOfLonger(h, after, next, period, latency, pro);
      CleanOfQueued(h, after, next, period, pro, hiddenFrames, running, position, origin, 0);
      AppendFrames(frames);
      h := after;
    }

    /** Queues silence that no rewind may remove, and hides it from the pointer. */
    method EnqueueSilence(pads: nat)
      requires Valid() && 0 < pads < RANGE && fifoFrames + pads <= bufferFrames
      modifies this, fifo
      ensures Valid() && Grew(Repeat(SILENCE, pads), true) && fifoFrames == old(fifoFrames) + pads == lockedFrames
      ensures running == old(running) && position == old(position) && next == old(next)
      ensures lastSubmitted == old(lastSubmitted) && sent == old(sent)
      ensures h.Accepted() == old(h).Accepted() && h.taken == old(h).taken
      ensures cycle == old(cycle) && lastObserved == old(lastObserved) && startSequence == old(startSequence)
    {
      hide FifoAgrees, LabelsAgree, SentAgrees, CleanAgrees, CountPadding, GrewFrom;
      var silence := Repeat(SILENCE, pads);
      ghost var before, locked := Now(), fifoFrames + pads;
      ghost var after := Queue(h, fifo[..fifoFrames], lockedFrames, silence, true, locked);
      LabelsOfLonger(h, after, next, period, latency, pro);
      SentOfLonger(h, after, sent);
      CleanOfQueued(h, after, next, period, pro, hiddenFrames, running, position, origin, pads);
      AppendFrames(silence);
      hiddenFrames := WrapAdd(hiddenFrames, pads);
      lockedFrames := fifoFrames;
      h := after;
      GrewByQueue(before, Now(), silence, true);
    }

    /** Fills the last period with silence; there is always room for it. */
    method PadPeriod() returns (padded: Result<()>)
      requires Valid()
      modifies this, fifo
      ensures Valid() && padded == Ok(())
      ensures exists pads: nat :: pads < period && Grew(Repeat(SILENCE, pads), true)
      ensures running == old(running) && position == old(position) && next == old(next)
      ensures lastSubmitted == old(lastSubmitted) && sent == old(sent)
      ensures fifoFrames == Padded(old(fifoFrames), period) && Whole(fifoFrames, period)
      ensures fifoFrames > old(fifoFrames) ==> lockedFrames == fifoFrames
      ensures h.Accepted() == old(h).Accepted() && h.taken == old(h).taken
      ensures cycle == old(cycle) && lastObserved == old(lastObserved) && startSequence == old(startSequence)
    {
      hide FifoAgrees, LabelsAgree, SentAgrees, CleanAgrees, Padded, GrewFrom, History.Accepted;
      PaddedFits(fifoFrames, bufferFrames, period);
      GrewNone(Now(), true);
      assert Repeat(SILENCE, 0) == [];
      var pads := Padded(fifoFrames, period) - fifoFrames;
      if fifoFrames + pads > fifo.Length {
        return Err(EOverflow);
      }
      if pads > 0 {
        EnqueueSilence(pads);
      }
      assert Grew(Repeat(SILENCE, pads), true);
      return Ok(());
    }

    lemma BufferHasPeriod()
      requires Valid()
      ensures 0 < bufferFrames ==> period <= bufferFrames
    {
    }

    /** Queues as many of the frames as there is room for. */
    method CopyIn(frames: seq<Frame>, consumed: nat, ghost begun: Flow) returns (now: nat)
      requires Valid() && consumed < |frames| && fifoFrames < bufferFrames
      requires GrewFrom(begun, Now(), frames[..consumed], false)
      modifies this, fifo
      ensures now == consumed + Min(old(bufferFrames - fifoFrames), |frames| - consumed)
      ensures Valid() && running == old(running) && GrewFrom(begun, Now(), frames[..now], false)
      ensures fifoFrames == old(fifoFrames) + now - consumed && bufferFrames == old(bufferFrames) && next == old(next)
      ensures h.taken == old(h).taken && h.Accepted() == old(h).Accepted() + now - consumed
      ensures cycle == old(cycle) && lastObserved == old(lastObserved) && startSequence == old(startSequence)
    {
      hide Valid, GrewBy;
      var chunk := Min(bufferFrames - fifoFrames, |frames| - consumed);
      ghost var before := Now();
      Enqueue(frames[consumed..consumed + chunk]);
      GrewTransitive(begun, before, Now(), frames[..consumed], frames[consumed..consumed + chunk]);
      assert frames[..consumed] + frames[consumed..consumed + chunk] == frames[..consumed + chunk];
      return consumed + chunk;
    }

    /** There are enough accepting answers for all that is queued and this many frames more. */
    predicate TakesAll(frames: nat, script: seq<Cycle>, p: Promise)
      requires period > 0 && fifoFrames <= bufferFrames
      reads `fifoFrames, `bufferFrames, `cycle, `next, `lastObserved, `startSequence
    {
      && Expects(startSequence, script, 0, p) && Periods(fifoFrames + frames, period) <= p.ready && 0 < bufferFrames
      && (next.None? ==> p.queued == fifoFrames + Min(bufferFrames - fifoFrames, frames))
    }

    /** The next answers bring no cycle, and none is at hand. */
    predicate NoCycleYet(script: seq<Cycle>, nonblock: bool)
      reads `cycle
    {
      && nonblock && cycle.None? && |script| >= 2
      && script[0].wait == Err(EAgain) && script[1].wait == Err(EAgain)
    }

    /** A write of `frames` frames behind `first` others has taken `consumed` of them, and
        `used` answers have each taken a period. */
    predicate OnTrack(frames: nat, consumed: nat, first: nat, script: seq<Cycle>, used: nat, p: Promise)
      requires period > 0
      reads `fifoFrames, `bufferFrames, `cycle, `next, `lastObserved, `startSequence
    {
      && Expects(startSequence, script, used, After(p, used)) && Periods(first + frames, period) <= p.ready
      && fifoFrames <= bufferFrames && 0 < bufferFrames && consumed <= frames && used <= p.ready
      && (consumed > 0 ==> fifoFrames < period) && fifoFrames + Frames(used, period) == first + consumed
      && (next.None? ==> p.queued == fifoFrames + Min(bufferFrames - fifoFrames, frames - consumed))
    }

    lemma StartsOnTrack(frames: nat, script: seq<Cycle>, p: Promise)
      requires period > 0 && fifoFrames <= bufferFrames && TakesAll(frames, script, p)
      ensures OnTrack(frames, 0, fifoFrames, script, 0, p)
    {
      AfterNone(p);
    }

    lemma RoundOnTrack(frames: nat, consumed: nat, first: nat, script: seq<Cycle>, used: nat, p: Promise)
      requires period > 0 && OnTrack(frames, consumed, first, script, used, p)
      ensures consumed <= frames && fifoFrames <= bufferFrames && Expects(startSequence, script, used, After(p, used))
      ensures var round := fifoFrames + Min(bufferFrames - fifoFrames, frames - consumed);
              Periods(round, period) <= After(p, used).ready && (next.None? ==> p.queued == round)
      ensures fifoFrames + Frames(used, period) == first + consumed && (consumed > 0 ==> fifoFrames < period)
      ensures used <= p.ready && After(p, used).ready == p.ready - used && After(p, used).queued == p.queued
      ensures Periods(first + frames, period) <= p.ready && 0 < bufferFrames
    {
      hide Expects, Periods;
      var more := Min(bufferFrames - fifoFrames, frames - consumed);
      ServesMore(first + frames, first + consumed + more, fifoFrames + more, used, period);
    }

    lemma StaysOnTrack(frames: nat, total: nat, first: nat, script: seq<Cycle>, used: nat, more: nat, p: Promise,
                       fifoBefore: nat, consumed: nat)
      requires period > 0 && used + more <= p.ready && 0 < bufferFrames && consumed <= total <= frames
      requires Expects(startSequence, script, used + more, After(After(p, used), more))
      requires fifoFrames <= bufferFrames && fifoFrames < period && Periods(first + frames, period) <= p.ready
      requires fifoBefore + Frames(used, period) == first + consumed
      requires fifoFrames + Frames(more, period) == fifoBefore + total - consumed
      requires next.None? ==> fifoFrames == p.queued && total == frames
      ensures OnTrack(frames, total, first, script, used + more, p)
    {
      hide Expects, Periods, After;
      AfterMore(p, used, more);
      FramesAdd(used, more, period);
    }

    lemma NoCycleMeans(script: seq<Cycle>, nonblock: bool)
      requires NoCycleYet(script, nonblock)
      ensures nonblock && cycle.None? && |script| >= 2 && script[0].wait == script[1].wait == Err(EAgain)
    {
    }

    /** Copies what fits; on track, the whole periods that are then queued are expected. */
    method CopyRound(frames: seq<Frame>, consumed: nat, script: seq<Cycle>, at: nat, ghost p: Promise,
                     ghost begun: Flow) returns (total: nat, full: bool)
      requires Valid() && consumed < |frames| && GrewFrom(begun, Now(), frames[..consumed], false)
      modifies this, fifo
      ensures Valid() && running == old(running) && full == old(fifoFrames == bufferFrames)
      ensures total == consumed + Min(old(bufferFrames - fifoFrames), |frames| - consumed)
      ensures GrewFrom(begun, Now(), frames[..total], false)
      ensures fifoFrames == old(fifoFrames) + total - consumed && bufferFrames == old(bufferFrames)
      ensures h.taken == old(h).taken && h.Accepted() == old(h).Accepted() + total - consumed
      ensures cycle == old(cycle)
      ensures old(OnTrack(|frames|, consumed, begun.fifoFrames, script, at, p)) ==>
                && SendsAll(script, at, After(p, at)) && (full ==> 0 < Periods(fifoFrames, period))
                && (next.None? && Periods(fifoFrames, period) == 0 ==> fifoFrames == p.queued && total == |frames|)
    {
      hide Valid, GrewFrom, AllSeen, Expects, Periods, After, SendsAll, OnTrack;
      FitsBuffer();
      ghost var track := OnTrack(|frames|, consumed, begun.fifoFrames, script, at, p);
      if track {
        RoundOnTrack(|frames|, consumed, begun.fifoFrames, script, at, p);
        BufferHasPeriod();
      }
      full := fifoFrames == bufferFrames;
      total := consumed;
      if !full {
        total := CopyIn(frames, consumed, begun);
      }
      if track {
        SendsAllMeans(script, at, After(p, at));
        HasPeriod(fifoFrames, period);
      }
    }

    /** One round of a write: copies what fits and submits what it can; it waits for a
        cycle only while the FIFO was full. */
    method WriteRound(frames: seq<Frame>, consumed: nat, nonblock: bool, script: seq<Cycle>, at: nat, ghost p: Promise,
                      ghost begun: Flow) returns (total: nat, full: bool, flush: Flush, now: nat)
      requires Valid() && consumed < |frames| && at <= |script| && GrewFrom(begun, Now(), frames[..consumed], false)
      modifies this, fifo
      ensures Valid() && running == old(running) && at <= now <= |script|
      ensures full == old(fifoFrames == bufferFrames)
      ensures total == consumed + Min(old(bufferFrames - fifoFrames), |frames| - consumed)
      ensures (GrewFrom(begun, Now(), frames[..total], false) && bufferFrames == old(bufferFrames) &&
               h.Accepted() == old(h).Accepted() + total - consumed && old(h).taken <= h.taken) ||
              (flush.FlushFailed? && !h.clean && h.taken == [])
      ensures AllSeen(h.taken, |old(h).taken|, script)
      ensures flush.Unfinished? ==> now == |script| && period <= fifoFrames
      ensures flush == Flushed(true) ==> at < now
      ensures old(FailsFirst(script, at, if fifoFrames == bufferFrames then nonblock else nonblock || pro)) &&
              period <= old(fifoFrames) + total - consumed ==>
                flush == FlushFailed(script[at].wait.error)
      ensures old(OnTrack(|frames|, consumed, begun.fifoFrames, script, at, p)) ==>
                && flush.Flushed? && (full ==> flush.progressed) && fifoFrames < period
                && OnTrack(|frames|, total, begun.fifoFrames, script, now, p)
      ensures nonblock && old(cycle).None? && at < |script| && script[at].wait == Err(EAgain) ==>
                && flush == Flushed(false) && cycle.None? && now <= at + 1
                && fifoFrames == old(fifoFrames) + total - consumed
    {
      hide Valid, GrewFrom, KeptFrom, AllSeen, Expects, Served, Periods, After, SendsAll, OnTrack, Frames;
      FitsBuffer();
      ghost var track, fifoBefore := OnTrack(|frames|, consumed, begun.fifoFrames, script, at, p), fifoFrames;
      if track {
        RoundOnTrack(|frames|, consumed, begun.fifoFrames, script, at, p);
      }
      total, full := CopyRound(frames, consumed, script, at, p, begun);
      ghost var before, front := Now(), Line();
      flush, now := FlushBlocks(script, at, if full then nonblock else nonblock || pro, After(p, at));
      if KeptFrom(before, Now(), pro, period) {
        GrewThenKept(begun, before, Now(), frames[..total], false, pro, period);
        KeptExtends(before, Now(), pro, period);
      }
      if track {
        ServedLast(front, Line(), After(p, at).sequence, now - at, period);
        StaysOnTrack(|frames|, total, begun.fifoFrames, script, at, now - at, p, fifoBefore, consumed);
      }
    }

    /** A write to a running stream: copies what fits, submits what it can, and
        waits only while the FIFO is full. `used` counts the answers it took. */
    method Write(frames: seq<Frame>, nonblock: bool, script: seq<Cycle>, ghost p: Promise)
      returns (outcome: Outcome, used: nat, ghost queued: nat)
      requires Valid()
      modifies this, fifo
      ensures Valid() && queued <= |frames| && used <= |script|
      ensures Grew(frames[..queued], false) || (outcome.Refused? && !h.clean && h.taken == [])
      ensures AllSeen(h.taken, |old(h).taken|, script)
      ensures outcome.Done? ==> 0 < outcome.frames == queued && running == old(running)
      ensures outcome.Done? ==> h.Accepted() == old(h).Accepted() + queued
      ensures outcome.Pending? ==> used == |script| && period <= fifoFrames
      ensures frames == [] ==> outcome == Refused(EInvalid) && unchanged(this)
      ensures old(FailsFirst(script, 0, if fifoFrames == bufferFrames then nonblock else nonblock || pro)) &&
              frames != [] && period <= old(fifoFrames) + Min(old(bufferFrames - fifoFrames), |frames|) ==>
                outcome == Refused(script[0].wait.error)
      // With enough accepting answers it takes everything, without a cycle all there is room for.
      ensures old(TakesAll(|frames|, script, p)) && frames != [] ==>
                outcome == Done(|frames|) && fifoFrames < period
      ensures old(NoCycleYet(script, nonblock)) && frames != [] ==>
                var room := Min(old(bufferFrames - fifoFrames), |frames|);
                outcome == if room == 0 then Refused(EAgain) else Done(room)
    {
      hide TakesAll, NoCycleYet, Valid, GrewFrom, AllSeen, LastSent, Expects, Periods, Whole, Frames, History.Accepted;
      hide After, OnTrack, FailsFirst, SeenIn;
      FitsBuffer();
      NoneSeen(h.taken, script);
      GrewNone(Now(), false);
      queued, used := 0, 0;
      assert frames[..0] == [];
      if frames == [] {
        return Refused(EInvalid), used, 0;
      }
      ghost var begun, room := Now(), Min(bufferFrames - fifoFrames, |frames|);
      ghost var expects, silent := TakesAll(|frames|, script, p), NoCycleYet(script, nonblock);
      if expects {
        StartsOnTrack(|frames|, script, p);
      }
      if silent {
        NoCycleMeans(script, nonblock);
      }
      ghost var waits := if fifoFrames == bufferFrames then nonblock else nonblock || pro;
      ghost var fails := FailsFirst(script, 0, waits) && period <= fifoFrames + room;
      var consumed: nat := 0;
      while consumed < |frames|
        invariant Valid() && consumed <= |frames| && running == old(running) && used <= |script|
        invariant GrewFrom(begun, Now(), frames[..consumed], false) && bufferFrames == begun.bufferFrames
        invariant AllSeen(h.taken, |begun.h.taken|, script) && h.Accepted() == begun.h.Accepted() + consumed
        invariant expects ==>
                    OnTrack(|frames|, consumed, begun.fifoFrames, script, used, p) &&
                    (consumed > 0 ==> fifoFrames < period)
        invariant fails ==> consumed == used == 0 && FailsFirst(script, 0, waits) && fifoFrames == begun.fifoFrames
        invariant silent ==>
                    && cycle.None? && fifoFrames == begun.fifoFrames + consumed
                    && if consumed == 0 then used == 0 else used <= 1 && consumed == room
        decreases |script| - used, |frames| - consumed
      {
        ghost var before := h.taken;
        var full, flush, now;
        consumed, full, flush, now := WriteRound(frames, consumed, nonblock, script, used, p, begun);
        AllSeenLater(before, h.taken, |begun.h.taken|, script);
        queued, used := consumed, now;
        if !flush.Flushed? {
          return if flush.Unfinished? then Pending else Refused(flush.error), used, queued;
        }
        if full && !flush.progressed {
          break;
        }
      }
      return if consumed > 0 then Done(consumed) else Refused(EAgain), used, consumed;
    }

    /** A write before the start only queues. */
    method QueuePrepared(frames: seq<Frame>) returns (outcome: Outcome)
      requires Valid()
      modifies this, fifo
      ensures Valid() && running == old(running)
      ensures var room := old(bufferFrames - fifoFrames);
              var accepted := if |frames| < room then |frames| else room;
              && outcome == (if accepted == 0 then Refused(EAgain) else Done(accepted))
              && Grew(frames[..accepted], false) && fifoFrames == old(fifoFrames) + accepted
              && h.Accepted() == old(h).Accepted() + accepted
    {
      var accepted := Min(bufferFrames - fifoFrames, |frames|);
      Enqueue(frames[..accepted]);
      return if accepted == 0 then Refused(EAgain) else Done(accepted);
    }

    /** What a start submits from: less than one period is padded to one. */
    function FirstQueued(): nat
      reads `fifoFrames
    {
      if 0 < fifoFrames < period then period else fifoFrames
    }

    /** There are enough accepting answers for the whole periods that a start finds. */
    predicate SendsFirst(known: Option<u64>, script: seq<Cycle>, p: Promise)
      requires period > 0
      reads `fifoFrames, `cycle, `next, `lastObserved
    {
      && Expects(known, script, 0, p) && Periods(FirstQueued(), period) <= p.ready
      && (next.None? ==> p.queued == FirstQueued())
    }

    /** Those have been sent, under the promised labels. */
    ghost predicate FirstSent(begun: Front, queued: nat, result: Flush, used: nat, script: seq<Cycle>, p: Promise)
      requires period > 0
      reads `fifoFrames, `next, `lastSubmitted, `cycle, `lastObserved, `startSequence
    {
      && used == Periods(queued, period) <= p.ready && used <= |script|
      && result == Flushed(used > 0) && fifoFrames < period
      && Served(begun.(fifoFrames := queued), Line(), p.sequence, used, period)
      && Expects(startSequence, script, used, After(p, used))
      && (used > 0 ==> cycle == lastObserved == Some(script[used - 1].now))
    }

    lemma FirstSentMeans(begun: Front, queued: nat, result: Flush, used: nat, script: seq<Cycle>, p: Promise)
      requires period > 0 && FirstSent(begun, queued, result, used, script, p)
      ensures used == Periods(queued, period) <= p.ready && result.Flushed?
    {
    }

    /** Pads a stream shorter than one period, then submits. */
    method FlushPartial(script: seq<Cycle>, nonblock: bool, ghost p: Promise) returns (result: Flush, used: nat)
      requires Valid()
      modifies this, fifo
      ensures Valid() && running == old(running) && used <= |script|
      ensures (exists pads: nat :: pads < period && Grew(Repeat(SILENCE, pads), true)) ||
              (result.FlushFailed? && !h.clean && h.taken == [])
      ensures AllSeen(h.taken, |old(h).taken|, script)
      ensures !result.FlushFailed? && pro ==> position == old(position)
      ensures result.Unfinished? ==> used == |script|
      ensures old(fifoFrames) == 0 ==> result == Flushed(false)
      ensures nonblock && old(cycle).None? && script != [] && script[0].wait == Err(EAgain) ==>
                result == Flushed(false)
      ensures !result.FlushFailed? ==> lastSubmitted == LastSent(sent, old(sent), old(lastSubmitted))
      ensures script == [] && 0 < old(fifoFrames) ==> result == Unfinished
      ensures old(FailsFirst(script, 0, nonblock)) && 0 < old(fifoFrames) ==>
                result == FlushFailed(script[0].wait.error)
      ensures old(SendsFirst(startSequence, script, p)) ==>
                FirstSent(old(Line()), old(FirstQueued()), result, used, script, p)
    {
      hide Valid, GrewFrom, KeptFrom, AllSeen, Whole, Expects, SendsAll, Served, After;
      FitsBuffer();
      NoneSeen(h.taken, script);
      ghost var begun, pads: nat := Now(), 0;
      assert Repeat(SILENCE, 0) == [];
      GrewNone(begun, true);
      if 0 < fifoFrames < period {
        var padded := PadPeriod();
        pads :| pads < period && GrewFrom(begun, Now(), Repeat(SILENCE, pads), true);
      }
      ghost var before := Now();
      assert GrewFrom(begun, before, Repeat(SILENCE, pads), true);
      SendsAllMeans(script, 0, p);
      result, used := FlushBlocks(script, 0, nonblock, p);
      if KeptFrom(before, Now(), pro, period) {
        GrewThenKept(begun, before, Now(), Repeat(SILENCE, pads), true, pro, period);
        KeptExtends(before, Now(), pro, period);
        assert Grew(Repeat(SILENCE, pads), true);
      }
    }

    /** Forgets everything about the transfer; a new account begins. */
    method ResetTransferState()
      requires FifoValid()
      modifies this
      ensures Valid() && h == Cleared(sent, true) && sent == old(sent) && fifoFrames == 0 && next == None
      ensures running == old(running) && bufferFrames == old(bufferFrames) && position == 0 && hiddenFrames == 0
      ensures cycle == lastObserved == lastSubmitted == startSequence == origin == None
    {
      hide FifoAgrees, LabelsAgree, SentAgrees, CleanAgrees;
      ClearedAgrees(sent, true, period, latency, pro, running, 0);
      assert fifo[..0] == [];
      ForgetCycles();
      startSequence, origin, next, position, hiddenFrames := None, None, None, 0, 0;
      fifoFrames, lockedFrames, h := 0, 0, Cleared(sent, true);
    }

    /** Starts the stream; what cannot be submitted at once stays queued. */
    method Start(started: Result<()>, script: seq<Cycle>, nonblock: bool, ghost p: Promise)
      returns (result: Flush, used: nat)
      requires Valid()
      modifies this, fifo
      ensures Valid() && used <= |script|
      ensures AllSeen(h.taken, |old(h).taken|, script)
      ensures result.Flushed? ==> running
      ensures result.Unfinished? ==> used == |script|
      ensures result.Flushed? || result.Unfinished? ==>
                exists pads: nat :: pads < period && Grew(Repeat(SILENCE, pads), true)
      ensures !result.FlushFailed? ==> lastSubmitted == LastSent(sent, old(sent), old(lastSubmitted))
      ensures result.FlushFailed? && !old(running) ==> !running
      // A daemon that has started the stream but shows no cycle yet does not keep it from starting.
      ensures started.Err? ==> result == FlushFailed(started.error) && h == old(h)
      ensures started.Ok? && (old(running) || old(fifoFrames) == 0) ==> result == Flushed(false)
      ensures started.Ok? && (nonblock || pro) && old(cycle).None? && script != [] && script[0].wait == Err(EAgain) ==>
                result == Flushed(false)
      ensures result.FlushFailed? ==> h == old(h) || h == Cleared(sent, true)
      ensures started.Ok? && !old(running) && script == [] && 0 < old(fifoFrames) ==> result == Unfinished
      ensures started.Ok? && !old(running) && old(FailsFirst(script, 0, nonblock || pro)) && 0 < old(fifoFrames) ==>
                result == FlushFailed(script[0].wait.error)
      // With enough accepting answers all whole periods are sent; the start is forgotten before.
      ensures started.Ok? && !old(running) && old(SendsFirst(None, script, p)) ==>
                FirstSent(old(Line()), old(FirstQueued()), result, used, script, p)
    {
      hide FifoAgrees, LabelsAgree, SentAgrees, GrewBy, AllSeen, Expects, FirstSent, SendsFirst;
      NoneSeen(h.taken, script);
      GrewNone(Now(), true);
      assert Repeat(SILENCE, 0) == [] && Grew(Repeat(SILENCE, 0), true);
      if started.Err? {
        return FlushFailed(started.error), 0;
      }
      if running {
        return Flushed(false), 0;
      }
      ghost var line, queued, promised := Line(), FirstQueued(), SendsFirst(None, script, p);
      startSequence, position := None, 0;
      result, used := FlushPartial(script, nonblock || pro, p);
      if promised {
        FirstSentMeans(line, queued, result, used, script, p);
      }
      if result.FlushFailed? {
        ResetTransferState();
        NothingSeen(|old(h).taken|, script);
      } else if result.Flushed? {
        running := true;
      }
    }

    /** Submits whole periods until none is left, waiting for the daemon between. */
    method SubmitAll(script: seq<Cycle>, at: nat, nonblock: bool, ghost p: Promise) returns (result: Flush, now: nat)
      requires Valid() && Whole(fifoFrames, period) && at <= |script|
      modifies this, fifo
      ensures Valid() && running == old(running) && at <= now <= |script|
      ensures Kept() || (result.FlushFailed? && !h.clean && h.taken == [])
      ensures AllSeen(h.taken, |old(h).taken|, script)
      ensures result.Flushed? ==> result.progressed && fifoFrames == 0 && h.head == |h.stream|
      ensures result.Unfinished? ==> now == |script|
      ensures at == |script| && period <= old(fifoFrames) ==> result == Unfinished
      ensures old(FailsFirst(script, at, nonblock)) && period <= old(fifoFrames) ==>
                result == FlushFailed(script[at].wait.error)
      // One that may not wait does not when there is no cycle.
      ensures nonblock && old(cycle).None? && at < |script| && script[at].wait == Err(EAgain) &&
              period <= old(fifoFrames) ==>
                result == FlushFailed(EAgain)
      ensures old(SendsAll(script, at, p)) ==>
                && result.Flushed? && now == at + Periods(old(fifoFrames), period)
                && Served(old(Line()), Line(), p.sequence, now - at, period)
                && (if now == at then cycle == old(cycle) && lastObserved == old(lastObserved)
                    else cycle == lastObserved == Some(script[now - 1].now))
    {
      hide Valid, KeptFrom, AllSeen, Expects, Served, Periods, SendsAll, After;
      FitsBuffer();
      NoneSeen(h.taken, script);
      ghost var begun := Now();
      KeptSame(begun, pro, period);
      now := at;
      ghost var expects, front := SendsAll(script, at, p), Line();
      HasPeriod(fifoFrames, period);
      ServedNone(front, p.sequence, period);
      while period <= fifoFrames
        invariant Valid() && running == old(running) && at <= now <= |script|
        invariant KeptFrom(begun, Now(), pro, period) && Whole(fifoFrames, period)
        invariant AllSeen(h.taken, |begun.h.taken|, script)
        invariant (old(cycle).None? && at < |script| && script[at].wait.Err?) || at == |script| ==> now == at
        invariant now == at ==>
                    && Now() == begun && cycle == old(cycle) && lastObserved == old(lastObserved)
                    && SendsAll(script, at, p) == old(SendsAll(script, at, p))
        invariant expects && at < now ==>
                    && now == at + Periods(begun.fifoFrames, period) && fifoFrames < period
                    && Served(front, Line(), p.sequence, now - at, period)
                    && cycle == lastObserved == Some(script[now - 1].now)
        decreases |script| - now
      {
        ghost var before := Now();
        result, now := FlushBlocks(script, now, nonblock, p);
        if KeptFrom(before, Now(), pro, period) {
          KeptTransitive(begun, before, Now(), pro, period);
          KeptExtends(before, Now(), pro, period);
        }
        AllSeenLater(before.h.taken, h.taken, |begun.h.taken|, script);
        if !result.Flushed? {
          return;
        }
        if nonblock && !result.progressed && period <= fifoFrames {
          return FlushFailed(EAgain), now;
        }
      }
      NothingQueued();
      return Flushed(true), now;
    }

    lemma NothingQueued()
      requires Valid() && fifoFrames == 0
      ensures h.head == |h.stream|
    {
    }

    /** Enough answers to send all that is queued, padded, and one more that finds the
        last label consumed. */
    predicate CanDrain(script: seq<Cycle>, p: Promise)
      requires period > 0
      reads `fifoFrames, `running, `cycle, `next, `lastObserved, `startSequence
    {
      var padded := Padded(fifoFrames, period);
      var count := Periods(padded, period);
      && 0 < count == p.ready < |script| && script[count].wait.Ok?
      && Expects(if running then startSequence else None, script, 0, p)
      && (next.None? ==> p.queued == if running then padded else FirstQueued())
      && var (before, observed) := (script[count - 1].now, script[count].wait.value);
      && (observed == before || IsAfter(observed, before))
      && SequenceConsumed(Wrap(p.sequence + count - 1), observed, latency, pro) == Ok(true)
    }

    lemma DrainsLast(script: seq<Cycle>, p: Promise)
      requires period > 0 && CanDrain(script, p)
      ensures SequenceConsumed(Wrap(p.sequence + p.ready - 1), script[p.ready - 1].now, latency, pro) == Ok(false)
    {
      hide SequenceConsumed, TakesLabel;
      LastIsTaken(script, 0, p.ready, p.sequence, lastObserved, if pro then None else p.start, period, latency, pro);
    }

    /** `at` answers have been used, and the rest take the `padded` frames there will be. */
    predicate Drains(script: seq<Cycle>, at: nat, p: Promise, padded: nat)
      requires period > 0
      reads `cycle, `next, `lastObserved, `startSequence, `lastSubmitted
    {
      && Expects(startSequence, script, at, After(p, at)) && at <= |script| && at + Periods(padded, period) == p.ready
      && (if at == 0 then next.None? ==> p.queued == padded
          else && next.Some? && lastSubmitted == Some(Wrap(p.sequence + at - 1))
               && cycle == lastObserved == Some(script[at - 1].now))
    }

    lemma CanDrainMeans(script: seq<Cycle>, p: Promise)
      requires Valid() && CanDrain(script, p)
      ensures 0 < p.ready < |script| && script[p.ready].wait.Ok?
      ensures running ==> Drains(script, 0, p, Padded(fifoFrames, period))
      ensures !running ==> SendsFirst(None, script, p)
      ensures !running ==>
                var first := Periods(FirstQueued(), period);
                && 0 < first && Frames(first, period) <= FirstQueued()
                && first + Periods(Padded(FirstQueued() - Frames(first, period), period), period) == p.ready
      ensures var (before, observed) := (script[p.ready - 1].now, script[p.ready].wait.value);
              && (observed == before || IsAfter(observed, before))
              && SequenceConsumed(Wrap(p.sequence + p.ready - 1), observed, latency, pro) == Ok(true)
    {
      hide Expects, SequenceConsumed;
      AfterNone(p);
      PeriodsInTwo(FirstQueued(), period);
      if fifoFrames < period {
        PaddedShort(fifoFrames, period);
        PaddedShort(0, period);
        PaddedIsNextWhole(period, period);
      }
    }

    lemma StartDrains(begun: Front, queued: nat, start: Flush, used: nat, script: seq<Cycle>, p: Promise)
      requires period > 0 && FirstSent(begun, queued, start, used, script, p)
      requires 0 < used && Frames(used, period) <= queued
      requires used + Periods(Padded(queued - Frames(used, period), period), period) == p.ready
      ensures Drains(script, used, p, Padded(fifoFrames, period))
    {
      hide Expects, After, Periods, Padded;
    }

    lemma RestDrains(script: seq<Cycle>, at: nat, p: Promise)
      requires period > 0 && Drains(script, at, p, fifoFrames)
      ensures Rests(script, at, p)
    {
      hide Expects, Periods;
    }

    /** Then the last label submitted is the last one promised. */
    lemma DrainedLast(a: Front, b: Front, first: nat, p: Promise)
      requires first <= p.ready && Served(a, b, After(p, first).sequence, p.ready - first, period)
      requires 0 < first ==> a.last == Some(Wrap(p.sequence + first - 1))
      ensures 0 < p.ready ==> b.last == Some(Wrap(p.sequence + p.ready - 1))
    {
      if first < p.ready {
        WrapMore(p.sequence + first, p.ready - first - 1);
      }
    }

    /** The answers left take what is queued. */
    predicate Rests(script: seq<Cycle>, at: nat, p: Promise)
      requires period > 0
      reads `fifoFrames, `cycle, `next, `lastObserved, `startSequence, `lastSubmitted
    {
      && SendsAll(script, at, After(p, at)) && at + Periods(fifoFrames, period) == p.ready && at <= |script|
      && (at > 0 ==>
            lastSubmitted == Some(Wrap(p.sequence + at - 1)) && cycle == lastObserved == Some(script[at - 1].now))
    }

    lemma RestsMeans(script: seq<Cycle>, at: nat, p: Promise)
      requires period > 0 && Rests(script, at, p)
      ensures SendsAll(script, at, After(p, at)) && at + Periods(fifoFrames, period) == p.ready && at <= |script|
      ensures at > 0 ==>
                lastSubmitted == Some(Wrap(p.sequence + at - 1)) && cycle == lastObserved == Some(script[at - 1].now)
    {
      hide SendsAll, Periods;
    }

    /** Starts a stream that does not run yet, and pads its last period. */
    method PadToDrain(started: Result<()>, script: seq<Cycle>, nonblock: bool, ghost p: Promise)
      returns (start: Flush, used: nat, ghost pads: nat)
      requires Valid()
      modifies this, fifo
      ensures Valid() && used <= |script|
      // How it fails.
      ensures !old(running) && started.Err? ==> start == FlushFailed(started.error)
      ensures !old(running) && started.Ok? && old(FailsFirst(script, 0, nonblock || pro)) && 0 < old(fifoFrames) ==>
                start == FlushFailed(script[0].wait.error)
      ensures !old(running) && started.Ok? && script == [] && 0 < old(fifoFrames) ==> start == Unfinished
      ensures old(running) ==> start.Flushed? && used == 0 && cycle == old(cycle)
      ensures start.Flushed? && 0 < old(fifoFrames) && old(running) ==> period <= fifoFrames
      ensures start.Unfinished? ==> used == |script|
      ensures start.Flushed? ==>
                && running && Grew(Repeat(SILENCE, pads), true) && Whole(fifoFrames, period)
                && lastSubmitted == LastSent(sent, old(sent), old(lastSubmitted)) && old(sent) <= sent
                && AllSeen(h.taken, |old(h).taken|, script)
      ensures old(CanDrain(script, p)) && (old(running) || started.Ok?) ==> start.Flushed? && Rests(script, used, p)
    {
      hide Valid, GrewFrom, SequenceConsumed, Padded, Whole, AllSeen, Expects, Periods, LastSent, CountPadding, Frames;
      hide SendsAll, After, SendsFirst, FirstSent, CanDrain, Drains;
      FitsBuffer();
      PaddedHasPeriod(fifoFrames, period);
      NoneSeen(h.taken, script);
      start, used, pads := Flushed(false), 0, 0;
      ghost var begun := Now();
      ghost var can := CanDrain(script, p) && (running || started.Ok?);
      GrewNone(begun, true);
      NoneSent(begun.sent, begun.last);
      if can {
        CanDrainMeans(script, p);
      }
      assert Repeat(SILENCE, 0) == [];
      if !running {
        start, used := Start(started, script, nonblock, p);
        if can {
          FirstSentMeans(old(Line()), old(FirstQueued()), start, used, script, p);
          StartDrains(old(Line()), old(FirstQueued()), start, used, script, p);
        }
        if !start.Flushed? {
          return;
        }
        pads :| GrewFrom(begun, Now(), Repeat(SILENCE, pads), true);
      }
      assert can ==> Drains(script, used, p, Padded(fifoFrames, period));
      ghost var afterStart := Now();
      GrewFromGrew(begun, afterStart, Repeat(SILENCE, pads), true);
      var padded := PadPeriod();
      ghost var endPads: nat :| GrewFrom(afterStart, Now(), Repeat(SILENCE, endPads), true);
      PadsAdd(begun, afterStart, Now(), pads, endPads);
      pads := pads + endPads;
      if can {
        RestDrains(script, used, p);
      }
    }

    /** Pads the last period and waits until the daemon has consumed it all. `used`
        counts the answers it took. */
    method Drain(started: Result<()>, script: seq<Cycle>, nonblock: bool, ghost p: Promise)
      returns (outcome: Outcome, used: nat, ghost last: Option<u64>)
      requires Valid()
      modifies this, fifo
      ensures Valid() && used <= |script|
      ensures outcome.Pending? ==> used == |script|
      // How it fails.
      ensures !old(running) && started.Err? ==> outcome == Refused(started.error)
      ensures (old(running) || started.Ok?) && 0 < old(fifoFrames) &&
              old(FailsFirst(script, 0, if running then nonblock else nonblock || pro)) ==>
                outcome == Refused(script[0].wait.error)
      ensures (old(running) || started.Ok?) && 0 < old(fifoFrames) && script == [] ==> outcome == Pending
      ensures old(CanDrain(script, p)) && (old(running) || started.Ok?) ==> outcome.Done?
      ensures outcome.Done? ==>
                && fifoFrames == 0 && h.head == |h.stream| && running && lastSubmitted == None && outcome.frames == 0
                && (exists pads: nat :: GrewBy(old(h), h, Repeat(SILENCE, pads), true))
                && last == LastSent(sent, old(sent), old(lastSubmitted)) && AllSeen(h.taken, |old(h).taken|, script)
                && (last.Some? ==> cycle.Some? && SequenceConsumed(last.value, cycle.value, latency, pro) == Ok(true))
    {
      hide Valid, GrewFrom, GrewBy, KeptFrom, SequenceConsumed, Whole, AllSeen, Expects, Served, Periods, LastSent;
      hide SendsAll, After, CanDrain, Rests;
      FitsBuffer();
      last := None;
      ghost var begun := Now();
      ghost var can := CanDrain(script, p) && (running || started.Ok?);
      if can {
        DrainsLast(script, p);
        CanDrainMeans(script, p);
      }
      var submitted;
      ghost var pads;
      submitted, used, pads := PadToDrain(started, script, nonblock, p);
      ghost var before, first, front := Now(), used, Line();
      if submitted.Flushed? {
        if can {
          RestsMeans(script, used, p);
        }
        submitted, used := SubmitAll(script, used, nonblock, After(p, used));
      }
      if submitted.FlushFailed? {
        return Refused(submitted.error), used, last;
      } else if submitted.Unfinished? {
        return Pending, used, last;
      }
      KeptExtends(before, Now(), pro, period);
      AllSeenLater(before.h.taken, h.taken, |begun.h.taken|, script);
      GrewThenKept(begun, before, Now(), Repeat(SILENCE, pads), true, pro, period);
      GrewFromGrew(begun, Now(), Repeat(SILENCE, pads), true);
      LastSentJoins(begun.sent, before.sent, sent, begun.last);
      last := lastSubmitted;
      if can {
        DrainedLast(front, Line(), first, p);
      }
      outcome, used := AwaitConsumed(script, used);
    }

    /** Observes cycles until the last submitted period has been consumed. */
    method AwaitConsumed(script: seq<Cycle>, at: nat) returns (outcome: Outcome, now: nat)
      requires Valid() && at <= |script|
      modifies this
      ensures Valid() && at <= now <= |script|
      ensures outcome.Done? ==>
                h == old(h) && fifoFrames == old(fifoFrames) && running == old(running) && sent == old(sent)
      ensures outcome.Done? ==> lastSubmitted == None && outcome.frames == 0
      ensures old(startSequence).Some? ==> startSequence == old(startSequence)
      ensures at < now && script[at].wait.Ok? && old(startSequence).None? && script[at].activation.Some? ==>
                startSequence == script[at].activation
      ensures outcome.Done? && old(lastSubmitted).Some? ==>
                cycle.Some? && SequenceConsumed(old(lastSubmitted).value, cycle.value, latency, pro) == Ok(true)
      ensures old(lastSubmitted).Some? && old(cycle).None? && at < |script| && script[at].wait.Err? ==>
                outcome == Refused(script[at].wait.error)
      // It fails with the error of the last answer, or because the order does not tell or the clock ran backward.
      ensures outcome.Refused? ==> old(lastSubmitted).Some? && (old(cycle).None? ==> at < now)
      ensures outcome.Refused? && now == at ==>
                old(cycle).Some? && SequenceConsumed(old(lastSubmitted).value, old(cycle).value, latency, pro) ==
                                    Err(outcome.error)
      ensures outcome.Refused? && at < now && script[now - 1].wait.Err? ==> outcome.error == script[now - 1].wait.error
      ensures outcome.Refused? && at < now && script[now - 1].wait.Ok? ==>
                && outcome.error == EPipe
                && (h == Cleared(sent, false) ||
                    SequenceConsumed(old(lastSubmitted).value, script[now - 1].wait.value, latency, pro).Err?)
      ensures outcome.Pending? ==> now == |script|
      ensures old(lastSubmitted).None? ==> outcome.Done?
      ensures old(lastSubmitted).Some? && at < |script| && script[at].wait.Ok? && old(Accepts(script[at].wait.value)) &&
              (old(cycle).Some? ==> SequenceConsumed(old(lastSubmitted).value, old(cycle).value, latency, pro).Ok?) &&
              SequenceConsumed(old(lastSubmitted).value, script[at].wait.value, latency, pro) == Ok(true) ==>
                outcome.Done?
    {
      hide SequenceConsumed, Valid;
      now := at;
      if lastSubmitted.None? {
        return Done(0), now;
      }
      while true
        invariant Valid() && h == old(h) && fifoFrames == old(fifoFrames) && running == old(running) &&
                  sent == old(sent)
        invariant lastSubmitted == old(lastSubmitted) && at <= now <= |script|
        invariant if now == at then cycle == old(cycle) && lastObserved == old(lastObserved)
                  else script[at].wait.Ok? && script[now - 1].wait.Ok? && cycle == Some(script[now - 1].wait.value)
        invariant if old(startSequence).Some? || now == at then startSequence == old(startSequence)
                  else script[at].activation.Some? ==> startSequence == script[at].activation
        invariant now > at + 1 ==>
                    SequenceConsumed(lastSubmitted.value, script[at].wait.value, latency, pro) == Ok(false)
        decreases |script| - now
      {
        if cycle.Some? {
          var consumed := SequenceConsumed(lastSubmitted.value, cycle.value, latency, pro);
          ConsumedFault(lastSubmitted.value, cycle.value, latency, pro);
          if consumed.Err? {
            return Refused(consumed.error), now;
          } else if consumed.value {
            lastSubmitted := None;
            return Done(0), now;
          }
        }
        if now == |script| {
          return Pending, now;
        }
        var c := script[now];
        now := now + 1;
        if c.wait.Err? {
          return Refused(c.wait.error), now;
        }
        if startSequence.None? {
          startSequence := c.activation;
        }
        var seen := Observe(c.wait.value);
        if seen.Err? {
          return Refused(seen.error), now;
        }
      }
    }

    /** The FIFO has room for this many frames more, or this many that a rewind may remove. */
    predicate Takes(frames: int)
      reads `fifoFrames, `bufferFrames, `lockedFrames
    {
      if frames >= 0 then frames == 0 || fifoFrames + frames <= bufferFrames
      else -frames <= fifoFrames - lockedFrames
    }

    /** Takes back the newest frames, as long as none is padding and none has left;
        otherwise everything queued is dropped. */
    method Rewind(frames: u64) returns (result: Result<()>)
      requires Valid()
      modifies this
      ensures Valid() && running == old(running) && sent == old(sent) && bufferFrames == old(bufferFrames)
      ensures result == if frames <= old(fifoFrames - lockedFrames) then Ok(()) else Err(EPipe)
      ensures result.Ok? ==>
                && fifoFrames == old(fifoFrames) - frames
                && h == old(h).(stream := old(h).stream[..|old(h).stream| - frames],
                                padding := old(h).padding[..|old(h).padding| - frames])
                && CountPadding(h.padding) == CountPadding(old(h).padding) && h.Accepted() == old(h).Accepted() - frames
      ensures result.Err? ==> h == Cleared(sent, false)
    {
      hide FifoAgrees, LabelsAgree, CleanAgrees;
      if frames <= SaturatingSub(fifoFrames, lockedFrames) {
        assert fifo[..fifoFrames][..fifoFrames - frames] == fifo[..fifoFrames - frames];
        ghost var after := Unqueue(h, fifo[..fifoFrames], lockedFrames, frames, next, period, latency, pro);
        CleanOfQueued(h, after, next, period, pro, hiddenFrames, running, position, origin, 0);
        assert after == h.(stream := h.stream[..|h.stream| - frames], padding := h.padding[..|h.padding| - frames]);
        fifoFrames := fifoFrames - frames;
        h := after;
        return Ok(());
      }
      ClearFifo();
      return Err(EPipe);
    }

    /** Queues silence for the frames ALSA skipped. */
    method Forward(frames: u64) returns (result: Result<()>)
      requires Valid()
      modifies this, fifo
      ensures Valid() && running == old(running)
      ensures result == if old(fifoFrames) + frames <= old(bufferFrames) then Ok(()) else Err(EPipe)
      ensures Grew(if result.Ok? then Repeat(SILENCE, frames) else [], false)
      ensures h.Accepted() == old(h).Accepted() + if result.Ok? then frames else 0
    {
      if fifoFrames + frames > bufferFrames {
        GrewNone(Now(), false);
        return Err(EPipe);
      }
      Enqueue(Repeat(SILENCE, frames));
      return Ok(());
    }

    /** The pointer before anything is hidden from it: a PRO stream counts the
        daemon's watermark from its origin, a shared one cycles from its start. */
    function RawPosition(watermark: u64, now: u64, activation: Option<u64>): u64
      reads this
    {
      if pro then RunningPosition(origin, watermark, period, position)
      else RunningPosition(if startSequence.Some? then startSequence else activation, now, period, position)
    }

    /** A running PRO stream whose daemon has not played past the labels given out. */
    predicate KeepsUp(watermark: u64)
      reads this
    {
      && pro && running && Near(origin, next)
      && (next.Some? ==> watermark == next.value || IsBefore(watermark, next.value))
    }

    /** What ALSA is told. */
    function Reported(watermark: u64, now: u64, activation: Option<u64>): (reported: u64)
      requires Valid()
      reads this, fifo
      ensures KeepsUp(watermark) && h.bounded && |h.stream| < RANGE ==>
                reported <= (if h.Accepted() < fifoFrames then 0 else h.Accepted() - fifoFrames)
      ensures KeepsUp(watermark) && h.clean && |h.stream| < RANGE && |h.taken| < RANGE && fifoFrames == 0 &&
              (next.Some? ==> watermark == next.value) ==>
                reported == h.Accepted()
    {
      assert KeepsUp(watermark) && h.bounded && |h.stream| < RANGE ==>
               var reported := SaturatingSub(RunningPosition(origin, watermark, period, position), hiddenFrames);
               && reported <= (if h.Accepted() < fifoFrames then 0 else h.Accepted() - fifoFrames)
               && (h.clean && |h.taken| < RANGE && fifoFrames == 0 && (next.Some? ==> watermark == next.value) ==>
                     reported == h.Accepted()) by {
        if KeepsUp(watermark) && h.bounded && |h.stream| < RANGE {
          PositionIsBounded(h, fifo[..fifoFrames], lockedFrames, next, period, hiddenFrames, position, origin,
                            watermark);
        }
      }
      if running then SaturatingSub(RawPosition(watermark, now, activation), hiddenFrames) else position
    }

    /** On ideal counts: a running stream reports the whole periods since its start, or
        its stored position while there is no start or the clock is behind it, less what
        is hidden; any other stream reports its stored position. A shared stream counts
        the daemon's cycles, a PRO stream what the daemon has played. */
    lemma ReportedOnCounts(watermark: u64, now: u64, activation: Option<u64>, start: int, count: int)
      requires Valid() && -HALF_RANGE < count - start < HALF_RANGE
      ensures var reported := Reported(watermark, now, activation);
              var begun := if pro then origin else if startSequence.Some? then startSequence else activation;
              var elapsed := if start <= count && Frames(count - start, period) < RANGE
                             then Frames(count - start, period) else position;
              && (!running ==> reported == position)
              && (running && begun == Some(Wrap(start)) && (if pro then watermark else now) == Wrap(count) ==>
                    reported == if elapsed < hiddenFrames then 0 else elapsed - hiddenFrames)
              && (running && begun.None? ==>
                    reported == if position < hiddenFrames then 0 else position - hiddenFrames)
    {
      hide Valid, Wrap, ForwardDistance, RunningPosition;
      PositionOnCounts(start, count, watermark, period, position);
      PositionOnCounts(start, count, now, period, position);
    }

    /** ALSA's pointers have been zeroed: drops what is queued, and hides what the
        daemon still owns. */
    method Reset(queuedFrames: u64, watermark: u64, now: u64, activation: Option<u64>)
      requires Valid()
      modifies this
      ensures Valid() && running == old(running) && sent == old(sent) && fifoFrames == 0 && next == old(next)
      ensures h.stream == old(h).stream[..old(h).head] && h.taken == old(h).taken && h.Accepted() == 0
      ensures h.head == old(h).head && position == if running then old(position) else 0
      ensures var raw := old(RawPosition(watermark, now, activation));
              hiddenFrames == if running then ResetHidden(raw, queuedFrames, old(fifoFrames)) else 0
      ensures h.clean == (old(h).clean && hiddenFrames == Wrap(h.head) && (pro && running ==> position == 0))
      ensures h.bounded == (old(h).bounded && hiddenFrames == Wrap(h.head) && (pro && running ==> position == 0))
    {
      hide FifoAgrees, LabelsAgree, SentAgrees, RunningPosition;
      var hidden := 0;
      if running {
        hidden := ResetHidden(RawPosition(watermark, now, activation), queuedFrames, fifoFrames);
      } else {
        position := 0;
      }
      h := ResetHides(h, fifo[..fifoFrames], lockedFrames, next, period, latency, pro, sent,
                      h.clean && hidden == Wrap(h.head) && (pro && running ==> position == 0),
                      h.bounded && hidden == Wrap(h.head) && (pro && running ==> position == 0));
      fifoFrames, lockedFrames, hiddenFrames := 0, 0, hidden;
    }

    /** What a reset of a clean running stream hides of what ALSA has queued behind the
        position it was shown. */
    lemma ResetFollowsShown(raw: u64, shown: u64)
      requires Valid() && running && h.clean && |h.stream| < RANGE && 0 <= h.Accepted() - shown
      ensures h.Accepted() - shown < RANGE && h.head < RANGE && (pro ==> position == 0)
      ensures Wrap(h.head) == h.head
      ensures ResetHidden(raw, h.Accepted() - shown, fifoFrames) == h.head <==>
              raw == Min(h.head, shown + hiddenFrames)
    {
      ResetIsExact(h, fifo[..fifoFrames], lockedFrames, next, period, pro, hiddenFrames, position, origin, raw, shown);
    }

    /** Submits prepared PRO data without waiting, when ALSA asks for the pointer. */
    method Pump(script: seq<Cycle>, ghost p: Promise) returns (result: Flush)
      requires Valid()
      modifies this, fifo
      ensures Valid() && running == old(running)
      ensures Kept() || (result.FlushFailed? && !h.clean && h.taken == [])
      ensures AllSeen(h.taken, |old(h).taken|, script)
      ensures !pro || !running ==> result == Flushed(false) && h == old(h)
      ensures old(cycle).None? && script != [] && script[0].wait == Err(EAgain) ==> result == Flushed(false)
      ensures pro && running && old(FailsFirst(script, 0, true)) && period <= old(fifoFrames) ==>
                result == FlushFailed(script[0].wait.error)
      ensures pro && running && old(SendsAll(script, 0, p)) ==>
                && result == Flushed(period <= old(fifoFrames)) && fifoFrames < period
                && Served(old(Line()), Line(), p.sequence, Periods(old(fifoFrames), period), period)
    {
      HasPeriod(fifoFrames, period);
      hide SendsAll, Served;
      if !pro || !running {
        return Flushed(false);
      }
      var used;
      result, used := FlushBlocks(script, 0, true, p);
    }

    method Stop(stopped: Result<()>, watermark: u64, now: u64, activation: Option<u64>) returns (result: Result<()>)
      requires Valid()
      modifies this
      ensures Valid() && result == stopped && sent == old(sent)
      ensures result.Ok? ==> h == Cleared(sent, true) && !running && fifoFrames == 0
      ensures result.Ok? ==> position == old(Reported(watermark, now, activation))
      ensures result.Err? ==> h == old(h)
    {
      var reported := Reported(watermark, now, activation);
      if stopped.Err? {
        return stopped;
      }
      ResetTransferState();
      running := false;
      position := reported;
      return stopped;
    }

    method Prepare(prepared: Result<()>) returns (result: Result<()>)
      requires Valid()
      modifies this
      ensures Valid() && result == prepared && sent == old(sent)
      ensures result.Ok? ==> h == Cleared(sent, true) && !running && fifoFrames == 0 && position == 0
      ensures result.Err? ==> h == old(h)
    {
      if prepared.Err? {
        return prepared;
      }
      ResetTransferState();
      running := false;
      return prepared;
    }

    /** A PRO application picks its capacity before anything is queued. */
    method SetBufferSize(frames: nat) returns (result: Result<()>)
      requires Valid()
      modifies `bufferFrames
      ensures Valid()
      ensures result.Ok? && pro ==> bufferFrames == frames && period <= frames <= fifo.Length && Whole(frames, period)
      ensures result.Err? || !pro ==> bufferFrames == old(bufferFrames)
      ensures result == if !pro then Ok(())
                        else if running || fifoFrames != 0 then Err(EBusy)
                        else if period <= frames <= fifo.Length && Whole(frames, period) then Ok(())
                        else Err(EInvalid)
    {
      if !pro {
        return Ok(());
      }
      if running || fifoFrames != 0 {
        return Err(EBusy);
      }
      if frames < period || !Whole(frames, period) || frames > fifo.Length {
        return Err(EInvalid);
      }
      bufferFrames := frames;
      return Ok(());
    }
  }

  /** What a running reset hides from the pointer. */
  function ResetHidden(raw: u64, queuedFrames: u64, fifoFrames: nat): u64 {
    WrapAdd(raw, if queuedFrames < fifoFrames then 0 else queuedFrames - fifoFrames)
  }

  /** ALSA counts as queued what it handed over less what it was last shown as played.
      From that count a running reset hides exactly the frames that have left the FIFO
      if and only if the raw pointer then stands right behind what it was shown and
      what was hidden from it, or at the end of those frames if that is nearer. */
  lemma ResetIsExact(h: History, queued: seq<Frame>, locked: nat, next: Option<u64>, period: nat, pro: bool,
                     hidden: u64, position: u64, origin: Option<u64>, raw: u64, shown: u64)
    requires h.clean && FifoAgrees(h, queued, locked) && |h.stream| < RANGE
    requires CleanAgrees(h, next, period, pro, hidden, true, position, origin)
    requires 0 <= h.Accepted() - shown
    ensures h.Accepted() - shown < RANGE
    ensures ResetHidden(raw, h.Accepted() - shown, |queued|) == h.head <==> raw == Min(h.head, shown + hidden)
  {
    CountPaddingBound(h.padding);
  }

  /** So when nothing has been hidden since ALSA was told the raw pointer `told`, it must
      not have moved, except that it may lie behind what was hidden already. */
  lemma ResetIsExactWhenTold(h: History, queued: seq<Frame>, locked: nat, next: Option<u64>, period: nat, pro: bool,
                             hidden: u64, position: u64, origin: Option<u64>, raw: u64, told: u64)
    requires h.clean && FifoAgrees(h, queued, locked) && |h.stream| < RANGE && told <= h.head
    requires CleanAgrees(h, next, period, pro, hidden, true, position, origin)
    requires 0 <= h.Accepted() - SaturatingSub(told, hidden)
    ensures h.Accepted() - SaturatingSub(told, hidden) < RANGE
    ensures ResetHidden(raw, h.Accepted() - SaturatingSub(told, hidden), |queued|) == h.head <==>
            raw == Max(told, Min(hidden, h.head))
  {
    ResetIsExact(h, queued, locked, next, period, pro, hidden, position, origin, raw, SaturatingSub(told, hidden));
  }

  /** It can fail: one frame, padded to a period of two and submitted, is still
      unplayed, and a reset hides one frame of the two. */
  lemma ResetMayBeInexact()
    ensures var h := History([7, SILENCE], [false, true], 2, 0, [Period(0, true, 0, 0, [7, SILENCE], 0)], 0, true, true,
                             []);
            && FifoAgrees(h, [], 0) && LabelsAgree(h, Some(1), 2, 0, true)
            && CleanAgrees(h, Some(1), 2, true, 1, true, 0, Some(0))
            && h.Accepted() == 1 && ResetHidden(0, 1 - SaturatingSub(0, 1), 0) == 1 && h.head == 2
  {
    var taken := [Period(0, true, 0, 0, [7, SILENCE], 0)];
    var stream := [7, SILENCE];
    assert CountPadding([false]) == CountPadding([]) == 0 by {
      assert [false][..0] == [];
    }
    assert CountPadding([false, true]) == 1 by {
      assert [false, true][..1] == [false];
    }
    assert CutFrom(taken[..0], stream, 2, 0, 0);
    assert stream[0..2] == stream;
    assert CutFrom(taken, stream, 2, 0, 2);
    assert Frames(1, 2) == Frames(0, 2) + 2;
  }

  /** It fails too when the daemon has played on since ALSA was told: two frames are
      submitted, the pointer was told at none and stands at one, and three are hidden. */
  lemma ResetAfterPlayingOn()
    ensures var first, second := Period(0, true, 0, 0, [7], 0), Period(1, true, 0, 1, [8], 0);
            var h := History([7, 8], [false, false], 2, 0, [first, second], 0, true, true, []);
            && FifoAgrees(h, [], 0) && LabelsAgree(h, Some(2), 1, 0, true)
            && CleanAgrees(h, Some(2), 1, true, 0, true, 0, Some(0))
            && RunningPosition(Some(0), 0, 1, 0) == 0 && RunningPosition(Some(0), 1, 1, 0) == 1
            && h.Accepted() == 2 && ResetHidden(1, 2 - 0, 0) == 3 && h.head == 2
  {
    var first, second := Period(0, true, 0, 0, [7], 0), Period(1, true, 0, 1, [8], 0);
    var stream := [7, 8];
    assert [false, false][..1] == [false] && [false][..0] == [];
    assert CountPadding([false]) == 0 && CountPadding([false, false]) == 0;
    assert CutFrom([first][..0], stream, 1, 0, 0) && stream[0..1] == [7] && stream[1..2] == [8];
    assert CutFrom([first], stream, 1, 0, 1);
    assert [first, second][..1] == [first];
    FramesIsProduct(2, 1);
    FramesIsProduct(1, 1);
  }
}
