/** What has become of the frames queued on one playback stream: the account
    that the FIFO, its labels and its position are proved against. Frames of all
    channels count as one value. */
module PlaybackHistory {
  import opened Sequences
  import opened PeriodMath
  import opened PlaybackPlan

  type Frame = int

  /** One whole period taken off the FIFO: handed to the daemon, or discarded as
      expired. `offset` is where its frames stand in the queued stream, `observed`
      the cycle seen when it was submitted, and `tail` the partial period dropped
      right behind it when an expiry emptied the FIFO. */
  datatype Period = Period(sequence: u64, submitted: bool, observed: u64, offset: nat, frames: seq<Frame>, tail: nat)

  /** What the daemon receives. */
  datatype Sent = Sent(sequence: u64, frames: seq<Frame>)

  /** All frames queued since the last clear and not rewound; which of them the
      pointer hides (padding, and what a reset left behind); how many have left the
      FIFO; the whole periods that have left it since frame `start`, with the ideal
      count behind the first one's label; whether nothing has gone wrong since the
      transfer state was reset, or at least nothing that lets the pointer run ahead;
      and what was sent before. */
  datatype History = History(stream: seq<Frame>, padding: seq<bool>, head: nat, start: nat, taken: seq<Period>,
                             anchor: int, clean: bool, bounded: bool, sentBefore: seq<Sent>)
  {
    /** Frames ALSA has handed over and not taken back. */
    function Accepted(): int {
      |stream| - CountPadding(padding)
    }
  }

  function CountPadding(padding: seq<bool>): nat {
    if padding == [] then 0 else CountPadding(padding[..|padding| - 1]) + if padding[|padding| - 1] then 1 else 0
  }

  function Repeat<T>(value: T, count: nat): seq<T> {
    seq(count, _ => value)
  }

  lemma {:induction false} CountPaddingAppend(a: seq<bool>, value: bool, count: nat)
    ensures CountPadding(a + Repeat(value, count)) == CountPadding(a) + if value then count else 0
  {
    if count == 0 {
      assert a + Repeat(value, 0) == a;
    } else {
      CountPaddingAppend(a, value, count - 1);
      var whole := a + Repeat(value, count);
      assert whole[..|whole| - 1] == a + Repeat(value, count - 1);
    }
  }

  /** Taking frames that are not padding off the end leaves the padding count. */
  lemma {:induction false} CountPaddingCut(a: seq<bool>, length: nat)
    requires length <= |a| && forall i :: length <= i < |a| ==> !a[i]
    ensures CountPadding(a[..length]) == CountPadding(a)
    decreases |a|
  {
    if length == |a| {
      assert a[..length] == a;
    } else {
      CountPaddingCut(a[..|a| - 1], length);
      assert a[..|a| - 1][..length] == a[..length];
    }
  }

  /** The blocks among the periods taken that went to the daemon, in order. */
  function SentOf(taken: seq<Period>): (r: seq<Sent>)
    ensures |r| <= |taken|
  {
    if taken == [] then []
    else
      var last := taken[|taken| - 1];
      SentOf(taken[..|taken| - 1]) + if last.submitted then [Sent(last.sequence, last.frames)] else []
  }

  lemma SentOfOneMore(taken: seq<Period>, more: Period)
    ensures SentOf(taken + [more]) == SentOf(taken) + if more.submitted then [Sent(more.sequence, more.frames)] else []
  {
    assert (taken + [more])[..|taken|] == taken;
  }

  lemma {:induction false} SentOfExpired(taken: seq<Period>, after: seq<Period>)
    requires taken <= after && forall k :: |taken| <= k < |after| ==> !after[k].submitted
    ensures SentOf(after) == SentOf(taken)
    decreases |after|
  {
    if |taken| == |after| {
      assert taken == after;
    } else {
      SentOfExpired(taken, after[..|after| - 1]);
    }
  }

  /** From frame `start` up to `head` every frame of the stream belongs to a period
      taken, one behind the other, or to the partial tail dropped with one that
      expired. */
  predicate CutFrom(taken: seq<Period>, stream: seq<Frame>, period: nat, start: nat, head: nat) {
    if taken == [] then head == start <= |stream|
    else
      var last := taken[|taken| - 1];
      && CutFrom(taken[..|taken| - 1], stream, period, start, last.offset)
      && head == last.offset + period + last.tail <= |stream|
      && last.frames == stream[last.offset..last.offset + period]
      && (last.tail > 0 ==> !last.submitted && last.tail < period)
  }

  lemma {:induction false} CutFromSame(taken: seq<Period>, a: seq<Frame>, b: seq<Frame>, period: nat, start: nat,
                                       head: nat)
    requires CutFrom(taken, a, period, start, head) && head <= |b| && head <= |a| && a[..head] == b[..head]
    ensures CutFrom(taken, b, period, start, head)
  {
    if taken != [] {
      var last := taken[|taken| - 1];
      CutIsWithin(taken, a, period, start, head);
      assert a[..last.offset] == a[..head][..last.offset] && b[..last.offset] == b[..head][..last.offset];
      CutFromSame(taken[..|taken| - 1], a, b, period, start, last.offset);
      assert a[last.offset..last.offset + period] == a[..head][last.offset..last.offset + period];
      assert b[last.offset..last.offset + period] == b[..head][last.offset..last.offset + period];
    }
  }

  lemma CutIsWithin(taken: seq<Period>, stream: seq<Frame>, period: nat, start: nat, head: nat)
    requires CutFrom(taken, stream, period, start, head)
    ensures head <= |stream|
  {
  }

  ghost predicate Labelled(taken: seq<Period>, anchor: int) {
    forall k :: 0 <= k < |taken| ==> taken[k].sequence == Wrap(anchor + k)
  }

  /** Every submitted label could still be played when it was submitted. */
  ghost predicate AllPlayable(taken: seq<Period>, latency: u64, pro: bool) {
    forall k :: 0 <= k < |taken| && taken[k].submitted ==>
                  Playable(taken[k].sequence, taken[k].observed, latency, pro)
  }

  // ---------------------------------------------------------------- agreement

  /** The FIFO holds the end of the stream, and its padding is locked. */
  ghost predicate FifoAgrees(h: History, queued: seq<Frame>, locked: nat) {
    && |h.stream| == |h.padding| == h.head + |queued|
    && queued == h.stream[h.head..]
    && forall j :: h.head <= j < |h.padding| && h.padding[j] ==> j - h.head < locked
  }

  /** The k-th whole period taken owns label anchor + k, the next one follows. */
  ghost predicate LabelsAgree(h: History, next: Option<u64>, period: nat, latency: u64, pro: bool) {
    && latency < 0x1_0000_0000 && (pro ==> latency == 0)
    && (next.None? ==> h.taken == [])
    && (next.Some? ==> next.value == Wrap(h.anchor + |h.taken|))
    && Labelled(h.taken, h.anchor)
    && CutFrom(h.taken, h.stream, period, h.start, h.head)
    && AllPlayable(h.taken, latency, pro)
  }

  ghost predicate SentAgrees(h: History, sent: seq<Sent>) {
    sent == h.sentBefore + SentOf(h.taken)
  }

  /** The hidden frames are counted exactly, and the labels from the origin on stand
      for no more frames than have left the FIFO. */
  ghost predicate Bounded(h: History, next: Option<u64>, period: nat, pro: bool, hidden: u64, running: bool,
                          position: u64, origin: Option<u64>)
  {
    && hidden == Wrap(CountPadding(h.padding)) && (pro && running ==> position == 0)
    && (pro && origin.Some? ==> next.Some? && Frames(WrapSub(next.value, origin.value), period) <= h.head)
  }

  /** While nothing has gone wrong, a PRO stream has besides submitted all it has
      taken, from its origin on. */
  ghost predicate CleanAgrees(h: History, next: Option<u64>, period: nat, pro: bool, hidden: u64, running: bool,
                              position: u64, origin: Option<u64>)
  {
    && (h.bounded ==> Bounded(h, next, period, pro, hidden, running, position, origin))
    && (h.clean ==>
          h.bounded &&
          (pro ==>
             && h.head == Frames(|h.taken|, period)
             && origin == (if h.taken == [] then None else Some(h.taken[0].sequence))
             && forall k :: 0 <= k < |h.taken| ==> h.taken[k].submitted))
  }

  /** Nothing queued is lost or relabelled: at most more periods have left. */
  ghost predicate Extends(a: History, b: History) {
    && b.stream == a.stream && b.padding == a.padding && b.sentBefore == a.sentBefore
    && b.clean == a.clean && b.bounded == a.bounded
    && b.start == a.start
    && a.taken <= b.taken && (a.taken != [] ==> b.anchor == a.anchor) && a.head <= b.head
  }

  /** The same, after `frames` more from ALSA. */
  ghost predicate GrewBy(a: History, b: History, frames: seq<Frame>, pad: bool) {
    && b.stream == a.stream + frames && b.padding == a.padding + Repeat(pad, |frames|)
    && b.clean == a.clean && b.bounded == a.bounded && b.sentBefore == a.sentBefore && b.start == a.start
    && a.taken <= b.taken && (a.taken != [] ==> b.anchor == a.anchor) && a.head <= b.head
  }

  lemma ExtendsIsGrewByNone(a: History, b: History, pad: bool)
    ensures Extends(a, b) <==> GrewBy(a, b, [], pad)
  {
    assert a.padding + Repeat(pad, 0) == a.padding;
  }

  lemma GrewByTransitive(a: History, b: History, c: History, frames: seq<Frame>, more: seq<Frame>, pad: bool)
    requires GrewBy(a, b, frames, pad) && GrewBy(b, c, more, pad)
    ensures GrewBy(a, c, frames + more, pad)
  {
    assert (a.padding + Repeat(pad, |frames|)) + Repeat(pad, |more|) == a.padding + Repeat(pad, |frames + more|);
    assert (a.stream + frames) + more == a.stream + (frames + more);
  }

  // ------------------------------------------------------------------- changes

  /** A cleared FIFO begins a new history. */
  function Cleared(sent: seq<Sent>, clean: bool): History {
    History([], [], 0, 0, [], 0, clean, clean, sent)
  }

  lemma ClearedAgrees(sent: seq<Sent>, clean: bool, period: nat, latency: u64, pro: bool, running: bool, position: u64)
    requires latency < 0x1_0000_0000 && (pro ==> latency == 0)
    requires clean && pro && running ==> position == 0
    ensures var h := Cleared(sent, clean);
            && FifoAgrees(h, [], 0) && LabelsAgree(h, None, period, latency, pro) && SentAgrees(h, sent)
            && CleanAgrees(h, None, period, pro, 0, running, position, None)
  {
  }

  /** An account of which nothing is known says nothing of the hidden frames. */
  lemma UncleanAgrees(h: History, next: Option<u64>, period: nat, pro: bool, hidden: u64, running: bool, position: u64,
                      origin: Option<u64>)
    requires !h.clean && !h.bounded
    ensures CleanAgrees(h, next, period, pro, hidden, running, position, origin)
  {
  }

  /** One label more stands for at most one period more. */
  lemma LabelsGrow(next: u64, origin: u64, more: u64, period: nat)
    ensures Frames(WrapSub(WrapAdd(next, more), origin), period) <=
            Frames(WrapSub(next, origin), period) + Frames(more, period)
  {
    FramesAdd(WrapSub(next, origin), more, period);
    FramesGrow(WrapSub(WrapAdd(next, more), origin), WrapSub(next, origin) + more, period);
  }

  /** Queued frames join the end of the stream. */
  lemma Queue(h: History, queued: seq<Frame>, locked: nat, frames: seq<Frame>, pad: bool, nowLocked: nat)
    returns (after: History)
    requires FifoAgrees(h, queued, locked) && locked <= nowLocked &&
             (pad && frames != [] ==> |queued| + |frames| <= nowLocked)
    ensures after == h.(stream := h.stream + frames, padding := h.padding + Repeat(pad, |frames|))
    ensures FifoAgrees(after, queued + frames, nowLocked)
    ensures after.Accepted() == h.Accepted() + if pad then 0 else |frames|
    ensures CountPadding(after.padding) == CountPadding(h.padding) + if pad then |frames| else 0
  {
    CountPaddingAppend(h.padding, pad, |frames|);
    after := h.(stream := h.stream + frames, padding := h.padding + Repeat(pad, |frames|));
  }

  /** The labels do not care about what joins the end. */
  lemma LabelsOfLonger(h: History, after: History, next: Option<u64>, period: nat, latency: u64, pro: bool)
    requires LabelsAgree(h, next, period, latency, pro)
    requires h.stream <= after.stream && after.head == h.head && after.taken == h.taken && after.anchor == h.anchor
    requires after.start == h.start
    ensures LabelsAgree(after, next, period, latency, pro)
  {
    CutIsWithin(h.taken, h.stream, period, h.start, h.head);
    assert h.stream[..h.head] == after.stream[..h.head];
    CutFromSame(h.taken, h.stream, after.stream, period, h.start, h.head);
  }

  lemma SentOfLonger(h: History, after: History, sent: seq<Sent>)
    requires SentAgrees(h, sent) && after.taken == h.taken && after.sentBefore == h.sentBefore
    ensures SentAgrees(after, sent)
  {
  }

  /** A rewind takes back unlocked frames: they are not padding. */
  lemma Unqueue(h: History, queued: seq<Frame>, locked: nat, frames: nat, next: Option<u64>, period: nat, latency: u64,
                pro: bool) returns (after: History)
    requires FifoAgrees(h, queued, locked) && LabelsAgree(h, next, period, latency, pro)
    requires frames <= |queued| && (frames > 0 ==> locked + frames <= |queued|)
    ensures frames <= |h.stream| == |h.padding|
    ensures var length := |h.stream| - frames;
            after == h.(stream := h.stream[..length], padding := h.padding[..length])
    ensures FifoAgrees(after, queued[..|queued| - frames], locked)
    ensures LabelsAgree(after, next, period, latency, pro)
    ensures CountPadding(after.padding) == CountPadding(h.padding) && after.Accepted() == h.Accepted() - frames
  {
    var length := |h.stream| - frames;
    CountPaddingCut(h.padding, length);
    assert h.stream[..length][..h.head] == h.stream[..h.head];
    CutFromSame(h.taken, h.stream, h.stream[..length], period, h.start, h.head);
    after := h.(stream := h.stream[..length], padding := h.padding[..length]);
  }

  /** Frames leave the front of the FIFO. */
  lemma DropFrontAgrees(h: History, queued: seq<Frame>, locked: nat, frames: nat, after: History)
    requires FifoAgrees(h, queued, locked) && frames <= |queued|
    requires after.stream == h.stream && after.padding == h.padding && after.head == h.head + frames
    ensures FifoAgrees(after, queued[frames..], if frames <= locked then locked - frames else 0)
  {
  }

  /** Cuts off the next `count` periods as expired, the last with a tail behind it. */
  lemma {:induction false} Expire(taken: seq<Period>, anchor: int, stream: seq<Frame>, period: nat, start: nat,
                                  head: nat, count: nat, tail: nat) returns (after: seq<Period>)
    requires Labelled(taken, anchor) && CutFrom(taken, stream, period, start, head)
    requires head + Frames(count, period) + tail <= |stream| && tail < period && (count == 0 ==> tail == 0)
    ensures taken <= after && |after| == |taken| + count
    ensures Labelled(after, anchor) && CutFrom(after, stream, period, start, head + Frames(count, period) + tail)
    ensures forall k :: |taken| <= k < |after| ==> !after[k].submitted && (after[k].tail > 0 ==> k == |after| - 1)
    ensures count > 0 ==> after[|after| - 1].tail == tail
  {
    after := taken;
    if count > 0 {
      var at := head + Frames(count - 1, period);
      var before := Expire(taken, anchor, stream, period, start, head, count - 1, 0);
      after := before + [Period(Wrap(anchor + |before|), false, 0, at, stream[at..at + period], tail)];
      assert after[..|after| - 1] == before;
    }
  }

  /** What a realignment drops: whole periods first, and a partial tail only when
      every whole period has expired. */
  function DroppedFrames(queued: nat, expired: nat, period: nat): (frames: nat)
    ensures frames <= queued
  {
    Min(Frames(expired, period), queued)
  }

  lemma DroppedFromWhole(queued: nat, expired: nat, period: nat)
    requires period > 0
    ensures Whole(queued, period) ==> Whole(queued - DroppedFrames(queued, expired, period), period)
  {
    if Whole(queued, period) && Frames(expired, period) < queued {
      WholeOfFrames(expired, period);
      WholeDifference(queued, Frames(expired, period), period);
    }
  }

  /** Of the expired labels those with audio queued take it along; once every whole
      period has expired the rest of the FIFO goes too. */
  lemma ExpireQueued(taken: seq<Period>, anchor: int, stream: seq<Frame>, period: nat, start: nat, head: nat,
                     expired: nat)
    returns (after: seq<Period>)
    requires Labelled(taken, anchor) && CutFrom(taken, stream, period, start, head)
    requires 0 < period <= |stream| - head && expired > 0
    ensures var dropped := DroppedFrames(|stream| - head, expired, period);
            && 0 < dropped
            && taken <= after && |after| == |taken| + Min(expired, Periods(|stream| - head, period))
            && Labelled(after, anchor) && CutFrom(after, stream, period, start, head + dropped)
            && (after[|after| - 1].tail > 0 ==> dropped == |stream| - head)
    ensures forall k :: |taken| <= k < |after| ==> !after[k].submitted && (after[k].tail > 0 ==> k == |after| - 1)
  {
    var queued := |stream| - head;
    var discarded := Min(expired, Periods(queued, period));
    PeriodsFit(queued, period);
    FramesFitWhenWhole(queued, period, discarded);
    FramesFitWhenWhole(queued, period, expired);
    FramesGrow(1, discarded, period);
    after := Expire(taken, anchor, stream, period, start, head, discarded,
                    DroppedFrames(queued, expired, period) - Frames(discarded, period));
  }

  lemma StillPlayable(taken: seq<Period>, after: seq<Period>, latency: u64, pro: bool)
    requires AllPlayable(taken, latency, pro) && taken <= after
    requires forall k :: |taken| <= k < |after| ==> !after[k].submitted
    ensures AllPlayable(after, latency, pro)
  {
  }

  lemma NextAfterExpiry(count: int, observed: u64, latency: u64, queued: nat, plan: SequencePlan)
    requires queued < RANGE && plan.expiredPeriods > 0
    requires PlanWithQueue(Some(Wrap(count)), observed, latency, false, queued) == Ok(plan)
    ensures var discarded := Min(plan.expiredPeriods, queued);
            RealignedSequence(plan.sequence, plan.expiredPeriods, discarded) == Wrap(count + discarded)
  {
    RealignMovesByDiscarded(Wrap(count), observed, latency, queued);
    WrapShift(count, Min(plan.expiredPeriods, queued));
  }

  /** SHARED expiry: the discarded periods keep their labels, and the next label
      follows the last of them. */
  lemma Realign(h: History, queued: seq<Frame>, locked: nat, next: u64, period: nat, latency: u64, sent: seq<Sent>,
                observed: u64, plan: SequencePlan) returns (after: History)
    requires FifoAgrees(h, queued, locked) && LabelsAgree(h, Some(next), period, latency, false) && SentAgrees(h, sent)
    requires 0 < period <= |queued| < RANGE && plan.expiredPeriods > 0
    requires PlanWithQueue(Some(next), observed, latency, false, Periods(|queued|, period)) == Ok(plan)
    ensures Extends(h, after) && after.anchor == h.anchor
    ensures after.head == h.head + DroppedFrames(|queued|, plan.expiredPeriods, period)
    ensures 0 < DroppedFrames(|queued|, plan.expiredPeriods, period)
    ensures var discarded := Min(plan.expiredPeriods, Periods(|queued|, period));
            LabelsAgree(after, Some(RealignedSequence(plan.sequence, plan.expiredPeriods, discarded)), period, latency,
                        false)
    ensures SentAgrees(after, sent)
    ensures |after.taken| == |h.taken| + Min(plan.expiredPeriods, Periods(|queued|, period))
    ensures forall k :: |h.taken| <= k < |after.taken| ==>
              && !after.taken[k].submitted
              && (after.taken[k].tail > 0 ==> k == |after.taken| - 1 && after.head == |h.stream|)
  {
    hide PlanWithQueue, RealignedSequence, DroppedFrames, CutFrom, Labelled, AllPlayable, SentOf, Wrap;
    var taken := ExpireQueued(h.taken, h.anchor, h.stream, period, h.start, h.head, plan.expiredPeriods);
    NextAfterExpiry(h.anchor + |h.taken|, observed, latency, Periods(|queued|, period), plan);
    SentOfExpired(h.taken, taken);
    StillPlayable(h.taken, taken, latency, false);
    after := h.(taken := taken, head := h.head + DroppedFrames(|queued|, plan.expiredPeriods, period));
  }

  /** The bound on the pointer survives an expiry when there was audio for every
      expired label, or no label has been sent yet. */
  predicate KeepsBound(origin: Option<u64>, expired: nat, queued: nat, period: nat)
    requires period > 0
  {
    origin.None? || expired <= Periods(queued, period)
  }

  lemma ExpiryKeepsBounded(h: History, after: History, next: Option<u64>, expired: u64, later: u64, queued: nat,
                           period: nat, hidden: u64, running: bool, position: u64, origin: Option<u64>)
    requires CleanAgrees(h, next, period, true, hidden, running, position, origin) && period > 0
    requires next.Some? ==> later == WrapAdd(next.value, expired)
    requires after.padding == h.padding && after.head == h.head + DroppedFrames(queued, expired, period)
    requires !after.clean && after.bounded == (h.bounded && KeepsBound(origin, expired, queued, period))
    ensures CleanAgrees(after, Some(later), period, true, hidden, running, position, origin)
  {
    if after.bounded && origin.Some? {
      LabelsGrow(next.value, origin.value, expired, period);
      FramesFitWhenWhole(queued, period, expired);
    }
  }

  /** A PRO expiry ends the run of labels: what follows starts another one, behind the
      dropped frames. */
  lemma StartOver(h: History, queued: seq<Frame>, locked: nat, next: Option<u64>, expired: u64, later: u64, period: nat,
                  sent: seq<Sent>, hidden: u64, running: bool, position: u64, origin: Option<u64>)
    returns (after: History)
    requires FifoAgrees(h, queued, locked) && SentAgrees(h, sent) && period > 0
    requires CleanAgrees(h, next, period, true, hidden, running, position, origin)
    requires next.Some? ==> later == WrapAdd(next.value, expired)
    ensures var frames := DroppedFrames(|queued|, expired, period);
            && after == h.(taken := [], anchor := later, start := h.head + frames, head := h.head + frames,
                           clean := false, sentBefore := sent,
                           bounded := h.bounded && KeepsBound(origin, expired, |queued|, period))
            && FifoAgrees(after, queued[frames..], if frames <= locked then locked - frames else 0)
    ensures LabelsAgree(after, Some(later), period, 0, true) && SentAgrees(after, sent)
    ensures CleanAgrees(after, Some(later), period, true, hidden, running, position, origin)
  {
    hide DroppedFrames, KeepsBound, CleanAgrees, WrapAdd;
    var frames := DroppedFrames(|queued|, expired, period);
    after := h.(taken := [], anchor := later, start := h.head + frames, head := h.head + frames, clean := false,
                sentBefore := sent, bounded := h.bounded && KeepsBound(origin, expired, |queued|, period));
    DropFrontAgrees(h, queued, locked, frames, after);
    ExpiryKeepsBounded(h, after, next, expired, later, |queued|, period, hidden, running, position, origin);
  }

  lemma TakeOne(taken: seq<Period>, anchor: int, stream: seq<Frame>, period: nat, start: nat, head: nat, latency: u64,
                pro: bool, taking: Period)
    requires Labelled(taken, anchor) && CutFrom(taken, stream, period, start, head) && AllPlayable(taken, latency, pro)
    requires head + period <= |stream| && taking.offset == head && taking.frames == stream[head..head + period]
    requires taking.sequence == Wrap(anchor + |taken|) && taking.tail == 0
    requires taking.submitted ==> Playable(taking.sequence, taking.observed, latency, pro)
    ensures Labelled(taken + [taking], anchor) && AllPlayable(taken + [taking], latency, pro)
    ensures CutFrom(taken + [taking], stream, period, start, head + period)
  {
    assert (taken + [taking])[..|taken|] == taken;
  }

  lemma SubmitSends(h: History, sent: seq<Sent>, taking: Period, after: History)
    requires SentAgrees(h, sent) && taking.submitted
    requires after.taken == h.taken + [taking] && after.sentBefore == h.sentBefore
    ensures SentAgrees(after, sent + [Sent(taking.sequence, taking.frames)])
  {
    SentOfOneMore(h.taken, taking);
    var block := [Sent(taking.sequence, taking.frames)];
    assert (h.sentBefore + SentOf(h.taken)) + block == h.sentBefore + (SentOf(h.taken) + block);
  }

  /** The period at the front goes to the daemon. */
  lemma Submit(h: History, queued: seq<Frame>, locked: nat, sequence: u64, period: nat, latency: u64, pro: bool,
               sent: seq<Sent>, observed: u64) returns (after: History)
    requires FifoAgrees(h, queued, locked) && LabelsAgree(h, Some(sequence), period, latency, pro) &&
             SentAgrees(h, sent)
    requires period <= |queued| && Playable(sequence, observed, latency, pro)
    ensures Extends(h, after) && after.head == h.head + period && after.anchor == h.anchor
    ensures after.stream == h.stream && after.padding == h.padding
    ensures after.taken == h.taken + [Period(sequence, true, observed, h.head, queued[..period], 0)]
    ensures LabelsAgree(after, Some(WrapAdd(sequence, 1)), period, latency, pro)
    ensures SentAgrees(after, sent + [Sent(sequence, queued[..period])])
  {
    hide CutFrom, AllPlayable, Playable, SentAgrees, SentOf;
    assert queued[..period] == h.stream[h.head..h.head + period];
    var taking := Period(sequence, true, observed, h.head, queued[..period], 0);
    after := h.(taken := h.taken + [taking], head := h.head + period);
    SubmitSends(h, sent, taking, after);
    CutIsWithin(h.taken, h.stream, period, h.start, h.head);
    TakeOne(h.taken, h.anchor, h.stream, period, h.start, h.head, latency, pro, taking);
    WrapShift(h.anchor + |h.taken|, 1);
  }

  lemma SubmitKeepsClean(h: History, after: History, period: nat, pro: bool, hidden: u64, running: bool, position: u64,
                         origin: Option<u64>, sequence: u64)
    requires CleanAgrees(h, Some(sequence), period, pro, hidden, running, position, origin)
    requires Extends(h, after) && after.head == h.head + period
    requires |after.taken| == |h.taken| + 1
    requires after.taken[|h.taken|].sequence == sequence && after.taken[|h.taken|].submitted
    ensures CleanAgrees(after, Some(WrapAdd(sequence, 1)), period, pro, hidden, running, position,
                        if pro && origin.None? then Some(sequence) else origin)
  {
    LabelsGrow(sequence, if origin.Some? then origin.value else sequence, 1, period);
    assert Frames(1, period) == period && Frames(0, period) == 0;
  }

  /** Queued frames and a rewind change the hidden count by the padding alone. */
  lemma CleanOfQueued(h: History, after: History, next: Option<u64>, period: nat, pro: bool, hidden: u64, running: bool,
                      position: u64, origin: Option<u64>, pads: u64)
    requires CleanAgrees(h, next, period, pro, hidden, running, position, origin)
    requires after.head == h.head && after.taken == h.taken && after.clean == h.clean && after.bounded == h.bounded
    requires CountPadding(after.padding) == CountPadding(h.padding) + pads
    ensures CleanAgrees(after, next, period, pro, WrapAdd(hidden, pads), running, position, origin)
  {
    WrapShift(CountPadding(h.padding), pads);
  }

  lemma {:induction false} CountPaddingAll(count: nat)
    ensures CountPadding(Repeat(true, count)) == count
  {
    CountPaddingAppend([], true, count);
    assert [] + Repeat(true, count) == Repeat(true, count);
  }

  /** A reset drops what is queued; what the daemon owns is hidden from then on. */
  lemma ResetHides(h: History, queued: seq<Frame>, locked: nat, next: Option<u64>, period: nat, latency: u64, pro: bool,
                   sent: seq<Sent>, clean: bool, bounded: bool) returns (after: History)
    requires FifoAgrees(h, queued, locked) && LabelsAgree(h, next, period, latency, pro) && SentAgrees(h, sent)
    ensures after == h.(stream := h.stream[..h.head], padding := Repeat(true, h.head), clean := clean,
                        bounded := bounded)
    ensures FifoAgrees(after, [], 0) && LabelsAgree(after, next, period, latency, pro) && SentAgrees(after, sent)
    ensures after.Accepted() == 0 && CountPadding(after.padding) == h.head
  {
    CountPaddingAll(h.head);
    assert h.stream[..h.head][..h.head] == h.stream[..h.head];
    CutFromSame(h.taken, h.stream, h.stream[..h.head], period, h.start, h.head);
    after := h.(stream := h.stream[..h.head], padding := Repeat(true, h.head), clean := clean, bounded := bounded);
  }

  /** Where the pointer stands, from a PRO stream's origin and the daemon's watermark. */
  function RunningPosition(origin: Option<u64>, watermark: u64, period: nat, position: u64): u64 {
    if origin.None? then position
    else
      var distance := ForwardDistance(origin.value, watermark);
      if distance.None? || Frames(distance.value, period) >= RANGE then position
      else Frames(distance.value, period)
  }

  /** On ideal counts it is the whole periods since the origin, as long as these are in
      order and fit a word; otherwise, and without an origin, it is the stored position. */
  lemma PositionOnCounts(origin: int, now: int, watermark: u64, period: nat, position: u64)
    requires -HALF_RANGE < now - origin < HALF_RANGE
    ensures RunningPosition(Some(Wrap(origin)), Wrap(now), period, position) ==
            if origin <= now && Frames(now - origin, period) < RANGE then Frames(now - origin, period) else position
    ensures RunningPosition(None, watermark, period, position) == position
  {
    OrderOfNearCounts(now, origin);
    if origin <= now {
      WrapDifference(now, origin);
    }
  }

  lemma DistanceFromOrigin(origin: u64, next: u64, watermark: u64)
    requires WrapSub(next, origin) < HALF_RANGE && (watermark == next || IsBefore(watermark, next))
    ensures var distance := ForwardDistance(origin, watermark);
            && (distance.Some? ==> distance.value <= WrapSub(next, origin))
            && (watermark == next ==> distance == Some(WrapSub(next, origin)))
  {
  }

  /** Less than half the range of labels since the origin. */
  predicate Near(origin: Option<u64>, next: Option<u64>) {
    origin.Some? && next.Some? ==> WrapSub(next.value, origin.value) < HALF_RANGE
  }

  /** The raw pointer of a bounded PRO stream stays within what has left the FIFO;
      that of a clean one reaches it with the watermark. */
  lemma RawIsBounded(h: History, next: Option<u64>, period: nat, hidden: u64, position: u64, origin: Option<u64>,
                     watermark: u64)
    requires h.bounded && CleanAgrees(h, next, period, true, hidden, true, position, origin)
    requires h.head < RANGE && Near(origin, next)
    requires next.Some? ==> watermark == next.value || IsBefore(watermark, next.value)
    ensures RunningPosition(origin, watermark, period, position) <= h.head
    ensures h.clean && LabelsAgree(h, next, period, 0, true) && |h.taken| < RANGE &&
            (next.Some? ==> watermark == next.value) ==>
              RunningPosition(origin, watermark, period, position) == h.head
  {
    hide ForwardDistance, IsBefore, CutFrom, AllPlayable;
    if origin.Some? {
      DistanceFromOrigin(origin.value, next.value, watermark);
      var distance := ForwardDistance(origin.value, watermark);
      if distance.Some? {
        FramesGrow(distance.value, WrapSub(next.value, origin.value), period);
      }
      if h.clean && LabelsAgree(h, next, period, 0, true) && |h.taken| < RANGE {
        WrapDifference(h.anchor + |h.taken|, h.anchor);
      }
    }
  }

  /** A bounded PRO stream never reports more than ALSA handed over less what is
      still queued, as long as the watermark has not passed the next label; once
      the FIFO of a clean one is empty and everything submitted has been consumed, it
      reports just what ALSA handed over. */
  lemma PositionIsBounded(h: History, queued: seq<Frame>, locked: nat, next: Option<u64>, period: nat, hidden: u64,
                          position: u64, origin: Option<u64>, watermark: u64)
    requires h.bounded && FifoAgrees(h, queued, locked) && LabelsAgree(h, next, period, 0, true)
    requires CleanAgrees(h, next, period, true, hidden, true, position, origin)
    requires |h.stream| < RANGE && Near(origin, next)
    requires next.Some? ==> watermark == next.value || IsBefore(watermark, next.value)
    ensures var reported := SaturatingSub(RunningPosition(origin, watermark, period, position), hidden);
            var played := h.Accepted() - |queued|;
            && reported <= (if played < 0 then 0 else played)
            && (h.clean && |h.taken| < RANGE && queued == [] && (next.Some? ==> watermark == next.value) ==>
                  reported == h.Accepted())
  {
    hide CutFrom, Labelled, AllPlayable, IsBefore, RunningPosition, LabelsAgree;
    RawIsBounded(h, next, period, hidden, position, origin, watermark);
    CountPaddingBound(h.padding);
  }

  /** From a clean account the bound survives an expiry if and only if there was a
      whole queued period for every expired label. */
  lemma ExpiryKeepsBound(h: History, queued: seq<Frame>, locked: nat, next: u64, expired: u64, period: nat, hidden: u64,
                         position: u64, origin: Option<u64>)
    requires h.clean && FifoAgrees(h, queued, locked) && LabelsAgree(h, Some(next), period, 0, true)
    requires CleanAgrees(h, Some(next), period, true, hidden, true, position, origin)
    requires h.taken != [] && period > 0 && |h.taken| + expired < HALF_RANGE
    requires Frames(|h.taken| + expired, period) < RANGE
    ensures RunningPosition(origin, WrapAdd(next, expired), period, position) <=
            h.head + DroppedFrames(|queued|, expired, period) <==>
            expired <= Periods(|queued|, period)
  {
    hide CutFrom, AllPlayable;
    WrapShift(h.anchor + |h.taken|, expired);
    WrapDifference(h.anchor + |h.taken| + expired, h.anchor);
    DistanceFromOrigin(origin.value, WrapAdd(next, expired), WrapAdd(next, expired));
    FramesAdd(|h.taken|, expired, period);
    FramesFitWhenWhole(|queued|, period, expired);
  }

  /** It fails when one queued period stands for four expired labels: the pointer then
      reaches five frames, and only two have ever been queued. */
  lemma ExpiryMayOverstate()
    ensures var h := History([7, 8], [false, false], 1, 0, [Period(0, true, 0, 0, [7], 0)], 0, true, true, []);
            && FifoAgrees(h, [8], 0) && LabelsAgree(h, Some(1), 1, 0, true)
            && CleanAgrees(h, Some(1), 1, true, 0, true, 0, Some(0))
            && RunningPosition(Some(0), WrapAdd(1, 4), 1, 0) == 5
            && h.head + DroppedFrames(1, 4, 1) == 2
  {
    var taken := [Period(0, true, 0, 0, [7], 0)];
    assert [false, false][..1] == [false] && [false][..0] == [];
    assert CountPadding([false]) == 0 && CountPadding([false, false]) == 0;
    assert CutFrom(taken[..0], [7, 8], 1, 0, 0);
    assert [7, 8][0..1] == [7];
    FramesIsProduct(5, 1);
    FramesIsProduct(4, 1);
    FramesIsProduct(1, 1);
  }

  lemma {:induction false} CountPaddingBound(padding: seq<bool>)
    ensures CountPadding(padding) <= |padding|
  {
    if padding != [] {
      CountPaddingBound(padding[..|padding| - 1]);
    }
  }

  /** Periods that were all submitted leave no gap at all. */
  lemma {:induction false} OffsetOfSubmitted(taken: seq<Period>, stream: seq<Frame>, period: nat, start: nat, head: nat,
                                             k: nat)
    requires CutFrom(taken, stream, period, start, head) && forall j :: 0 <= j < |taken| ==> taken[j].submitted
    ensures head == start + Frames(|taken|, period) <= |stream|
    ensures k < |taken| ==> taken[k].offset == start + Frames(k, period) && taken[k].offset + period <= head
    ensures k < |taken| ==> taken[k].frames == stream[taken[k].offset..taken[k].offset + period]
  {
    if taken != [] {
      OffsetOfSubmitted(taken[..|taken| - 1], stream, period, start, taken[|taken| - 1].offset, k);
    }
  }

  lemma {:induction false} SentOfAllSubmitted(taken: seq<Period>, k: nat)
    requires k < |taken| && forall j :: 0 <= j < |taken| ==> taken[j].submitted
    ensures |SentOf(taken)| == |taken| && SentOf(taken)[k] == Sent(taken[k].sequence, taken[k].frames)
  {
    if |taken| > 1 {
      SentOfAllSubmitted(taken[..|taken| - 1], if k < |taken| - 1 then k else 0);
    }
  }

  /** A clean PRO stream hands the daemon the queued frames without gap, repeat or
      change of order: the k-th block is the k-th period of the stream. */
  lemma ProSendsTheStream(h: History, next: Option<u64>, period: nat, hidden: u64, running: bool, position: u64,
                          origin: Option<u64>, k: nat)
    requires h.clean && LabelsAgree(h, next, period, 0, true) && k < |h.taken|
    requires CleanAgrees(h, next, period, true, hidden, running, position, origin)
    ensures Frames(k, period) + period <= h.head == Frames(|SentOf(h.taken)|, period) && k < |SentOf(h.taken)|
    ensures h.head <= |h.stream|
    ensures SentOf(h.taken)[k] == Sent(Wrap(h.anchor + k), h.stream[Frames(k, period)..Frames(k, period) + period])
  {
    SentOfAllSubmitted(h.taken, k);
    OffsetOfSubmitted(h.taken, h.stream, period, h.start, h.head, k);
    FramesGrow(k, |h.taken|, period);
  }
}
