/** The staged packet cycle of a linked duplex stream: each rendered packet is
    written one hardware period late, chunk by chunk, between capture reads. */
module PacketLoop {
  import opened Sequences
  import opened PeriodMath

  /** A frame on its way to the hardware: silence or start-up filler, or audio that
      the source rendered in some playback epoch. */
  datatype Frame = Filler | Rendered(value: int, epoch: u64)

  datatype Failure = Stopped | Recoverable | Fatal

  /** How the worker ends: between two cycles, stopped inside of one, or with an error.
      The first two are both a normal end. */
  datatype End = Ended | Interrupted | Failed(failure: Failure)

  /** How one call into ALSA, the source or the sink ends, and how far it gets; a
      recovery also tells how much of the capture stream went by meanwhile. */
  datatype Answer = Answer(error: Option<Failure>, count: nat, missed: nat)

  datatype Pending = Pending(hardwareSequence: u64, playbackSequence: u64)

  /** A packet that left a whole cycle behind it. */
  datatype Packet = Packet(sequence: u64, frames: seq<Frame>)

  /** One captured period, under the sequence of the cycle that read it. */
  datatype Capture = Capture(sequence: u64, values: seq<int>)

  /** A capture handed over late, in the cycle that renders `sequence`. */
  datatype Deferred = Deferred(sequence: u64, capture: Capture)

  function Fill(count: nat): (r: seq<Frame>)
    ensures |r| == count && forall i :: 0 <= i < count ==> r[i].Filler?
  {
    seq(count, _ => Filler)
  }

  /** A period that the source rendered in one epoch; what it leaves open is silent. */
  function Period(values: seq<int>, epoch: u64, length: nat): (r: seq<Frame>)
    ensures |r| == length
    ensures forall i :: 0 <= i < |values| && i < length ==> r[i] == Rendered(values[i], epoch)
    ensures forall i :: |values| <= i < length ==> r[i] == Filler
  {
    seq(length, i requires i >= 0 => if i < |values| then Rendered(values[i], epoch) else Filler)
  }

  /** `count` frames of the capture stream from frame `start` on. */
  function Heard(input: nat -> int, start: nat, count: nat): (r: seq<int>)
    ensures |r| == count && forall i :: 0 <= i < count ==> r[i] == input(start + i)
  {
    seq(count, i requires 0 <= i < count => input(start + i))
  }

  lemma HeardJoins(input: nat -> int, start: nat, a: nat, b: nat)
    ensures Heard(input, start, a) + Heard(input, start + a, b) == Heard(input, start, a + b)
  {
  }

  lemma NothingHeard(input: nat -> int, start: nat)
    ensures Heard(input, start, 0) == []
  {
  }

  lemma Associates(a: seq<int>, b: seq<int>, c: seq<int>)
    ensures (a + b) + c == a + (b + c)
  {
  }

  function Flatten(packets: seq<Packet>): seq<Frame> {
    if packets == [] then [] else Flatten(packets[..|packets| - 1]) + packets[|packets| - 1].frames
  }

  lemma FlattenOneMore(packets: seq<Packet>, packet: Packet)
    ensures Flatten(packets + [packet]) == Flatten(packets) + packet.frames
  {
    assert (packets + [packet])[..|packets|] == packets;
  }

  /** What has been written since `base` and the chunk still held back are one
      chunk of filler and then the packets, whole and in order. */
  predicate DelayLine(output: seq<Frame>, base: nat, held: seq<Frame>, packets: seq<Packet>) {
    base <= |output| && output[base..] + held == Fill(|held|) + Flatten(packets)
  }

  lemma DelayLineStarts(output: seq<Frame>, hold: nat)
    ensures DelayLine(output, |output|, Fill(hold), [])
  {
    assert output[|output|..] + Fill(hold) == Fill(hold) + [];
  }

  /** The held chunk is written, and all of the new packet but its last chunk. */
  lemma DelayLineAdvances(output: seq<Frame>, base: nat, held: seq<Frame>, packets: seq<Packet>, packet: Packet)
    requires DelayLine(output, base, held, packets) && |held| <= |packet.frames|
    ensures var cut := |packet.frames| - |held|;
            DelayLine(output + held + packet.frames[..cut], base, packet.frames[cut..], packets + [packet])
  {
    var cut := |packet.frames| - |held|;
    FlattenOneMore(packets, packet);
    calc {
      (output + held + packet.frames[..cut])[base..] + packet.frames[cut..];
      (output[base..] + held) + (packet.frames[..cut] + packet.frames[cut..]);
      { assert packet.frames[..cut] + packet.frames[cut..] == packet.frames; }
      (Fill(|held|) + Flatten(packets)) + packet.frames;
      Fill(|held|) + Flatten(packets + [packet]);
    }
  }

  /** Read off the output: a chunk of filler, then the packets without the last chunk. */
  lemma DelayLineOutput(output: seq<Frame>, base: nat, held: seq<Frame>, packets: seq<Packet>)
    requires DelayLine(output, base, held, packets)
    ensures var all := Fill(|held|) + Flatten(packets);
            |held| <= |all| && output[base..] == all[..|all| - |held|] && held == all[|all| - |held|..]
  {
    var all := Fill(|held|) + Flatten(packets);
    assert |all| == |output[base..]| + |held|;
  }

  /** Every frame is tagged with the number of the epoch read it was written under;
      the tags never fall, and audio is of the epoch that its read returned. */
  predicate EpochsAgree(output: seq<Frame>, tags: seq<nat>, epochs: nat -> u64, bound: nat) {
    && |output| == |tags|
    && (forall i :: 0 <= i < |tags| ==> tags[i] <= bound)
    && (forall i, j :: 0 <= i < j < |tags| ==> tags[i] <= tags[j])
    && (forall i :: 0 <= i < |output| && output[i].Rendered? ==> output[i].epoch == epochs(tags[i]))
  }

  lemma EpochsAgreeLater(output: seq<Frame>, tags: seq<nat>, epochs: nat -> u64, bound: nat, later: nat)
    requires EpochsAgree(output, tags, epochs, bound) && bound <= later
    ensures EpochsAgree(output, tags, epochs, later) && |output| == |tags|
  {
  }

  lemma EpochsAgreeLonger(output: seq<Frame>, tags: seq<nat>, epochs: nat -> u64, frames: seq<Frame>, index: nat)
    requires EpochsAgree(output, tags, epochs, index) && AllOf(frames, epochs(index))
    ensures EpochsAgree(output + frames, tags + seq(|frames|, _ => index), epochs, index)
  {
  }

  /** What has been written since frame `from` was written under one epoch read. */
  predicate Tagged(tags: seq<nat>, from: nat, index: nat) {
    forall i :: from <= i < |tags| ==> tags[i] == index
  }

  predicate AllOf(frames: seq<Frame>, epoch: u64) {
    forall i :: 0 <= i < |frames| && frames[i].Rendered? ==> frames[i].epoch == epoch
  }

  lemma PeriodIsOf(values: seq<int>, epoch: u64, length: nat)
    ensures AllOf(Period(values, epoch, length), epoch)
  {
  }

  lemma AllOfPart(frames: seq<Frame>, from: nat, to: nat, epoch: u64)
    requires AllOf(frames, epoch) && from <= to <= |frames|
    ensures AllOf(frames[from..to], epoch)
  {
  }

  /** Each packet is what the source rendered in its cycle, in the epoch read there:
      the last renderings and epoch reads, one for one. */
  predicate PacketsAgree(packets: seq<Packet>, renders: nat -> seq<int>, rendered: nat, epochs: nat -> u64,
                         readCount: nat, period: nat)
  {
    && |packets| <= rendered && |packets| <= readCount
    && forall k :: 0 <= k < |packets| ==>
         packets[k].frames == Period(renders(rendered - |packets| + k), epochs(readCount - |packets| + k), period)
  }

  lemma PacketsAgreeOneMore(packets: seq<Packet>, renders: nat -> seq<int>, rendered: nat, epochs: nat -> u64,
                            readCount: nat, period: nat, packet: Packet)
    requires PacketsAgree(packets, renders, rendered, epochs, readCount, period)
    requires packet.frames == Period(renders(rendered), epochs(readCount), period)
    ensures PacketsAgree(packets + [packet], renders, rendered + 1, epochs, readCount + 1, period)
  {
  }

  /** Every deferred capture was read in full by an earlier cycle, `lead` before
      the sequence it was handed over for. */
  predicate DeferredAgree(deferred: seq<Deferred>, captures: seq<Capture>, lead: u64) {
    forall d :: 0 <= d < |deferred| ==>
      deferred[d].capture in captures && WrapAdd(deferred[d].capture.sequence, lead) == deferred[d].sequence
  }

  /** However it ends, a cycle captures its own period or nothing. */
  predicate Captures(before: seq<Capture>, after: seq<Capture>, capture: Capture) {
    after == before || after == before + [capture]
  }

  /** And it hands over the capture that waits for it or nothing. */
  predicate HandsOver(before: seq<Deferred>, after: seq<Deferred>, pending: Option<Pending>, sequence: u64,
                      held: Capture)
  {
    after == before || (Waits(pending, sequence) && after == before + [Deferred(sequence, held)])
  }

  /** No call failed from one point of time to another. */
  predicate Clear(answers: nat -> Answer, from: nat, to: nat) {
    forall k :: from <= k < to ==> answers(k).error.None?
  }

  /** A method fails just when its last call did. */
  predicate FailsWith(answers: nat -> Answer, from: nat, to: nat, failure: Option<Failure>) {
    if failure.None? then Clear(answers, from, to) && from <= to
    else from < to && answers(to - 1).error == failure && Clear(answers, from, to - 1)
  }

  lemma FailsAfter(answers: nat -> Answer, from: nat, middle: nat, to: nat, failure: Option<Failure>)
    requires FailsWith(answers, from, middle, None) && FailsWith(answers, middle, to, failure)
    ensures FailsWith(answers, from, to, failure) && from <= to
  {
  }

  lemma NothingFailed(answers: nat -> Answer, from: nat)
    ensures FailsWith(answers, from, from, None)
  {
  }

  lemma OneAnswer(answers: nat -> Answer, at: nat)
    ensures FailsWith(answers, at, at + 1, answers(at).error)
  {
  }

  /** The stop flag was down at every look. */
  predicate Calm(stops: nat -> bool, from: nat, to: nat) {
    from <= to && forall k :: from <= k < to ==> !stops(k)
  }

  /** It was up at the last look, and only there. */
  predicate SeenUp(stops: nat -> bool, from: nat, to: nat) {
    from < to && stops(to - 1) && Calm(stops, from, to - 1)
  }

  /** A method that looks at the flag ends with the failure of its last call, or stopped
      by the flag, or neither happened. */
  predicate Went(answers: nat -> Answer, stops: nat -> bool, from: nat, to: nat, looked: nat, looks: nat,
                 failure: Option<Failure>)
  {
    || (FailsWith(answers, from, to, failure) && Calm(stops, looked, looks))
    || (failure == Some(Stopped) && FailsWith(answers, from, to, None) && SeenUp(stops, looked, looks))
  }

  lemma WentCalmly(answers: nat -> Answer, stops: nat -> bool, from: nat, to: nat, looks: nat, failure: Option<Failure>)
    requires FailsWith(answers, from, to, failure)
    ensures Went(answers, stops, from, to, looks, looks, failure)
  {
  }

  lemma WentAfter(answers: nat -> Answer, stops: nat -> bool, from: nat, middle: nat, to: nat, looked: nat,
                  between: nat, looks: nat, failure: Option<Failure>)
    requires Went(answers, stops, from, middle, looked, between, None)
    requires Went(answers, stops, middle, to, between, looks, failure)
    ensures Went(answers, stops, from, to, looked, looks, failure) && from <= to && looked <= looks
  {
  }

  lemma JoinChunk(frames: seq<Frame>, chunk: nat, size: nat)
    requires Frames(chunk, size) <= |frames|
    ensures chunk > 0 ==>
              frames[..Frames(chunk - 1, size)] + frames[Frames(chunk - 1, size)..Frames(chunk, size)] ==
              frames[..Frames(chunk, size)]
  {
  }

  /** A cycle without a failure extends the delay line by what was rendered in it. */
  lemma Commit(output: seq<Frame>, base: nat, tail: seq<Frame>, packets: seq<Packet>, renders: nat -> seq<int>,
               rendered: nat, epochs: nat -> u64, readCount: nat, period: nat, packet: Packet)
    requires DelayLine(output, base, tail, packets) && |tail| <= period
    requires PacketsAgree(packets, renders, rendered, epochs, readCount, period)
    requires packet.frames == Period(renders(rendered), epochs(readCount), period)
    ensures var cut := period - |tail|;
            && DelayLine(output + tail + packet.frames[..cut], base, packet.frames[cut..], packets + [packet])
            && AllOf(packet.frames[cut..], epochs(readCount))
    ensures PacketsAgree(packets + [packet], renders, rendered + 1, epochs, readCount + 1, period)
  {
    DelayLineAdvances(output, base, tail, packets, packet);
    PacketsAgreeOneMore(packets, renders, rendered, epochs, readCount, period, packet);
  }

  // -------------------------------------------------------------- steady runs

  /** `count` epoch reads from `first` on agree with each other and with what is staged. */
  predicate SameEpoch(staged: Option<u64>, epochs: nat -> u64, first: nat, count: nat) {
    && (forall k :: first <= k < first + count ==> epochs(k) == epochs(first))
    && (count > 0 && staged.Some? ==> staged.value == epochs(first))
  }

  /** Every call that failed was recovered from: its failure is recoverable, and the
      call behind it, the recovery, did not fail. */
  predicate Handled(answers: nat -> Answer, from: nat, to: nat) {
    forall k :: from <= k < to && answers(k).error.Some? ==>
      answers(k).error == Some(Recoverable) && k + 1 < to && answers(k + 1).error.None?
  }

  /** How many calls failed. */
  function Failures(answers: nat -> Answer, from: nat, to: nat): nat {
    if to <= from then 0 else Failures(answers, from, to - 1) + if answers(to - 1).error.Some? then 1 else 0
  }

  lemma {:induction false} NoFailures(answers: nat -> Answer, from: nat, middle: nat, to: nat)
    requires from <= middle <= to && Clear(answers, middle, to)
    ensures Failures(answers, from, to) == Failures(answers, from, middle)
    ensures Handled(answers, from, middle) ==> Handled(answers, from, to)
  {
    if middle < to {
      NoFailures(answers, from, middle, to - 1);
    }
  }

  lemma FailureRecovered(answers: nat -> Answer, from: nat, middle: nat, to: nat)
    requires from <= middle < to && Handled(answers, from, middle) && FailsWith(answers, middle, to, Some(Recoverable))
    ensures Failures(answers, from, to + 1) ==
            Failures(answers, from, middle) + 1 + if answers(to).error.Some? then 1 else 0
    ensures answers(to).error.None? ==> Handled(answers, from, to + 1)
    ensures Handled(answers, from, to - 1)
  {
    NoFailures(answers, from, middle, to - 1);
  }

  /** Among the answers from `from` on every failure is a recoverable one whose recovery
      does not fail, and the stop flag stays down. */
  ghost predicate Mild(answers: nat -> Answer, stops: nat -> bool, from: nat, looked: nat) {
    && (forall k :: k >= from && answers(k).error.Some? ==>
          answers(k).error == Some(Recoverable) && answers(k + 1).error.None?)
    && forall k :: k >= looked ==> !stops(k)
  }

  /** Why a run ended, read off the calls and looks it made. */
  predicate EndsAs(end: End, answers: nat -> Answer, stops: nat -> bool, from: nat, to: nat, looked: nat, looks: nat) {
    match end
    case Ended => Handled(answers, from, to) && (Calm(stops, looked, looks) || SeenUp(stops, looked, looks))
    case Interrupted =>
      || (Handled(answers, from, to) && SeenUp(stops, looked, looks))
      || (from < to && Handled(answers, from, to - 1) && answers(to - 1).error == Some(Stopped) &&
          Calm(stops, looked, looks))
    case Failed(failure) =>
      // A fatal failure of a cycle, or one of the recovery itself.
      && Calm(stops, looked, looks) && from < to && answers(to - 1).error == Some(failure)
      && ((failure == Fatal && Handled(answers, from, to - 1)) ||
          (from < to - 1 && answers(to - 2).error == Some(Recoverable) && Handled(answers, from, to - 2)))
  }

  lemma MildEnds(end: End, answers: nat -> Answer, stops: nat -> bool, from: nat, to: nat, looked: nat, looks: nat)
    requires EndsAs(end, answers, stops, from, to, looked, looks) && Mild(answers, stops, from, looked)
    ensures end == Ended && Calm(stops, looked, looks)
  {
  }

  /** A cycle that fails ends the run, unless the failure is recoverable. */
  lemma CycleEnds(answers: nat -> Answer, stops: nat -> bool, from: nat, middle: nat, to: nat, looked: nat,
                  between: nat, looks: nat, failure: Failure)
    requires from <= middle && Handled(answers, from, middle) && Calm(stops, looked, between)
    requires Went(answers, stops, middle, to, between, looks, Some(failure)) && !failure.Recoverable?
    ensures EndsAs(if failure.Stopped? then Interrupted else Failed(failure), answers, stops, from, to, looked, looks)
  {
    if FailsWith(answers, middle, to, Some(failure)) {
      NoFailures(answers, from, middle, to - 1);
    } else {
      NoFailures(answers, from, middle, to);
    }
  }

  lemma WentClear(answers: nat -> Answer, stops: nat -> bool, from: nat, middle: nat, to: nat, looked: nat,
                  between: nat, looks: nat)
    requires from <= middle && Handled(answers, from, middle) && Calm(stops, looked, between)
    requires Went(answers, stops, middle, to, between, looks, None)
    ensures middle <= to && Handled(answers, from, to) && Calm(stops, looked, looks)
    ensures Failures(answers, from, to) == Failures(answers, from, middle)
  {
    NoFailures(answers, from, middle, to);
  }

  /** After a recoverable failure the recovery decides. */
  lemma WentRecoverable(answers: nat -> Answer, stops: nat -> bool, from: nat, middle: nat, to: nat, looked: nat,
                        between: nat, looks: nat)
    requires from <= middle && Handled(answers, from, middle) && Calm(stops, looked, between)
    requires Went(answers, stops, middle, to, between, looks, Some(Recoverable))
    ensures middle < to && Calm(stops, looked, looks)
    ensures if answers(to).error.None?
            then Handled(answers, from, to + 1) &&
                  Failures(answers, from, to + 1) == Failures(answers, from, middle) + 1
            else EndsAs(Failed(answers(to).error.value), answers, stops, from, to + 1, looked, looks)
  {
    FailureRecovered(answers, from, middle, to);
  }

  lemma EndedHere(answers: nat -> Answer, stops: nat -> bool, from: nat, to: nat, looked: nat, looks: nat)
    requires Handled(answers, from, to) && (Calm(stops, looked, looks) || SeenUp(stops, looked, looks))
    ensures EndsAs(Ended, answers, stops, from, to, looked, looks)
    ensures Clear(answers, from, to) ==> Failures(answers, from, to) == 0
    ensures Mild(answers, stops, from, looked) ==> Calm(stops, looked, looks)
  {
    ClearHasNoFailures(answers, from, to);
  }

  lemma NothingTried(answers: nat -> Answer, at: nat, trail: seq<Snapshot>)
    requires |trail| == 1
    ensures Handled(answers, at, at) && Failures(answers, at, at) == 0 && CleanSteps(trail) == 0
  {
  }

  /** The cycles of a run that left a capture waiting, which are the clean ones. */
  function CleanSteps(trail: seq<Snapshot>): nat {
    if |trail| <= 1 then 0
    else CleanSteps(trail[..|trail| - 1]) + if trail[|trail| - 1].pending.Some? then 1 else 0
  }

  lemma CleanStepsMore(trail: seq<Snapshot>, next: Snapshot)
    requires trail != []
    ensures CleanSteps(trail + [next]) == CleanSteps(trail) + if next.pending.Some? then 1 else 0
  {
    assert (trail + [next])[..|trail|] == trail;
  }

  /** What `count` cycles render, under consecutive sequences. */
  function RenderedPackets(sequence: u64, renders: nat -> seq<int>, rendered: nat, epochs: nat -> u64, readCount: nat,
                           period: nat, count: nat): seq<Packet>
  {
    if count == 0 then []
    else
      var k := count - 1;
      RenderedPackets(sequence, renders, rendered, epochs, readCount, period, k) +
      [Packet(Wrap(sequence + k), Period(renders(rendered + k), epochs(readCount + k), period))]
  }

  /** The capture that the cycle `k` after `sequence` keeps. */
  function HeardCapture(sequence: u64, input: nat -> int, start: nat, period: nat, k: nat): Capture {
    Capture(Wrap(sequence + k), Heard(input, start + Frames(k, period), period))
  }

  /** What `count` cycles capture: consecutive periods of the stream. */
  function HeardCaptures(sequence: u64, input: nat -> int, start: nat, period: nat, count: nat): seq<Capture> {
    if count == 0 then []
    else HeardCaptures(sequence, input, start, period, count - 1) +
         [HeardCapture(sequence, input, start, period, count - 1)]
  }

  /** Captures handed over one cycle after each was read. */
  function HandedOver(sequence: u64, input: nat -> int, start: nat, period: nat, count: nat): seq<Deferred> {
    if count == 0 then []
    else HandedOver(sequence, input, start, period, count - 1) +
         [Deferred(Wrap(sequence + count), HeardCapture(sequence, input, start, period, count - 1))]
  }

  predicate Waits(pending: Option<Pending>, sequence: u64) {
    pending.Some? && pending.value.playbackSequence == sequence
  }

  /** What the sink gets late in `count` steady cycles: what waited before them, and
      with a lead of one period every capture of theirs but the last. */
  function Late(waited: bool, held: Capture, sequence: u64, input: nat -> int, start: nat, period: nat, lead: u64,
                count: nat)
    : seq<Deferred>
  {
    (if waited && count > 0 then [Deferred(sequence, held)] else []) +
    if lead == 1 && count > 0 then HandedOver(sequence, input, start, period, count - 1) else []
  }

  /** One cycle more hands over what waits, just when the lead is one period. */
  lemma LateOneMore(waited: bool, first: Capture, sequence: u64, input: nat -> int, start: nat, period: nat, lead: u64,
                    count: nat, pending: Option<Pending>, held: Capture)
    requires if count == 0 then Waits(pending, sequence) == waited && (waited ==> held == first)
             else && pending == Some(Pending(Wrap(sequence + count - 1), WrapAdd(Wrap(sequence + count - 1), lead)))
                  && held == HeardCapture(sequence, input, start, period, count - 1)
    ensures Late(waited, first, sequence, input, start, period, lead, count + 1) ==
            Late(waited, first, sequence, input, start, period, lead, count) +
            if Waits(pending, Wrap(sequence + count)) then [Deferred(Wrap(sequence + count), held)] else []
  {
    if count > 0 {
      WrapShift(sequence + count - 1, 1);
      assert WrapAdd(Wrap(sequence + count - 1), lead) == WrapAdd(Wrap(sequence + count - 1), 1) <==> lead == 1;
    }
  }

  /** What a steady run moves. */
  datatype Snapshot = Snapshot(sequence: u64, epochReads: nat, rendered: nat, inputRead: nat, base: nat,
                               packets: seq<Packet>, captures: seq<Capture>, deferred: seq<Deferred>,
                               stagedEpoch: Option<u64>, pending: Option<Pending>, held: Capture)

  /** What the source and the capture stream have to offer. */
  datatype World = World(epochs: nat -> u64, renders: nat -> seq<int>, input: nat -> int, period: nat, lead: u64)

  /** `count` steady cycles lead from one state to the other: each read the epoch once,
      rendered once and captured one period, and the delay line runs on. */
  predicate Steady(w: World, a: Snapshot, b: Snapshot, count: nat) {
    && b.sequence == Wrap(a.sequence + count)
    && b.epochReads == a.epochReads + count && b.rendered == a.rendered + count
    && b.inputRead == a.inputRead + Frames(count, w.period) && b.base == a.base
    && b.packets == a.packets +
       RenderedPackets(a.sequence, w.renders, a.rendered, w.epochs, a.epochReads, w.period, count)
    && b.captures == a.captures + HeardCaptures(a.sequence, w.input, a.inputRead, w.period, count)
    && b.deferred == a.deferred +
       Late(Waits(a.pending, a.sequence), a.held, a.sequence, w.input, a.inputRead, w.period, w.lead, count)
    && (if count == 0 then b.stagedEpoch == a.stagedEpoch && b.pending == a.pending && b.held == a.held
        else && b.stagedEpoch == Some(w.epochs(a.epochReads))
             && b.pending == Some(Pending(Wrap(a.sequence + count - 1), WrapAdd(Wrap(a.sequence + count - 1), w.lead)))
             && b.held == HeardCapture(a.sequence, w.input, a.inputRead, w.period, count - 1))
  }

  /** One clean cycle and the step to the next sequence. */
  predicate CleanCycle(w: World, a: Snapshot, b: Snapshot) {
    var epoch := w.epochs(a.epochReads);
    && b.sequence == WrapAdd(a.sequence, 1) && b.epochReads == a.epochReads + 1 && b.rendered == a.rendered + 1
    && b.inputRead == a.inputRead + w.period && b.stagedEpoch == Some(epoch)
    && (a.stagedEpoch.None? || a.stagedEpoch == Some(epoch) ==>
          b.base == a.base &&
          b.packets == a.packets + [Packet(a.sequence, Period(w.renders(a.rendered), epoch, w.period))])
    && b.pending == Some(Pending(a.sequence, WrapAdd(a.sequence, w.lead)))
    && b.held == Capture(a.sequence, Heard(w.input, a.inputRead, w.period)) && b.captures == a.captures + [b.held]
    && b.deferred == a.deferred + if Waits(a.pending, a.sequence) then [Deferred(a.sequence, a.held)] else []
  }

  /** One cycle, however it ends: the only capture it may add is the period of its own
      stretch of the stream, and the only one it may hand over is the one that waits. */
  predicate OneCycle(w: World, a: Snapshot, b: Snapshot) {
    && a.inputRead <= b.inputRead && (b.captures != a.captures ==> a.inputRead + w.period <= b.inputRead)
    && Captures(a.captures, b.captures, Capture(a.sequence, Heard(w.input, a.inputRead, w.period)))
    && HandsOver(a.deferred, b.deferred, a.pending, a.sequence, a.held)
  }

  lemma OneCycleOfParts(w: World, a: Snapshot, b: Snapshot)
    requires a.inputRead <= b.inputRead && (b.captures != a.captures ==> b.inputRead == a.inputRead + w.period)
    requires Captures(a.captures, b.captures, Capture(a.sequence, Heard(w.input, a.inputRead, w.period)))
    requires HandsOver(a.deferred, b.deferred, a.pending, a.sequence, a.held)
    ensures OneCycle(w, a, b)
  {
  }

  /** A cycle that the loop went on after, clean or recovered from: what waits then is
      its own capture or nothing. */
  predicate Follows(w: World, a: Snapshot, b: Snapshot) {
    && OneCycle(w, a, b) && b.sequence == WrapAdd(a.sequence, 1)
    && (b.pending.Some? ==>
          && b.pending.value == Pending(a.sequence, WrapAdd(a.sequence, w.lead))
          && b.captures == a.captures + [b.held])
  }

  predicate AllFollow(w: World, trail: seq<Snapshot>) {
    forall k :: 0 <= k < |trail| - 1 ==> Follows(w, trail[k], trail[k + 1])
  }

  lemma TrailStarts(w: World, a: Snapshot)
    ensures AllFollow(w, [a])
  {
  }

  lemma TrailOneMore(w: World, trail: seq<Snapshot>, next: Snapshot)
    requires trail != [] && AllFollow(w, trail) && Follows(w, trail[|trail| - 1], next)
    ensures AllFollow(w, trail + [next])
  {
  }

  lemma CleanCycleFollows(w: World, a: Snapshot, b: Snapshot)
    requires CleanCycle(w, a, b)
    ensures Follows(w, a, b) && b.pending.Some?
  {
  }

  lemma RecoveredCycleFollows(w: World, a: Snapshot, b: Snapshot, c: Snapshot)
    requires OneCycle(w, a, b) && b.inputRead <= c.inputRead && c.captures == b.captures && c.deferred == b.deferred
    requires c.pending.None? && c.sequence == WrapAdd(a.sequence, 1)
    ensures Follows(w, a, c)
  {
  }

  /** Over any run, with failures and recoveries: what a cycle hands over is the period
      captured in the cycle right before it, in full and under that cycle's sequence,
      whose lead it is. */
  lemma DeferredIsItsCapture(w: World, trail: seq<Snapshot>, k: nat)
    requires AllFollow(w, trail) && 0 < k < |trail| - 1 && trail[k + 1].deferred != trail[k].deferred
    ensures trail[k].captures != [] && trail[k + 1].deferred != []
    ensures var capture := trail[k].captures[|trail[k].captures| - 1];
            && capture == Capture(trail[k - 1].sequence, Heard(w.input, trail[k - 1].inputRead, w.period))
            && trail[k + 1].deferred == trail[k].deferred + [Deferred(trail[k].sequence, capture)]
            && WrapAdd(capture.sequence, w.lead) == trail[k].sequence == WrapAdd(capture.sequence, 1) && w.lead == 1
  {
    hide Heard;
    assert Follows(w, trail[k - 1], trail[k]);
    assert Follows(w, trail[k], trail[k + 1]);
  }

  lemma SteadyStarts(w: World, a: Snapshot)
    ensures Steady(w, a, a, 0)
  {
  }

  lemma SteadyOneMore(w: World, a: Snapshot, b: Snapshot, c: Snapshot, count: nat)
    requires Steady(w, a, b, count) && CleanCycle(w, b, c) &&
             SameEpoch(a.stagedEpoch, w.epochs, a.epochReads, count + 1)
    ensures Steady(w, a, c, count + 1)
  {
    hide Heard, Period, Frames, Late, Waits;
    assert Frames(count + 1, w.period) == Frames(count, w.period) + w.period by {
      FramesOneMore(count, w.period);
    }
    WrapShift(a.sequence + count, 1);
    LateOneMore(Waits(a.pending, a.sequence), a.held, a.sequence, w.input, a.inputRead, w.period, w.lead, count,
                b.pending, b.held);
  }

  lemma FramesOneMore(count: nat, period: nat)
    ensures Frames(count + 1, period) == Frames(count, period) + period
  {
  }

  lemma ClearParts(answers: nat -> Answer, from: nat, middle: nat, to: nat)
    requires from <= middle <= to
    ensures Clear(answers, from, to) ==> Clear(answers, from, middle)
    ensures from == to ==> Clear(answers, from, to)
  {
  }

  lemma FewerReads(staged: Option<u64>, epochs: nat -> u64, first: nat, count: nat)
    requires SameEpoch(staged, epochs, first, count + 1)
    ensures SameEpoch(staged, epochs, first, count)
  {
  }

  lemma {:induction false} ClearHasNoFailures(answers: nat -> Answer, from: nat, to: nat)
    ensures Clear(answers, from, to) <==> Failures(answers, from, to) == 0
  {
    if from < to {
      ClearHasNoFailures(answers, from, to - 1);
    }
  }

  /** What a run has to show after some cycles, between two of them. */
  predicate Progress(w: World, answers: nat -> Answer, stops: nat -> bool, limit: nat, from: nat, to: nat, looked: nat,
                     looks: nat, trail: seq<Snapshot>, processed: nat)
  {
    && from <= to && Calm(stops, looked, looks) && trail != [] && AllFollow(w, trail)
    && Handled(answers, from, to) && |trail| - 1 == processed + Failures(answers, from, to)
    && processed == CleanSteps(trail) <= limit
    && (Clear(answers, from, to) && SameEpoch(trail[0].stagedEpoch, w.epochs, trail[0].epochReads, processed) ==>
          Steady(w, trail[0], trail[|trail| - 1], processed))
  }

  lemma ProgressStarts(w: World, answers: nat -> Answer, stops: nat -> bool, limit: nat, at: nat, looks: nat,
                       a: Snapshot)
    ensures Progress(w, answers, stops, limit, at, at, looks, looks, [a], 0)
  {
    TrailStarts(w, a);
    NothingTried(answers, at, [a]);
    SteadyStarts(w, a);
  }

  lemma ProgressClean(w: World, answers: nat -> Answer, stops: nat -> bool, limit: nat, from: nat, middle: nat, to: nat,
                      looked: nat, between: nat, looks: nat, trail: seq<Snapshot>, processed: nat, next: Snapshot)
    requires Progress(w, answers, stops, limit, from, middle, looked, between, trail, processed) && processed < limit
    requires !stops(between) && Went(answers, stops, middle, to, between + 1, looks, None)
    requires CleanCycle(w, trail[|trail| - 1], next)
    ensures Progress(w, answers, stops, limit, from, to, looked, looks, trail + [next], processed + 1)
  {
    hide Steady, CleanCycle, Follows, SameEpoch, Clear;
    WentClear(answers, stops, from, middle, to, looked, between + 1, looks);
    CleanCycleFollows(w, trail[|trail| - 1], next);
    TrailOneMore(w, trail, next);
    CleanStepsMore(trail, next);
    ClearParts(answers, from, middle, to);
    if Clear(answers, from, to) && SameEpoch(trail[0].stagedEpoch, w.epochs, trail[0].epochReads, processed + 1) {
      FewerReads(trail[0].stagedEpoch, w.epochs, trail[0].epochReads, processed);
      SteadyOneMore(w, trail[0], trail[|trail| - 1], next, processed);
    }
  }

  lemma ProgressRecovered(w: World, answers: nat -> Answer, stops: nat -> bool, limit: nat, from: nat, middle: nat,
                          to: nat, looked: nat, between: nat, looks: nat, trail: seq<Snapshot>, processed: nat,
                          next: Snapshot)
    requires Progress(w, answers, stops, limit, from, middle, looked, between, trail, processed)
    requires !stops(between) && Went(answers, stops, middle, to, between + 1, looks, Some(Recoverable))
    requires answers(to).error.None? && Follows(w, trail[|trail| - 1], next) && next.pending.None?
    ensures Progress(w, answers, stops, limit, from, to + 1, looked, looks, trail + [next], processed)
  {
    hide Steady, Follows, SameEpoch, Clear;
    WentRecoverable(answers, stops, from, middle, to, looked, between + 1, looks);
    TrailOneMore(w, trail, next);
    CleanStepsMore(trail, next);
    ClearHasNoFailures(answers, from, to + 1);
  }

  /** A failure that ends the run, after a recovery that failed or without one. */
  lemma ProgressFails(w: World, answers: nat -> Answer, stops: nat -> bool, limit: nat, from: nat, middle: nat, to: nat,
                      looked: nat, between: nat, looks: nat, trail: seq<Snapshot>, processed: nat, failure: Failure)
    requires Progress(w, answers, stops, limit, from, middle, looked, between, trail, processed) && !stops(between)
    requires Went(answers, stops, middle, to, between + 1, looks, Some(failure))
    ensures var end := if failure.Stopped? then Interrupted else Failed(failure);
            !failure.Recoverable? ==>
              EndsAs(end, answers, stops, from, to, looked, looks) && !Mild(answers, stops, from, looked)
    ensures AllFollow(w, trail) && processed == CleanSteps(trail) <= limit
    ensures failure.Recoverable? && answers(to).error.Some? ==>
              EndsAs(Failed(answers(to).error.value), answers, stops, from, to + 1, looked, looks) &&
              !Mild(answers, stops, from, looked)
  {
    hide Steady, SameEpoch, Clear, EndsAs, Mild, Failures;
    if failure.Recoverable? {
      WentRecoverable(answers, stops, from, middle, to, looked, between + 1, looks);
      if answers(to).error.Some? && Mild(answers, stops, from, looked) {
        MildEnds(Failed(answers(to).error.value), answers, stops, from, to + 1, looked, looks);
      }
    } else {
      var end := if failure.Stopped? then Interrupted else Failed(failure);
      CycleEnds(answers, stops, from, middle, to, looked, between + 1, looks, failure);
      if Mild(answers, stops, from, looked) {
        MildEnds(end, answers, stops, from, to, looked, looks);
      }
    }
  }

  /** It ends normally with what it has to show, with the flag down or up at the last look. */
  lemma ProgressEnds(w: World, answers: nat -> Answer, stops: nat -> bool, limit: nat, from: nat, to: nat, looked: nat,
                     looks: nat, more: nat, trail: seq<Snapshot>, processed: nat)
    requires Progress(w, answers, stops, limit, from, to, looked, looks, trail, processed) && looks <= more <= looks + 1
    ensures EndsAs(Ended, answers, stops, from, to, looked, more)
    ensures |trail| - 1 == processed + Failures(answers, from, to) && processed == CleanSteps(trail) <= limit
    ensures Clear(answers, from, to) ==> Failures(answers, from, to) == 0
    ensures more > looks && stops(looks) ==> !Calm(stops, looked, more) && !Mild(answers, stops, from, looked)
    ensures Clear(answers, from, to) && SameEpoch(trail[0].stagedEpoch, w.epochs, trail[0].epochReads, processed) ==>
              Steady(w, trail[0], trail[|trail| - 1], processed)
    ensures AllFollow(w, trail)
  {
    EndedHere(answers, stops, from, to, looked, more);
  }

  class Loop {
    const hardwarePeriod: nat
    const chunks: nat
    const period: nat
    const lead: u64
    /** How the calls end, in order. */
    const answers: nat -> Answer
    /** What the reads of the source's epoch return, what the source renders call by
        call, and what the capture stream delivers frame by frame. */
    const epochs: nat -> u64
    const renders: nat -> seq<int>
    const input: nat -> int
    /** What the looks at the stop flag show. */
    const stops: nat -> bool
    var tick: nat
    var looks: nat
    var epochReads: nat
    var rendered: nat
    var inputRead: nat
    var output: seq<Frame>
    const playback: array<Frame>
    const capture: array<int>
    var sequence: u64
    var pending: Option<Pending>
    var stagedEpoch: Option<u64>
    /** What the sink has been given late. */
    var deferred: seq<Deferred>

    /** For each output frame, the epoch read it was written under. */
    ghost var tags: seq<nat>
    ghost var captures: seq<Capture>
    /** The packets since the output last started afresh, at frame `base`. */
    ghost var packets: seq<Packet>
    ghost var base: nat
    /** The capture that the scratch buffer holds. */
    ghost var held: Capture
    /** Where the answers stood when playback was last committed. */
    ghost var finished: nat

    ghost predicate Sized() {
      0 < hardwarePeriod && 2 <= chunks && period == Frames(chunks, hardwarePeriod) == playback.Length == capture.Length
    }

    /** The accounts of output and deferred captures, with no epoch read after `bound`. */
    ghost predicate Accounts(bound: nat)
      reads `output, `tags, `deferred, `captures
    {
      EpochsAgree(output, tags, epochs, bound) && DeferredAgree(deferred, captures, lead)
    }

    ghost function Tail(): seq<Frame>
      requires period == playback.Length && hardwarePeriod <= period
      reads playback
    {
      playback[period - hardwarePeriod..]
    }

    ghost predicate Staged()
      reads `output, `stagedEpoch, `packets, `base, `rendered, `epochReads, playback
    {
      && hardwarePeriod <= period == playback.Length
      && DelayLine(output, base, Tail(), packets)
      && PacketsAgree(packets, renders, rendered, epochs, epochReads, period)
      && AllOf(Tail(), if stagedEpoch.Some? then stagedEpoch.value else 0)
      && (stagedEpoch.None? ==> packets == [] && Tail() == Fill(hardwarePeriod))
    }

    ghost predicate PendingAgrees()
      reads `pending, `captures, `held, capture
    {
      pending.Some? ==>
        && held in captures && capture[..] == held.values && pending.value.hardwareSequence == held.sequence
        && pending.value.playbackSequence == WrapAdd(held.sequence, lead)
    }

    ghost predicate Valid()
      reads `output, `tags, `deferred, `captures, `stagedEpoch, `packets, `base, `pending, `held, `rendered, `epochReads
      reads playback, capture
    {
      Sized() && Accounts(epochReads) && Staged() && PendingAgrees()
    }

    constructor (hardwarePeriod: nat, chunks: nat, lead: u64, answers: nat -> Answer, epochs: nat -> u64,
                 renders: nat -> seq<int>, input: nat -> int, stops: nat -> bool)
      requires 0 < hardwarePeriod && 2 <= chunks
      ensures Valid() && output == [] && packets == [] && pending == None && stagedEpoch == None && sequence == 0
      ensures deferred == [] && captures == [] && base == 0
      ensures tick == looks == epochReads == rendered == inputRead == 0
      ensures this.hardwarePeriod == hardwarePeriod && this.chunks == chunks && this.lead == lead
      ensures this.answers == answers && this.epochs == epochs && this.renders == renders && this.input == input
      ensures this.stops == stops && fresh(playback) && fresh(capture)
    {
      this.hardwarePeriod, this.chunks, this.lead := hardwarePeriod, chunks, lead;
      this.answers, this.epochs, this.renders, this.input, this.stops := answers, epochs, renders, input, stops;
      period := Frames(chunks, hardwarePeriod);
      playback := new Frame[Frames(chunks, hardwarePeriod)](_ => Filler);
      capture := new int[Frames(chunks, hardwarePeriod)](_ => 0);
      tick, looks, epochReads, rendered, inputRead := 0, 0, 0, 0, 0;
      output, sequence, pending, stagedEpoch, deferred := [], 0, None, None, [];
      tags, captures, packets, base, held, finished := [], [], [], 0, Capture(0, []), 0;
      new;
      FramesGrow(1, chunks, hardwarePeriod);
      assert Tail() == Fill(hardwarePeriod);
      DelayLineStarts([], hardwarePeriod);
    }

    method NextAnswer() returns (answer: Answer)
      modifies `tick
      ensures answer == answers(old(tick)) && tick == old(tick) + 1
    {
      answer := answers(tick);
      tick := tick + 1;
    }

    method Look() returns (stop: bool)
      modifies `looks
      ensures stop == stops(old(looks)) && looks == old(looks) + 1
    {
      stop := stops(looks);
      looks := looks + 1;
    }

    /** Everything the hardware gets goes through here, tagged with the last epoch read. */
    method Write(frames: seq<Frame>, ghost index: nat)
      requires EpochsAgree(output, tags, epochs, index) && AllOf(frames, epochs(index))
      modifies `output, `tags
      ensures EpochsAgree(output, tags, epochs, index) && output == old(output) + frames && old(tags) <= tags
      ensures forall from: nat :: Tagged(old(tags), from, index) ==> Tagged(tags, from, index)
    {
      EpochsAgreeLonger(output, tags, epochs, frames, index);
      output := output + frames;
      tags := tags + seq(|frames|, _ => index);
    }

    /** Writes one chunk of the scratch buffer, in as many pieces as the ring takes; a
        failure leaves a prefix of it written. */
    method WriteChunk(chunk: nat, ghost index: nat, ghost from: nat) returns (failure: Option<Failure>)
      requires Accounts(index) && period == playback.Length && Frames(chunk, hardwarePeriod) + hardwarePeriod <= period
      requires AllOf(playback[Frames(chunk, hardwarePeriod)..Frames(chunk, hardwarePeriod) + hardwarePeriod],
                     epochs(index))
      requires Tagged(tags, from, index)
      modifies `tick, `output, `tags
      ensures Accounts(index) && old(output) <= output && old(tags) <= tags && Tagged(tags, from, index)
      ensures FailsWith(answers, old(tick), tick, failure)
      ensures var frames := playback[Frames(chunk, hardwarePeriod)..Frames(chunk, hardwarePeriod) + hardwarePeriod];
              if failure.None? then output == old(output) + frames else output[|old(output)|..] <= frames
      ensures failure.None? && 0 < hardwarePeriod ==> old(tick) < tick
    {
      hide EpochsAgree, DeferredAgree, AllOf, Tagged, Frames;
      var frames := playback[Frames(chunk, hardwarePeriod)..Frames(chunk, hardwarePeriod) + hardwarePeriod];
      var done := 0;
      while done < |frames|
        invariant done <= |frames| && Accounts(index) && old(tags) <= tags && Tagged(tags, from, index)
        invariant output == old(output) + frames[..done]
        invariant old(tick) + (if done > 0 then 1 else 0) <= tick && Clear(answers, old(tick), tick)
      {
        var answer := NextAnswer();
        if answer.error.Some? {
          return answer.error;
        }
        var piece := Min(answer.count + 1, |frames| - done);
        AllOfPart(frames, done, done + piece, epochs(index));
        Write(frames[done..done + piece], index);
        assert frames[..done] + frames[done..done + piece] == frames[..done + piece];
        done := done + piece;
      }
      assert frames[..|frames|] == frames;
      return None;
    }

    method FillSilence()
      requires period == playback.Length
      modifies playback
      ensures playback[..] == Fill(period)
    {
      forall i | 0 <= i < period {
        playback[i] := Filler;
      }
    }

    /** Reads the epoch; what was rendered in another one is not written. */
    method BeginCycle() returns (epoch: u64, failure: Option<Failure>)
      requires Valid()
      modifies `tick, `epochReads, `base, `packets, playback
      ensures FailsWith(answers, old(tick), tick, failure)
      ensures failure.Some? ==> epochReads == old(epochReads)
      ensures failure.None? ==> tick == old(tick) + 2
      ensures failure.None? ==>
                && epochReads == old(epochReads) + 1 && epoch == epochs(old(epochReads))
                && DelayLine(output, base, Tail(), packets) && AllOf(Tail(), epoch)
                && PacketsAgree(packets, renders, rendered, epochs, old(epochReads), period)
                && (if old(stagedEpoch).None? || old(stagedEpoch) == Some(epoch)
                    then base == old(base) && packets == old(packets)
                    else base == |output| && packets == [])
    {
      hide EpochsAgree, DeferredAgree, PendingAgrees;
      epoch := 0;
      var begun := NextAnswer();
      if begun.error.Some? {
        return epoch, begun.error;
      }
      var read := NextAnswer();
      if read.error.Some? {
        return epoch, read.error;
      }
      epoch := epochs(epochReads);
      epochReads := epochReads + 1;
      if stagedEpoch.Some? && stagedEpoch.value != epoch {
        FillSilence();
        assert Tail() == Fill(hardwarePeriod);
        DelayLineStarts(output, hardwarePeriod);
        base, packets := |output|, [];
      }
      return epoch, None;
    }

    /** Writes the chunk held back by the last cycle, unless its epoch has passed. */
    method WriteHeld() returns (epoch: u64, ghost tail: seq<Frame>, failure: Option<Failure>)
      requires Valid()
      modifies `tick, `epochReads, `base, `packets, `output, `tags, playback
      ensures FailsWith(answers, old(tick), tick, failure)
      ensures old(epochReads) <= epochReads && Accounts(old(epochReads)) && PendingAgrees()
      ensures old(output) <= output && old(tags) <= tags && Tagged(tags, |old(output)|, old(epochReads))
      ensures failure.None? ==> old(tick) + 4 <= tick
      ensures failure.None? ==>
                && epochReads == old(epochReads) + 1 && epoch == epochs(old(epochReads))
                && |tail| == hardwarePeriod && output == old(output) + tail
                && DelayLine(old(output), base, tail, packets)
                && PacketsAgree(packets, renders, rendered, epochs, old(epochReads), period)
                && (if old(stagedEpoch).None? || old(stagedEpoch) == Some(epoch)
                    then base == old(base) && packets == old(packets)
                    else base == |old(output)| && packets == [])
    {
      hide EpochsAgree, DeferredAgree, AllOf, DelayLine, PacketsAgree;
      tail := [];
      EpochsAgreeLater(output, tags, epochs, epochReads, epochReads);
      epoch, failure := BeginCycle();
      if failure.Some? {
        return;
      }
      var prepared := NextAnswer();
      if prepared.error.Some? {
        failure := prepared.error;
        return;
      }
      tail := Tail();
      LastChunk();
      ghost var middle := tick;
      failure := WriteChunk(chunks - 1, old(epochReads), |output|);
      FailsAfter(answers, old(tick), middle, tick, failure);
    }

    lemma LastChunk()
      requires Sized()
      ensures hardwarePeriod <= period && Frames(chunks - 1, hardwarePeriod) + hardwarePeriod == period
      ensures playback[Frames(chunks - 1, hardwarePeriod)..period] == Tail()
    {
    }

    /** Renders the packet of this cycle; a capture that waited for it is handed
        over behind it. */
    method Render(epoch: u64) returns (failure: Option<Failure>)
      requires Sized() && PendingAgrees() && DeferredAgree(deferred, captures, lead)
      modifies `tick, `rendered, `pending, `deferred, playback
      ensures FailsWith(answers, old(tick), tick, failure)
      ensures DeferredAgree(deferred, captures, lead)
      ensures HandsOver(old(deferred), deferred, old(pending), sequence, held)
      ensures failure.None? ==> tick == old(tick) + if Waits(old(pending), sequence) then 3 else 1
      ensures failure.None? ==>
                && rendered == old(rendered) + 1 && playback[..] == Period(renders(old(rendered)), epoch, period)
                && deferred == old(deferred) +
                   if Waits(old(pending), sequence) then [Deferred(sequence, held)] else []
    {
      FillSilence();
      assert pending.Some? ==> capture[..] == held.values;
      var current := None;
      if pending.Some? && pending.value.playbackSequence == sequence {
        current, pending := pending, None;
        var waited := NextAnswer();
        if waited.error.Some? {
          return waited.error;
        }
      }
      var answer := NextAnswer();
      if answer.error.Some? {
        return answer.error;
      }
      var values := renders(rendered);
      rendered := rendered + 1;
      forall i | 0 <= i < period && i < |values| {
        playback[i] := Rendered(values[i], epoch);
      }
      assert current.Some? ==> capture[..] == held.values;
      if current.Some? {
        var handed := NextAnswer();
        if handed.error.Some? {
          return handed.error;
        }
        deferred := deferred + [Deferred(sequence, Capture(current.value.hardwareSequence, capture[..]))];
      }
      return None;
    }

    /** Copies the next `piece` frames of the stream to the capture buffer. */
    method ReadPiece(at: nat, piece: nat)
      requires at + piece <= capture.Length
      modifies `inputRead, capture
      ensures inputRead == old(inputRead) + piece
      ensures capture[..at + piece] == old(capture[..at]) + Heard(input, old(inputRead), piece)
    {
      forall i | 0 <= i < piece {
        capture[at + i] := input(inputRead + i);
      }
      inputRead := inputRead + piece;
    }

    /** Fills one chunk of the capture buffer from the stream, in as many pieces as
        there are frames available. */
    method ReadChunk(chunk: nat) returns (failure: Option<Failure>)
      requires Frames(chunk, hardwarePeriod) + hardwarePeriod <= capture.Length
      modifies `tick, `inputRead, capture
      ensures FailsWith(answers, old(tick), tick, failure)
      ensures old(inputRead) <= inputRead <= old(inputRead) + hardwarePeriod
      ensures failure.None? && 0 < hardwarePeriod ==> old(tick) < tick
      ensures failure.None? ==>
                var start := Frames(chunk, hardwarePeriod);
                && inputRead == old(inputRead) + hardwarePeriod
                && capture[..start + hardwarePeriod] ==
                     old(capture[..start]) + Heard(input, old(inputRead), hardwarePeriod)
    {
      hide Frames, Heard, Clear, FailsWith;
      var start := Frames(chunk, hardwarePeriod);
      ghost var before := capture[..start];
      var done := 0;
      NothingHeard(input, inputRead);
      NothingFailed(answers, tick);
      while done < hardwarePeriod
        invariant done <= hardwarePeriod && inputRead == old(inputRead) + done
        invariant capture[..start + done] == before + Heard(input, old(inputRead), done)
        invariant FailsWith(answers, old(tick), tick, None) && old(tick) + (if done > 0 then 1 else 0) <= tick
      {
        ghost var middle := tick;
        var answer := NextAnswer();
        OneAnswer(answers, middle);
        FailsAfter(answers, old(tick), middle, tick, answer.error);
        if answer.error.Some? {
          return answer.error;
        }
        var piece := Min(answer.count + 1, hardwarePeriod - done);
        HeardJoins(input, old(inputRead), done, piece);
        Associates(before, Heard(input, old(inputRead), done), Heard(input, inputRead, piece));
        ReadPiece(start + done, piece);
        done := done + piece;
      }
      return None;
    }

    /** The sink gets the captured period; it is also kept for the cycle that
        renders what it plays against. */
    method KeepCapture() returns (failure: Option<Failure>)
      requires DeferredAgree(deferred, captures, lead)
      modifies `tick, `pending, `captures, `held
      ensures FailsWith(answers, old(tick), tick, failure) && DeferredAgree(deferred, captures, lead)
      ensures failure.Some? ==> captures == old(captures) && pending == old(pending) && held == old(held)
      ensures failure.None? ==> tick == old(tick) + 1
      ensures failure.None? ==>
                && PendingAgrees() && pending == Some(Pending(sequence, WrapAdd(sequence, lead)))
                && held == Capture(sequence, capture[..]) && captures == old(captures) + [held]
    {
      var answer := NextAnswer();
      if answer.error.Some? {
        return answer.error;
      }
      held := Capture(sequence, capture[..]);
      captures := captures + [held];
      pending := Some(Pending(sequence, WrapAdd(sequence, lead)));
      return None;
    }

    /** Writes the chunk before this one, if there is one. */
    method WriteBefore(chunk: nat, ghost index: nat, ghost from: nat) returns (failure: Option<Failure>)
      requires Sized() && chunk < chunks && Accounts(index) && AllOf(playback[..], epochs(index)) &&
               Tagged(tags, from, index)
      modifies `tick, `output, `tags
      ensures Accounts(index) && old(output) <= output && old(tags) <= tags && Tagged(tags, from, index)
      ensures FailsWith(answers, old(tick), tick, failure)
      ensures Frames(chunk, hardwarePeriod) + hardwarePeriod <= period
      ensures failure.None? && chunk == 0 ==> output == old(output)
      ensures failure.None? && chunk > 0 ==>
                output == old(output) + playback[Frames(chunk - 1, hardwarePeriod)..Frames(chunk, hardwarePeriod)]
    {
      hide EpochsAgree, DeferredAgree, AllOf, Tagged;
      FramesGrow(chunk, chunks, hardwarePeriod);
      failure := None;
      if chunk > 0 {
        var start := Frames(chunk - 1, hardwarePeriod);
        AllOfPart(playback[..], start, start + hardwarePeriod, epochs(index));
        assert playback[..][start..start + hardwarePeriod] == playback[start..start + hardwarePeriod];
        failure := WriteChunk(chunk - 1, index, from);
      }
    }

    /** Writes the chunk before this one and reads this one. */
    method TransferChunk(chunk: nat, ghost index: nat, ghost from: nat) returns (failure: Option<Failure>)
      requires Sized() && chunk < chunks && Accounts(index) && AllOf(playback[..], epochs(index)) &&
               Tagged(tags, from, index)
      modifies `tick, `inputRead, `output, `tags, capture
      ensures Accounts(index) && old(output) <= output && old(tags) <= tags && Tagged(tags, from, index)
      ensures FailsWith(answers, old(tick), tick, failure) && old(inputRead) <= inputRead
      ensures var start := Frames(chunk, hardwarePeriod);
              && start + hardwarePeriod <= period
              && (failure.None? ==>
                    && output == old(output) +
                       (if chunk == 0 then [] else playback[Frames(chunk - 1, hardwarePeriod)..start])
                    && inputRead == old(inputRead) + hardwarePeriod
                    && capture[..start + hardwarePeriod] ==
                       old(capture[..start]) + Heard(input, old(inputRead), hardwarePeriod))
    {
      hide EpochsAgree, DeferredAgree, AllOf, Tagged, Clear, FailsWith, Heard;
      failure := WriteBefore(chunk, index, from);
      if failure.Some? {
        return;
      }
      ghost var middle := tick;
      failure := ReadChunk(chunk);
      FailsAfter(answers, old(tick), middle, tick, failure);
    }

    /** After the last chunk the capture is kept; then the stop flag is looked at. */
    method EndChunk(chunk: nat) returns (failure: Option<Failure>)
      requires Sized() && chunk < chunks && DeferredAgree(deferred, captures, lead)
      modifies `tick, `looks, `pending, `captures, `held
      ensures Went(answers, stops, old(tick), tick, old(looks), looks, failure)
      ensures DeferredAgree(deferred, captures, lead)
      ensures chunk + 1 < chunks ==> captures == old(captures)
      ensures Captures(old(captures), captures, Capture(sequence, capture[..period]))
      ensures failure.None? ==> looks == old(looks) + 1
      ensures failure.None? && chunk + 1 == chunks ==>
                && PendingAgrees() && pending == Some(Pending(sequence, WrapAdd(sequence, lead)))
                && held == Capture(sequence, capture[..period]) && captures == old(captures) + [held]
    {
      if chunk + 1 == chunks {
        assert capture[..period] == capture[..];
        failure := KeepCapture();
        if failure.Some? {
          return;
        }
      }
      var stop := Look();
      return if stop then Some(Stopped) else None;
    }

    /** One chunk written, the next one read, and the end of it. */
    method TransferStep(chunk: nat, ghost index: nat, ghost from: nat) returns (failure: Option<Failure>)
      requires Sized() && chunk < chunks && Accounts(index) && AllOf(playback[..], epochs(index)) &&
               Tagged(tags, from, index)
      modifies `tick, `looks, `inputRead, `output, `tags, `pending, `captures, `held, capture
      ensures Accounts(index) && old(output) <= output && old(tags) <= tags && Tagged(tags, from, index)
      ensures Went(answers, stops, old(tick), tick, old(looks), looks, failure) && old(inputRead) <= inputRead
      ensures var start := Frames(chunk, hardwarePeriod);
              && start + hardwarePeriod <= period
              && (failure.None? || captures != old(captures) ==>
                    && inputRead == old(inputRead) + hardwarePeriod
                    && capture[..start + hardwarePeriod] ==
                       old(capture[..start]) + Heard(input, old(inputRead), hardwarePeriod))
              && (failure.None? ==>
                    output == old(output) +
                    if chunk == 0 then [] else playback[Frames(chunk - 1, hardwarePeriod)..start])
      ensures captures == old(captures) ||
              (chunk + 1 == chunks && captures == old(captures) + [Capture(sequence, capture[..period])])
      ensures failure.None? ==> looks == old(looks) + 1
      ensures failure.None? && chunk + 1 == chunks ==>
                && PendingAgrees() && pending == Some(Pending(sequence, WrapAdd(sequence, lead)))
                && held == Capture(sequence, capture[..period]) && captures == old(captures) + [held]
    {
      hide EpochsAgree, DeferredAgree, AllOf, Tagged, Clear, FailsWith, PendingAgrees, Heard;
      hide Went, Calm;
      failure := TransferChunk(chunk, index, from);
      WentCalmly(answers, stops, old(tick), tick, looks, failure);
      if failure.None? {
        ghost var middle := tick;
        failure := EndChunk(chunk);
        WentAfter(answers, stops, old(tick), middle, tick, old(looks), old(looks), looks, failure);
      }
    }

    /** Alternates writing a chunk and reading one; the last chunk stays behind, and
        the period read is the next one of the capture stream. */
    method Transfer(ghost index: nat, ghost from: nat) returns (failure: Option<Failure>)
      requires Sized() && Accounts(index) && AllOf(playback[..], epochs(index)) && Tagged(tags, from, index)
      modifies `tick, `looks, `inputRead, `output, `tags, `pending, `captures, `held, capture
      ensures Accounts(index) && old(output) <= output && old(tags) <= tags && Tagged(tags, from, index)
      ensures Went(answers, stops, old(tick), tick, old(looks), looks, failure)
      ensures old(inputRead) <= inputRead && (captures != old(captures) ==> inputRead == old(inputRead) + period)
      ensures Captures(old(captures), captures, Capture(sequence, Heard(input, old(inputRead), period)))
      ensures failure.None? ==> looks == old(looks) + chunks
      ensures failure.None? ==>
                && hardwarePeriod <= period && output == old(output) + playback[..period - hardwarePeriod]
                && inputRead == old(inputRead) + period
                && PendingAgrees() && pending == Some(Pending(sequence, WrapAdd(sequence, lead)))
                && held == Capture(sequence, Heard(input, old(inputRead), period)) && captures == old(captures) + [held]
    {
      hide EpochsAgree, DeferredAgree, AllOf, Tagged, Clear, FailsWith, PendingAgrees, Heard, Went, Calm;
      ghost var frames := playback[..];
      NothingFailed(answers, tick);
      WentCalmly(answers, stops, tick, tick, looks, None);
      for chunk := 0 to chunks
        invariant Accounts(index) && old(output) <= output && old(tags) <= tags && Tagged(tags, from, index)
        invariant Went(answers, stops, old(tick), tick, old(looks), looks, None) && looks == old(looks) + chunk
        invariant playback[..] == frames
        invariant Frames(chunk, hardwarePeriod) <= period
        invariant output == old(output) + if chunk == 0 then [] else frames[..Frames(chunk - 1, hardwarePeriod)]
        invariant capture[..Frames(chunk, hardwarePeriod)] ==
                    Heard(input, old(inputRead), Frames(chunk, hardwarePeriod))
        invariant inputRead == old(inputRead) + Frames(chunk, hardwarePeriod)
        invariant chunk < chunks ==> captures == old(captures)
        invariant chunk == chunks ==>
                    && PendingAgrees() && pending == Some(Pending(sequence, WrapAdd(sequence, lead)))
                    && held == Capture(sequence, Heard(input, old(inputRead), period))
                    && captures == old(captures) + [held]
      {
        ghost var middle, between := tick, looks;
        failure := TransferStep(chunk, index, from);
        WentAfter(answers, stops, old(tick), middle, tick, old(looks), between, looks, failure);
        HeardJoins(input, old(inputRead), Frames(chunk, hardwarePeriod), hardwarePeriod);
        if failure.Some? {
          return;
        }
        JoinChunk(frames, chunk, hardwarePeriod);
      }
      return None;
    }

    /** Renders the packet, and transfers it while the next period is captured. */
    method Produce(epoch: u64, ghost index: nat, ghost from: nat) returns (failure: Option<Failure>)
      requires Sized() && PendingAgrees() && Accounts(index) && Tagged(tags, from, index) && epoch == epochs(index)
      modifies `tick, `looks, `rendered, `inputRead, `output, `tags, `pending, `deferred, `captures, `held, playback,
               capture
      ensures Went(answers, stops, old(tick), tick, old(looks), looks, failure)
      ensures Accounts(index) && old(output) <= output && old(tags) <= tags && Tagged(tags, from, index)
      ensures old(inputRead) <= inputRead && (captures != old(captures) ==> inputRead == old(inputRead) + period)
      ensures Captures(old(captures), captures, Capture(sequence, Heard(input, old(inputRead), period)))
      ensures HandsOver(old(deferred), deferred, old(pending), sequence, old(held))
      ensures failure.None? ==> looks == old(looks) + chunks
      ensures failure.None? ==>
                && rendered == old(rendered) + 1 && inputRead == old(inputRead) + period && hardwarePeriod <= period
                && playback[..] == Period(renders(old(rendered)), epoch, period)
                && output == old(output) + playback[..][..period - hardwarePeriod]
                && Tail() == playback[..][period - hardwarePeriod..]
      ensures failure.None? ==>
                && PendingAgrees() && pending == Some(Pending(sequence, WrapAdd(sequence, lead)))
                && held == Capture(sequence, Heard(input, old(inputRead), period)) && captures == old(captures) + [held]
                && deferred == old(deferred) +
                   if Waits(old(pending), sequence) then [Deferred(sequence, old(held))] else []
    {
      hide EpochsAgree, DeferredAgree, AllOf, Tagged, Clear, FailsWith, Heard, PendingAgrees, Went, Calm;
      failure := Render(epoch);
      WentCalmly(answers, stops, old(tick), tick, looks, failure);
      if failure.Some? {
        return;
      }
      PeriodIsOf(renders(old(rendered)), epoch, period);
      ghost var middle := tick;
      failure := Transfer(index, from);
      WentAfter(answers, stops, old(tick), middle, tick, old(looks), old(looks), looks, failure);
      if failure.None? {
        assert playback[..period - hardwarePeriod] == playback[..][..period - hardwarePeriod];
      }
    }

    method Finish() returns (failure: Option<Failure>)
      modifies `tick, `finished
      ensures FailsWith(answers, old(tick), tick, failure) && finished == tick == old(tick) + 1
    {
      var answer := NextAnswer();
      finished := tick;
      return answer.error;
    }

    /** The held chunk, the new packet and the next captured period, up to staging. */
    method WriteAndProduce() returns (epoch: u64, ghost tail: seq<Frame>, failure: Option<Failure>)
      requires Valid()
      modifies `tick, `looks, `epochReads, `rendered, `inputRead, `output, `tags, `pending, `deferred, `captures, `held
      modifies `base, `packets, playback, capture
      ensures Went(answers, stops, old(tick), tick, old(looks), looks, failure)
      ensures Sized() && old(epochReads) <= epochReads && Accounts(epochReads)
      ensures old(output) <= output && old(tags) <= tags && Tagged(tags, |old(output)|, old(epochReads))
      ensures old(inputRead) <= inputRead && (captures != old(captures) ==> inputRead == old(inputRead) + period)
      ensures Captures(old(captures), captures, Capture(sequence, Heard(input, old(inputRead), period)))
      ensures HandsOver(old(deferred), deferred, old(pending), sequence, old(held))
      ensures failure.None? ==> looks == old(looks) + chunks
      ensures failure.None? ==>
                && epochReads == old(epochReads) + 1 && epoch == epochs(old(epochReads))
                && rendered == old(rendered) + 1 && inputRead == old(inputRead) + period
                && |tail| == hardwarePeriod <= period && DelayLine(old(output), base, tail, packets)
                && PacketsAgree(packets, renders, old(rendered), epochs, old(epochReads), period)
                && playback[..] == Period(renders(old(rendered)), epoch, period)
                && output == old(output) + tail + playback[..][..period - hardwarePeriod]
                && Tail() == playback[..][period - hardwarePeriod..]
                && (if old(stagedEpoch).None? || old(stagedEpoch) == Some(epoch)
                    then base == old(base) && packets == old(packets)
                    else base == |old(output)| && packets == [])
      ensures failure.None? ==>
                && PendingAgrees() && pending == Some(Pending(sequence, WrapAdd(sequence, lead)))
                && held == Capture(sequence, Heard(input, old(inputRead), period)) && captures == old(captures) + [held]
                && deferred == old(deferred) +
                   if Waits(old(pending), sequence) then [Deferred(sequence, old(held))] else []
    {
      hide Valid, Accounts, Sized, DelayLine, Tagged, PacketsAgree, FailsWith, Heard, PendingAgrees, Waits, Period;
      hide Went, Calm;
      ValidIsSized();
      ghost var index, from := epochReads, |output|;
      epoch, tail, failure := WriteHeld();
      WentCalmly(answers, stops, old(tick), tick, looks, failure);
      if failure.None? {
        ghost var middle := tick;
        failure := Produce(epoch, index, from);
        WentAfter(answers, stops, old(tick), middle, tick, old(looks), old(looks), looks, failure);
      }
      AccountsLater(index, epochReads);
    }

    /** The packet is staged: its last chunk waits for the next cycle. */
    method Stage(epoch: u64, ghost index: nat, ghost before: seq<Frame>, ghost tail: seq<Frame>)
      requires Sized() && Accounts(epochReads) && PendingAgrees() && epochReads == index + 1 && rendered > 0
      requires epoch == epochs(index) && |tail| == hardwarePeriod <= period
      requires DelayLine(before, base, tail, packets)
      requires PacketsAgree(packets, renders, rendered - 1, epochs, index, period)
      requires playback[..] == Period(renders(rendered - 1), epoch, period)
      requires output == before + tail + playback[..][..period - hardwarePeriod]
      requires Tail() == playback[..][period - hardwarePeriod..]
      modifies `stagedEpoch, `packets
      ensures Valid() && stagedEpoch == Some(epoch) && packets == old(packets) + [Packet(sequence, playback[..])]
    {
      hide EpochsAgree, DeferredAgree, AllOf, DelayLine, PacketsAgree, PendingAgrees;
      ghost var packet := Packet(sequence, playback[..]);
      Commit(before, base, tail, packets, renders, rendered - 1, epochs, index, period, packet);
      packets := packets + [packet];
      stagedEpoch := Some(epoch);
    }

    lemma AccountsLater(bound: nat, later: nat)
      requires Accounts(bound) && bound <= later
      ensures Accounts(later)
    {
    }

    lemma ValidIsSized()
      requires Valid()
      ensures Sized() && Accounts(epochReads) && PendingAgrees()
    {
    }

    /** One cycle. Without a failure the chunk held back has been written, then all
        of this cycle's packet but its last chunk: the packet is what the source
        rendered in the epoch just read, and the capture kept is the next period of
        the capture stream. */
    method Cycle() returns (epoch: u64, failure: Option<Failure>)
      requires Valid()
      modifies this, playback, capture
      ensures sequence == old(sequence) && Went(answers, stops, old(tick), tick, old(looks), looks, failure)
      ensures Sized() && old(epochReads) <= epochReads && Accounts(epochReads)
      ensures old(output) <= output && old(tags) <= tags && Tagged(tags, |old(output)|, old(epochReads))
      ensures OneCycle(Offers(), old(Snap()), Snap())
      ensures failure.None? ==> looks == old(looks) + chunks
      ensures failure.None? ==>
                && Valid() && epoch == epochs(old(epochReads)) && stagedEpoch == Some(epoch)
                && epochReads == old(epochReads) + 1 && rendered == old(rendered) + 1
                && inputRead == old(inputRead) + period && finished == tick
      ensures failure.None? ==>
                var same := old(stagedEpoch).None? || old(stagedEpoch) == Some(epoch);
                && packets == (if same then old(packets) else []) +
                   [Packet(sequence, Period(renders(old(rendered)), epoch, period))]
                && base == (if same then old(base) else |old(output)|)
      ensures failure.None? ==>
                && pending == Some(Pending(sequence, WrapAdd(sequence, lead)))
                && held == Capture(sequence, Heard(input, old(inputRead), period)) && captures == old(captures) + [held]
                && deferred == old(deferred) +
                   if Waits(old(pending), sequence) then [Deferred(sequence, old(held))] else []
    {
      hide Valid, Accounts, Sized, DelayLine, Tagged, PacketsAgree, FailsWith, Heard, PendingAgrees, Waits, Period;
      hide Captures, HandsOver, Went, Calm;
      ghost var tail;
      ghost var index := epochReads;
      epoch, tail, failure := WriteAndProduce();
      OneCycleOfParts(Offers(), old(Snap()), Snap());
      if failure.None? {
        Stage(epoch, index, old(output), tail);
        ghost var middle, between := tick, looks;
        failure := Finish();
        WentCalmly(answers, stops, middle, tick, looks, failure);
        WentAfter(answers, stops, old(tick), middle, tick, old(looks), between, looks, failure);
      }
    }

    /** A delay line begins at the end of the output. */
    method StartAfresh()
      requires Sized() && Accounts(epochReads) && pending.None? && stagedEpoch.None? && playback[..] == Fill(period)
      modifies `base, `packets
      ensures Valid() && packets == [] && base == |output|
    {
      hide EpochsAgree, DeferredAgree, DelayLine, Frames;
      LastChunk();
      assert Tail() == Fill(hardwarePeriod);
      DelayLineStarts(output, hardwarePeriod);
      base, packets := |output|, [];
    }

    /** After a stream failure nothing staged or waiting survives; the hardware
        restarts on filler, and capture goes on somewhere later in its stream. */
    method Recover() returns (failure: Option<Failure>)
      requires Sized() && Accounts(epochReads)
      modifies this, playback
      ensures sequence == old(sequence) && epochReads == old(epochReads) && Accounts(epochReads)
      ensures old(output) <= output && old(tags) <= tags
      ensures tick == old(tick) + 1 && failure == answers(old(tick)).error && looks == old(looks) && pending == None
      ensures deferred == old(deferred) && captures == old(captures) && old(inputRead) <= inputRead
      ensures failure.None? ==>
                && Valid() && pending == None && stagedEpoch == None && packets == [] && base == |output|
                && output == old(output) + Fill(answers(old(tick)).count)
                && inputRead == old(inputRead) + answers(old(tick)).missed
    {
      hide Valid, EpochsAgree, DeferredAgree, Frames;
      FillSilence();
      pending, stagedEpoch := None, None;
      var answer := NextAnswer();
      if answer.error.Some? {
        return answer.error;
      }
      Write(Fill(answer.count), epochReads);
      inputRead := inputRead + answer.missed;
      StartAfresh();
      return None;
    }

    /** Between cycles, what the hardware got since the last fresh start is one chunk
        of filler and then what the source rendered, packet by packet and each in the
        epoch read in its cycle, less the last chunk of the last. */
    lemma OutputIsDelayLine()
      requires Valid()
      ensures base <= |output| && |packets| <= rendered && |packets| <= epochReads
      ensures var all := Fill(hardwarePeriod) + Flatten(packets);
              hardwarePeriod <= |all| && output[base..] == all[..|all| - hardwarePeriod]
      ensures forall k :: 0 <= k < |packets| ==>
                packets[k].frames ==
                Period(renders(rendered - |packets| + k), epochs(epochReads - |packets| + k), period)
    {
      DelayLineOutput(output, base, Tail(), packets);
    }

    ghost function Snap(): Snapshot
      reads `sequence, `epochReads, `rendered, `inputRead, `base, `packets, `captures, `deferred, `stagedEpoch
      reads `pending, `held
    {
      Snapshot(sequence, epochReads, rendered, inputRead, base, packets, captures, deferred, stagedEpoch, pending, held)
    }

    ghost function Offers(): World {
      World(epochs, renders, input, period, lead)
    }

    lemma OffersAre()
      ensures Offers().epochs == epochs && Snap().stagedEpoch == stagedEpoch && Snap().epochReads == epochReads
      ensures Snap().sequence == sequence && Snap().pending == pending
    {
    }

    /** A cycle, and the step to the next sequence when it is clean. */
    method NextCycle() returns (failure: Option<Failure>)
      requires Valid()
      modifies this, playback, capture
      ensures Went(answers, stops, old(tick), tick, old(looks), looks, failure)
      ensures Sized() && Accounts(epochReads) && old(output) <= output && old(tags) <= tags
      ensures if failure.None? then Valid() && CleanCycle(Offers(), old(Snap()), Snap())
              else sequence == old(sequence) && OneCycle(Offers(), old(Snap()), Snap())
    {
      hide OneCycle, Valid, Accounts, Sized, FailsWith, Tagged, Period, Heard, Waits, Went;
      var epoch;
      epoch, failure := Cycle();
      if failure.None? {
        sequence := WrapAdd(sequence, 1);
      }
    }

    /** A recovery, and the step to the next sequence when it succeeds. */
    method RecoverCycle(ghost before: Snapshot) returns (failure: Option<Failure>)
      requires Sized() && Accounts(epochReads) && sequence == before.sequence && OneCycle(Offers(), before, Snap())
      modifies this, playback
      ensures Accounts(epochReads) && old(output) <= output && old(tags) <= tags && tick == old(tick) + 1
      ensures failure == answers(old(tick)).error && looks == old(looks) && pending == None
      ensures if failure.None? then Valid() && Follows(Offers(), before, Snap())
              else OneCycle(Offers(), before, Snap())
    {
      hide Valid, Accounts, Sized, Captures, HandsOver;
      ghost var broken := Snap();
      failure := Recover();
      if failure.None? {
        sequence := WrapAdd(sequence, 1);
        RecoveredCycleFollows(Offers(), before, broken, Snap());
      }
    }

    /** Runs cycles until `limit` of them have succeeded, the worker is stopped or a
        failure is final; `cycles` bounds how long we look on. */
    method Run(limit: nat, cycles: nat) returns (end: End, processed: nat, ghost trail: seq<Snapshot>)
      requires Valid()
      modifies this, playback, capture
      ensures Sized() && Accounts(epochReads) && old(output) <= output && old(tags) <= tags
      ensures end.Ended? ==> Valid()
      // Every cycle tried that was clean or recovered from follows the one before.
      ensures trail != [] && trail[0] == old(Snap()) && AllFollow(Offers(), trail)
      ensures if end.Ended? then trail[|trail| - 1] == Snap() else OneCycle(Offers(), trail[|trail| - 1], Snap())
      // The calls and looks decide when it ends, and how.
      ensures EndsAs(end, answers, stops, old(tick), tick, old(looks), looks)
      ensures processed == CleanSteps(trail) <= limit && |trail| - 1 <= cycles
      ensures end.Ended? ==>
                && |trail| - 1 == processed + Failures(answers, old(tick), tick)
                && (Calm(stops, old(looks), looks) ==> processed == limit || |trail| - 1 == cycles)
      ensures Mild(answers, stops, old(tick), old(looks)) ==>
                end == Ended && (processed == limit || |trail| - 1 == cycles)
      // As long as nothing fails and the epoch stays, every cycle is a clean one.
      ensures end.Ended? && Clear(answers, old(tick), tick) && Calm(stops, old(looks), looks) ==>
                processed == Min(limit, cycles)
      ensures end.Ended? && Clear(answers, old(tick), tick) &&
              SameEpoch(old(stagedEpoch), epochs, old(epochReads), processed) ==>
                Steady(Offers(), old(Snap()), Snap(), processed)
    {
      hide Valid, Accounts, Sized, Snap, Offers, Steady, CleanCycle, Clear, FailsWith, SameEpoch, Failures, Handled;
      hide Follows, AllFollow, OneCycle, CleanSteps, EndsAs, Went, Mild, Calm, Progress;
      ValidIsSized();
      OffersAre();
      processed, trail := 0, [Snap()];
      ProgressStarts(Offers(), answers, stops, limit, tick, looks, Snap());
      for i := 0 to cycles
        invariant Valid() && Sized() && Accounts(epochReads) && old(output) <= output && old(tags) <= tags
        invariant |trail| == i + 1 && trail[0] == old(Snap()) && trail[i] == Snap()
        invariant Progress(Offers(), answers, stops, limit, old(tick), tick, old(looks), looks, trail, processed)
      {
        ghost var top, between := tick, looks;
        OffersAre();
        var stop := Look();
        if stop || processed >= limit {
          ProgressEnds(Offers(), answers, stops, limit, old(tick), tick, old(looks), between, looks, trail, processed);
          return Ended, processed, trail;
        }
        var failed := NextCycle();
        match failed {
          case None =>
            ProgressClean(Offers(), answers, stops, limit, old(tick), top, tick, old(looks), between, looks, trail,
                          processed, Snap());
            processed := processed + 1;
          case Some(Recoverable) =>
            ghost var broken := tick;
            ProgressFails(Offers(), answers, stops, limit, old(tick), top, tick, old(looks), between, looks, trail,
                          processed, Recoverable);
            failed := RecoverCycle(trail[i]);
            if failed.Some? {
              return Failed(failed.value), processed, trail;
            }
            OffersAre();
            ProgressRecovered(Offers(), answers, stops, limit, old(tick), top, broken, old(looks), between, looks,
                              trail,
                              processed, Snap());
          case Some(failure) =>
            ProgressFails(Offers(), answers, stops, limit, old(tick), top, tick, old(looks), between, looks, trail,
                          processed, failure);
            return if failure.Stopped? then Interrupted else Failed(failure), processed, trail;
        }
        trail := trail + [Snap()];
      }
      ProgressEnds(Offers(), answers, stops, limit, old(tick), tick, old(looks), looks, looks, trail, processed);
      return Ended, processed, trail;
    }
  }
}
