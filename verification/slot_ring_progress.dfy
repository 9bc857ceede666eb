/** What the atomic steps of the ring bring about: a thread that is left alone comes to
    rest, a publication that finds a free slot is published, a read that finds a block
    for it delivers it, and nothing is dropped that should have stayed. */
module SlotRingProgress {
  import opened Sequences
  import opened SlotRing
  import opened SlotRingSteps

  // ------------------------------------------------------------------ producer

  function Produce(s: Memory, steps: nat): (t: Memory)
    requires Inv(s)
    ensures Inv(t)
    decreases steps
  {
    if steps == 0 then s
    else
      ProducerKeepsInv(s);
      Produce(ProducerNext(s), steps - 1)
  }

  /** The producer will find a slot, or has one. */
  predicate Publishes(s: Memory)
    requires Shape(s)
  {
    && !s.producer.Idle?
    && (s.producer.Claiming? ==>
          exists offset :: s.producer.offset <= offset < |s.cells| &&
            s.cells[RingIndex(s.producerIndex, offset, |s.cells|)].state == Free)
  }

  function ProducerDistance(s: Memory): nat
    requires Shape(s)
  {
    match s.producer
    case Idle => 0
    case Claiming(_, offset) => |s.cells| - offset + s.wordCount + 4
    case CopyingIn(_, _, word) => s.wordCount - word + 3
    case Labelling(_, _) => 2
    case Announcing(_, _) => 1
  }

  /** A slot holds this publication, and the next search begins behind it. */
  predicate Holds(s: Memory, number: nat) {
    exists i :: 0 <= i < |s.cells| && s.cells[i].state == Ready && s.cells[i].number == number &&
      s.producerIndex == NextIndex(i, |s.cells|)
  }

  lemma ProducerGoesOn(s: Memory)
    requires Shape(s) && Shape(ProducerNext(s)) && !s.producer.Idle?
    ensures ProducerDistance(ProducerNext(s)) < ProducerDistance(s)
    ensures var t := ProducerNext(s);
            if t.producer.Idle? then Publishes(s) == s.producer.Announcing?
            else t.producer.block == s.producer.block && Publishes(t) == Publishes(s)
    ensures s.producer.Announcing? ==> ProducerNext(s).producer.Idle? && Holds(ProducerNext(s), |s.published|)
    ensures ProducerNext(s).published ==
            if s.producer.Announcing? then s.published + [s.producer.block] else s.published
  {
    if s.producer.Announcing? {
      var t := ProducerNext(s);
      assert t.cells[s.producer.index].state == Ready && t.cells[s.producer.index].number == |s.published|;
    }
  }

  /** A publication left alone ends: published, or, if the scan meets no free slot, without
      a trace in what is published. */
  lemma {:induction false} PublishingAlone(s: Memory) returns (steps: nat)
    requires Inv(s) && !s.producer.Idle?
    ensures Produce(s, steps).producer.Idle?
    ensures Produce(s, steps).published == if Publishes(s) then s.published + [s.producer.block] else s.published
    ensures Publishes(s) ==> Holds(Produce(s, steps), |s.published|)
    decreases ProducerDistance(s)
  {
    hide Inv, Publishes, ProducerNext, ProducerDistance, Holds;
    InvShape(s);
    ProducerKeepsInv(s);
    InvShape(ProducerNext(s));
    ProducerGoesOn(s);
    var next := ProducerNext(s);
    steps := 0;
    if !next.producer.Idle? {
      steps := PublishingAlone(next);
    }
    assert Produce(s, steps + 1) == Produce(next, steps);
    steps := steps + 1;
  }

  lemma InvShape(s: Memory)
    requires Inv(s)
    ensures Shape(s)
  {
  }

  // ------------------------------------------------------------------ consumer

  function Consume(s: Memory, steps: nat): (t: Memory)
    requires Inv(s)
    ensures Inv(t)
    decreases steps
  {
    if steps == 0 then s
    else
      ConsumerKeepsInv(s);
      Consume(ConsumerNext(s), steps - 1)
  }

  /** A read for this purpose takes a block with this label. */
  predicate Wanted(purpose: Purpose, sequence: u64) {
    match purpose
    case ReadOldest => true
    case ReadValid(minimum) => !IsBefore(sequence, minimum)
    case ReadExact(expected) => sequence == expected
    case DiscardThrough(_) => false
  }

  /** A scan with this purpose has no use for a block with this label. */
  predicate Stale(purpose: Purpose, chosen: Option<Choice>, sequence: u64) {
    match purpose
    case ReadOldest => false
    case ReadValid(minimum) => IsBefore(sequence, minimum)
    case ReadExact(expected) => !IsAfter(sequence, expected) && (sequence != expected || chosen.Some?)
    case DiscardThrough(through) => !IsAfter(sequence, through)
  }

  /** What the consumer has chosen it wants, and what it is about to free, unless it has
      delivered it, is stale. */
  predicate Judged(s: Memory)
    requires Shape(s)
  {
    && (!s.consumer.Resting? && s.consumer.scan.chosen.Some? ==>
          Wanted(s.consumer.scan.purpose, s.consumer.scan.chosen.value.sequence))
    && (Chosen(s.consumer) ==> Wanted(s.consumer.scan.purpose, s.consumer.choice.sequence))
    && (s.consumer.Holding? ==> s.consumer.scan.purpose.DiscardThrough?)
    && (s.consumer.Dropping? || s.consumer.Freeing? ==>
          Stale(s.consumer.scan.purpose, s.consumer.scan.chosen, s.cells[At(s, s.consumer.scan)].sequence))
  }

  /** The scan has chosen a block, or one it wants is still before it. */
  predicate Delivers(s: Memory)
    requires Shape(s)
  {
    && !s.consumer.Resting?
    && (!Chosen(s.consumer) ==>
          || s.consumer.scan.chosen.Some?
          || exists offset ::
               && s.consumer.scan.offset + (if s.consumer.Looking? || s.consumer.Inspecting? then 0 else 1) <= offset
               && offset < |s.cells|
               && var cell := s.cells[RingIndex(s.consumer.scan.start, offset, |s.cells|)];
                  cell.state == Ready && Wanted(s.consumer.scan.purpose, cell.sequence))
  }

  function ConsumerDistance(s: Memory): nat
    requires Shape(s)
  {
    match s.consumer
    case Resting => 0
    case Looking(scan) => 4 * (|s.cells| - scan.offset) + s.wordCount + 5
    case Inspecting(scan) => 4 * (|s.cells| - scan.offset) + s.wordCount + 4
    case Dropping(scan) => 4 * (|s.cells| - scan.offset) + s.wordCount + 3
    case Holding(scan) => 4 * (|s.cells| - scan.offset) + s.wordCount + 4
    case Restoring(scan) => 4 * (|s.cells| - scan.offset) + s.wordCount + 2
    case Freeing(scan) => 4 * (|s.cells| - scan.offset) + s.wordCount + 2
    case Taking(_, _) => s.wordCount + 4
    case Checking(_, _) => s.wordCount + 3
    case CopyingOut(_, _, buffer) => if |buffer| <= s.wordCount then s.wordCount - |buffer| + 2 else 2
    case Releasing(_, _, _) => 1
  }

  lemma TakeGoesOn(s: Memory)
    requires Shape(s) && ConsumerProgress(s) && Chosen(s.consumer) && Shape(TakeNext(s))
    ensures ConsumerDistance(TakeNext(s)) < ConsumerDistance(s)
    ensures var t := TakeNext(s);
            && Delivers(s) && s.delivered <= t.delivered
            && if t.consumer.Resting? then |t.delivered| == |s.delivered| + 1
               else Delivers(t) && t.delivered == s.delivered
    ensures var t := TakeNext(s);
            t.consumer.Resting? ==>
              && t.delivered[|s.delivered|].block.sequence == s.consumer.choice.sequence
              && Follows(s.consumer.scan.purpose, t, s.consumerIndex, t.delivered[|s.delivered|].number)
    ensures var t := TakeNext(s);
            !t.consumer.Resting? ==>
              && Chosen(t.consumer) && t.consumer.scan == s.consumer.scan && t.consumer.choice == s.consumer.choice
              && t.consumerIndex == s.consumerIndex
  {
    if s.consumer.Releasing? {
      var t := TakeNext(s);
      assert t.cells[s.consumer.choice.index].number == s.cells[s.consumer.choice.index].number;
    }
  }

  /** The next capture scan begins behind the slot that held this publication; an exact
      read leaves where it begins. */
  predicate Follows(purpose: Purpose, s: Memory, before: nat, number: nat) {
    if purpose.ReadExact? then s.consumerIndex == before
    else exists i :: 0 <= i < |s.cells| && s.cells[i].number == number && s.consumerIndex == NextIndex(i, |s.cells|)
  }

  /** A look at a slot leaves what the scan is going to meet. */
  lemma LookGoesOn(s: Memory)
    requires Shape(s) && s.consumer.Looking? && Shape(ScanNext(s))
    ensures ConsumerDistance(ScanNext(s)) < ConsumerDistance(s)
    ensures Delivers(ScanNext(s)) == Delivers(s) && ScanNext(s).delivered == s.delivered
  {
  }

  /** A ready block that the scan wants is chosen, unless it has chosen one already. */
  lemma InspectGoesOn(s: Memory)
    requires Shape(s) && ConsumerProgress(s) && s.consumer.Inspecting? && Shape(ScanNext(s))
    ensures ConsumerDistance(ScanNext(s)) < ConsumerDistance(s)
    ensures Delivers(ScanNext(s)) == Delivers(s) && ScanNext(s).delivered == s.delivered
  {
  }

  lemma ScanGoesOn(s: Memory)
    requires Shape(s) && ConsumerProgress(s) && !Chosen(s.consumer) && !s.consumer.Resting? && Shape(ScanNext(s))
    ensures ConsumerDistance(ScanNext(s)) < ConsumerDistance(s)
    ensures Delivers(ScanNext(s)) == Delivers(s) && ScanNext(s).delivered == s.delivered
  {
    if s.consumer.Looking? {
      LookGoesOn(s);
    } else if s.consumer.Inspecting? {
      InspectGoesOn(s);
    } else {
      assert Delivers(ScanNext(s)) == Delivers(s);
    }
  }

  /** Until it delivers, a read keeps its purpose and does not move where scans begin. */
  lemma ScanKeepsPurpose(s: Memory)
    requires Shape(s) && !Chosen(s.consumer) && !s.consumer.Resting?
    ensures ScanNext(s).consumerIndex == s.consumerIndex
    ensures !ScanNext(s).consumer.Resting? ==> ScanNext(s).consumer.scan.purpose == s.consumer.scan.purpose
  {
  }

  lemma ConsumerGoesOn(s: Memory)
    requires Inv(s) && Shape(s) && Judged(s) && !s.consumer.Resting?
    ensures Inv(ConsumerNext(s)) && Shape(ConsumerNext(s)) && Judged(ConsumerNext(s))
    ensures var t := ConsumerNext(s);
            if t.consumer.Resting? then
              |t.delivered| > |s.delivered| ==>
                var d := t.delivered[|s.delivered|];
                && Wanted(s.consumer.scan.purpose, d.block.sequence)
                && Follows(s.consumer.scan.purpose, t, s.consumerIndex, d.number)
            else
              && t.consumer.scan.purpose == s.consumer.scan.purpose && t.consumerIndex == s.consumerIndex
              && t.delivered == s.delivered
    ensures ConsumerDistance(ConsumerNext(s)) < ConsumerDistance(s)
    ensures var t := ConsumerNext(s);
            && s.delivered <= t.delivered
            && |t.delivered| + (if Delivers(t) then 1 else 0) == |s.delivered| + (if Delivers(s) then 1 else 0)
  {
    hide ConsumerDistance, Deliveries, Contents;
    InvShape(s);
    ConsumerKeepsInv(s);
    InvShape(ConsumerNext(s));
    ConsumerKeepsJudged(s);
    hide Inv, Judged, Follows;
    if Chosen(s.consumer) {
      TakeGoesOn(s);
      ChoiceIsWanted(s);
    } else {
      ScanGoesOn(s);
      ScanKeepsPurpose(s);
    }
  }

  lemma ChoiceIsWanted(s: Memory)
    requires Shape(s) && Judged(s) && Chosen(s.consumer)
    ensures Wanted(s.consumer.scan.purpose, s.consumer.choice.sequence)
  {
  }

  /** A read left alone ends, and has delivered one block, with a label it wants, if it had
      chosen one or one that it wants stood before its scan; otherwise it delivers nothing. */
  lemma {:induction false} ConsumingAlone(s: Memory) returns (steps: nat)
    requires Inv(s) && Shape(s) && Judged(s) && !s.consumer.Resting?
    ensures var t := Consume(s, steps);
            && t.consumer.Resting? && s.delivered <= t.delivered
            && |t.delivered| == |s.delivered| + if Delivers(s) then 1 else 0
    ensures Delivers(s) ==>
              var t := Consume(s, steps);
              var d := t.delivered[|s.delivered|];
              && Wanted(s.consumer.scan.purpose, d.block.sequence)
              && Follows(s.consumer.scan.purpose, t, s.consumerIndex, d.number)
    decreases ConsumerDistance(s)
  {
    hide Inv, ConsumerNext, ConsumerDistance, Delivers, Shape, Judged, Wanted, Follows;
    ConsumerGoesOn(s);
    var next := ConsumerNext(s);
    RestDeliversNothing(next);
    steps := 0;
    if !next.consumer.Resting? {
      steps := ConsumingAlone(next);
    }
    assert Consume(s, steps + 1) == Consume(next, steps);
    steps := steps + 1;
  }

  lemma RestDeliversNothing(s: Memory)
    requires Shape(s)
    ensures s.consumer.Resting? ==> !Delivers(s)
  {
  }

  // ------------------------------------------------------------ what is cleared

  /** A scan with this purpose drops a block with this label, whatever it has chosen. */
  predicate Hopeless(purpose: Purpose, sequence: u64) {
    match purpose
    case ReadOldest => false
    case ReadValid(minimum) => IsBefore(sequence, minimum)
    case ReadExact(expected) => IsBefore(sequence, expected)
    case DiscardThrough(through) => sequence == through || IsBefore(sequence, through)
  }

  /** The scan is going to meet this block and to drop it, or has it in hand. */
  predicate Condemned(s: Memory, i: nat)
    requires Shape(s)
  {
    && !s.consumer.Resting? && !Chosen(s.consumer) && i < |s.cells|
    && Hopeless(s.consumer.scan.purpose, s.cells[i].sequence)
    && if s.cells[i].state == Ready then s.consumer.scan.offset <= ScanOffset(s.consumer.scan.start, i, |s.cells|)
       else s.cells[i].state == Reading && (s.consumer.Holding? || s.consumer.Freeing?) && At(s, s.consumer.scan) == i
  }

  lemma CondemnedGoesOn(s: Memory, i: nat)
    requires Shape(s) && ReaderOwns(s) && ConsumerProgress(s) && Condemned(s, i) && Shape(ScanNext(s))
    ensures ScanNext(s).cells[i].state == Free || Condemned(ScanNext(s), i)
  {
    assert s.cells[i].state == Ready ==> ReadSlot(s) != Some(i);
  }

  lemma CondemnedNext(s: Memory, i: nat)
    requires Inv(s) && Shape(s) && Condemned(s, i)
    ensures Inv(ConsumerNext(s)) && Shape(ConsumerNext(s)) && i < |ConsumerNext(s).cells| && !s.consumer.Resting?
    ensures ConsumerNext(s).cells[i].state == Free || Condemned(ConsumerNext(s), i)
  {
    ConsumerKeepsInv(s);
    InvShape(ConsumerNext(s));
    CondemnedGoesOn(s, i);
    hide Judge, Hopeless;
    assert |ScanNext(s).cells| == |s.cells|;
  }

  lemma FreeStaysFree(s: Memory, i: nat)
    requires Shape(s) && ReaderOwns(s) && i < |s.cells| && s.cells[i].state == Free
    ensures i < |ConsumerNext(s).cells| && ConsumerNext(s).cells[i].state == Free
  {
    assert ReadSlot(s) != Some(i);
  }

  lemma {:induction false} FreeUntilRest(s: Memory, steps: nat, i: nat)
    requires Inv(s) && i < |s.cells| && s.cells[i].state == Free
    ensures i < |Consume(s, steps).cells| && Consume(s, steps).cells[i].state == Free
    decreases steps
  {
    if steps > 0 {
      ConsumerKeepsInv(s);
      FreeStaysFree(s, i);
      hide Inv, ConsumerNext;
      FreeUntilRest(ConsumerNext(s), steps - 1, i);
    }
  }

  /** When a read or discard that is left alone has ended, every block it was going to meet
      and to drop is gone from its slot. */
  lemma {:induction false} CondemnedAreFreed(s: Memory, steps: nat, i: nat)
    requires Inv(s) && Shape(s) && Condemned(s, i) && Consume(s, steps).consumer.Resting?
    ensures i < |Consume(s, steps).cells| && Consume(s, steps).cells[i].state == Free
    decreases steps
  {
    hide Inv, Condemned, Shape, ConsumerNext;
    CondemnedNext(s, i);
    if steps > 0 {
      var next := ConsumerNext(s);
      if next.cells[i].state == Free {
        FreeUntilRest(next, steps - 1, i);
      } else {
        CondemnedAreFreed(next, steps - 1, i);
      }
    }
  }

  /** A read or discard begins at the first slot of its scan, a capture read where the last
      one ended: it will deliver just when a block that it wants is ready, and meets every
      block that it must drop. */
  lemma BeginningMeetsAll(s: Memory, purpose: Purpose)
    requires Inv(s) && Shape(s) && s.consumer.Resting?
    ensures var t := Step(s, BeginConsume(purpose));
            && Inv(t) && Shape(t) && Judged(t) && t.consumer.Looking? && t.cells == s.cells
            && t.consumer.scan.start == (if Capture(purpose) then s.consumerIndex else 0)
            && (Delivers(t) <==>
                  exists i :: 0 <= i < |s.cells| && s.cells[i].state == Ready && Wanted(purpose, s.cells[i].sequence))
            && (forall i ::
                  0 <= i < |s.cells| && s.cells[i].state == Ready && Hopeless(purpose, s.cells[i].sequence) ==>
                    Condemned(t, i))
  {
    MoveKeepsInv(s, BeginConsume(purpose));
    var t := Step(s, BeginConsume(purpose));
    InvShape(t);
    hide Inv;
    var start := t.consumer.scan.start;
    forall i | 0 <= i < |s.cells| && s.cells[i].state == Ready && Wanted(purpose, s.cells[i].sequence)
      ensures Delivers(t)
    {
      var offset := ScanOffset(start, i, |s.cells|);
      assert t.cells[RingIndex(start, offset, |s.cells|)].state == Ready;
    }
  }

  // ------------------------------------------------------------- what is dropped

  lemma ConsumerKeepsJudged(s: Memory)
    requires Shape(s) && ConsumerProgress(s) && Judged(s) && Shape(ConsumerNext(s))
    ensures Judged(ConsumerNext(s))
  {
  }

  lemma ProducerKeepsJudged(s: Memory)
    requires Shape(s) && Ownership(s) && ConsumerProgress(s) && Judged(s) && Shape(ProducerNext(s))
    ensures Judged(ProducerNext(s))
  {
    hide Stale, IsAfter, IsBefore;
    var t := ProducerNext(s);
    assert t.consumer == s.consumer && |t.cells| == |s.cells|;
    if s.consumer.Dropping? || s.consumer.Freeing? {
      var index := At(s, s.consumer.scan);
      assert s.consumer.Freeing? ==> ReadSlot(s) == Some(index);
      assert Occupied(s.cells[index]) && t.cells[index] == s.cells[index];
    }
  }

  lemma MoveKeepsJudged(s: Memory, move: Move)
    requires Inv(s) && Judged(s)
    ensures Inv(Step(s, move)) && Judged(Step(s, move))
  {
    MoveKeepsInv(s, move);
    InvShape(Step(s, move));
    if move.ProducerStep? {
      ProducerKeepsJudged(s);
    } else if move.ConsumerStep? {
      ConsumerKeepsJudged(s);
    } else {
      hide ProducerNext, ConsumerNext, Inv, Stale;
      assert Judged(Step(s, move));
    }
  }

  lemma {:induction false} RunKeepsJudged(s: Memory, moves: seq<Move>)
    requires Inv(s) && Judged(s)
    ensures Judged(Run(s, moves))
    decreases |moves|
  {
    if moves != [] {
      MoveKeepsJudged(s, moves[0]);
      RunKeepsJudged(Step(s, moves[0]), moves[1..]);
    }
  }

  /** In every interleaving a publication goes for one of three reasons: it is delivered,
      it is stale for the scan that frees it, or an exact read came too late for it. */
  lemma GoneWithReason(start: Memory, moves: seq<Move>, move: Move, n: nat)
    requires Initial(start) && Inv(start)
    requires var s := Run(start, moves); n in Step(s, move).gone && n !in s.gone
    ensures var s := Run(start, moves);
            var t := Step(s, move);
            && n < |s.published|
            && (|| (move.ConsumerStep? && t.delivered == s.delivered + [Delivery(n, s.published[n])])
                || (move.ConsumerStep? && s.consumer.Freeing? &&
                    Stale(s.consumer.scan.purpose, s.consumer.scan.chosen, s.published[n].sequence))
                || (move.FindLate? && s.consumer.Checking? && s.consumer.scan.purpose.ReadExact? &&
                    s.consumer.choice.sequence == s.published[n].sequence))
  {
    RunKeepsJudged(start, moves);
    var s := Run(start, moves);
    StepGoneWithReason(s, move, n);
  }

  lemma StepGoneWithReason(s: Memory, move: Move, n: nat)
    requires Inv(s) && Judged(s) && n in Step(s, move).gone && n !in s.gone
    ensures var t := Step(s, move);
            && n < |s.published|
            && (|| (move.ConsumerStep? && t.delivered == s.delivered + [Delivery(n, s.published[n])])
                || (move.ConsumerStep? && s.consumer.Freeing? &&
                    Stale(s.consumer.scan.purpose, s.consumer.scan.chosen, s.published[n].sequence))
                || (move.FindLate? && s.consumer.Checking? && s.consumer.scan.purpose.ReadExact? &&
                    s.consumer.choice.sequence == s.published[n].sequence))
  {
    hide Deliveries, ProducerProgress, WriterOwns;
    var index := if Chosen(s.consumer) then s.consumer.choice.index else At(s, s.consumer.scan);
    assert ReadSlot(s) == Some(index);
    assert Occupied(s.cells[index]) && s.cells[index].number == n;
  }
}
