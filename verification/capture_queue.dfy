/** Seen from outside, a ring whose producer only moves forward is a bounded
    first-in first-out queue, across slot wrap and label wrap. */
module CaptureQueue {
  import opened Sequences
  import opened SlotRing

  /** Every later label is after every earlier one. */
  ghost predicate Forward(queue: seq<Block>) {
    forall i, j :: 0 <= i < j < |queue| ==> IsAfter(queue[j].sequence, queue[i].sequence)
  }

  /** `order` lists the ready slots oldest first. */
  ghost predicate Lists(slots: seq<Slot>, queue: seq<Block>, order: seq<nat>) {
    && |order| == |queue|
    && (forall k :: 0 <= k < |order| ==>
          order[k] < |slots| && slots[order[k]].state == Ready && BlockOf(slots[order[k]]) == queue[k])
    && (forall j, k :: 0 <= j < k < |order| ==> order[j] != order[k])
    && (forall i :: 0 <= i < |slots| ==> slots[i].state == Free || (slots[i].state == Ready && i in order))
  }

  ghost predicate Represents(slots: seq<Slot>, queue: seq<Block>) {
    exists order :: Lists(slots, queue, order)
  }

  lemma {:induction false} ElementsOf(order: seq<nat>) returns (elements: set<nat>)
    requires forall j, k :: 0 <= j < k < |order| ==> order[j] != order[k]
    ensures |elements| == |order| && forall i :: i in elements <==> i in order
  {
    if order == [] {
      return {};
    }
    var last := |order| - 1;
    elements := ElementsOf(order[..last]);
    elements := elements + {order[last]};
  }

  lemma {:induction false} IndicesBelow(n: nat) returns (indices: set<nat>)
    ensures |indices| == n && forall i: nat :: i in indices <==> i < n
  {
    if n == 0 {
      return {};
    }
    indices := IndicesBelow(n - 1);
    indices := indices + {n - 1};
  }

  lemma SmallerSet(a: set<nat>, b: set<nat>)
    requires a <= b
    ensures |a| <= |b| && (|a| == |b| ==> a == b)
  {
    assert |b - a| + |a| == |b| by {
      assert (b - a) + a == b && (b - a) !! a;
    }
    if |a| == |b| {
      assert b - a == {};
    }
  }

  /** The queue is full just when no slot is free. */
  lemma FullWhenNoneFree(slots: seq<Slot>, queue: seq<Block>, order: seq<nat>)
    requires Lists(slots, queue, order)
    ensures |queue| <= |slots|
    ensures |queue| == |slots| <==> forall i :: 0 <= i < |slots| ==> slots[i].state != Free
  {
    var elements := ElementsOf(order);
    var indices := IndicesBelow(|slots|);
    SmallerSet(elements, indices);
    if forall i :: 0 <= i < |slots| ==> slots[i].state != Free {
      assert elements == indices;
    }
    if |queue| == |slots| {
      forall i | 0 <= i < |slots| ensures slots[i].state != Free {
        assert i in indices;
      }
    }
  }

  lemma FillingFree(slots: seq<Slot>, queue: seq<Block>, order: seq<nat>, i: nat, slot: Slot)
    requires Lists(slots, queue, order) && i < |slots| && slots[i].state == Free && slot.state == Ready
    ensures Lists(slots[i := slot], queue + [BlockOf(slot)], order + [i])
  {
    var after, longer := slots[i := slot], order + [i];
    forall j | 0 <= j < |after| ensures after[j].state == Free || (after[j].state == Ready && j in longer) {
      if j == i {
        assert longer[|order|] == i;
      } else if slots[j].state == Ready {
        var k :| 0 <= k < |order| && order[k] == j;
        assert longer[k] == j;
      }
    }
  }

  lemma PutRefines(slots: seq<Slot>, queue: seq<Block>, start: nat, block: Block, nanos: u64)
    requires Represents(slots, queue) && start < |slots|
    ensures var published := Published(slots, start, block, nanos);
            && (published.None? <==> |queue| == |slots|)
            && |queue| <= |slots|
            && (published.Some? ==> |published.value.0| == |slots| && published.value.1 < |slots| &&
                                    Represents(published.value.0, queue + [block]))
  {
    var order :| Lists(slots, queue, order);
    FullWhenNoneFree(slots, queue, order);
    NoFreeSlot(slots, start);
    var free := FindFree(slots, start, 0);
    if free.Some? {
      FillingFree(slots, queue, order, free.value, Slot(Ready, block.sequence, nanos, block.audio));
    }
  }

  lemma PlaceOf(slots: seq<Slot>, queue: seq<Block>, order: seq<nat>, i: nat) returns (k: nat)
    requires Lists(slots, queue, order) && i < |slots| && slots[i].state == Ready
    ensures k < |order| == |queue| && order[k] == i && BlockOf(slots[i]) == queue[k]
  {
    k :| 0 <= k < |order| && order[k] == i;
  }

  /** The head is before every other unread label. */
  ghost predicate HeadFirst(queue: seq<Block>) {
    forall k :: 0 < k < |queue| ==> IsBefore(queue[0].sequence, queue[k].sequence)
  }

  /** A scan that has passed such a head has settled on it, wherever it began. */
  lemma {:induction false} ScanKeepsHead(slots: seq<Slot>, queue: seq<Block>, order: seq<nat>, start: nat, offset: nat)
    requires Lists(slots, queue, order) && queue != [] && HeadFirst(queue) && start < |slots|
    requires ScanOffset(start, order[0], |slots|) < offset <= |slots|
    ensures OldestReady(slots, start, offset) == Some(order[0])
  {
    var selected := OldestReady(slots, start, offset - 1);
    var index := RingIndex(start, offset - 1, |slots|);
    if ScanOffset(start, order[0], |slots|) < offset - 1 {
      ScanKeepsHead(slots, queue, order, start, offset - 1);
      if slots[index].state == Ready {
        var k := PlaceOf(slots, queue, order, index);
      }
    } else if selected.Some? {
      var k := PlaceOf(slots, queue, order, selected.value);
    }
  }

  /** A scan that begins at a slot leaves it for good at a label before its own. */
  lemma {:induction false} ScanLeavesStart(slots: seq<Slot>, start: nat, offset: nat, o: nat)
    requires start < |slots| && 0 < o < offset <= |slots| && slots[start].state == Ready
    requires slots[RingIndex(start, o, |slots|)].state == Ready
    requires IsBefore(slots[RingIndex(start, o, |slots|)].sequence, slots[start].sequence)
    ensures OldestReady(slots, start, offset).Some? && OldestReady(slots, start, offset) != Some(start)
  {
    assert OldestReady(slots, start, offset - 1).Some? by {
      assert slots[RingIndex(start, 0, |slots|)].state == Ready;
    }
    if o < offset - 1 {
      ScanLeavesStart(slots, start, offset - 1, o);
    }
  }

  /** A read from this start takes the head of the queue. */
  ghost predicate TakesHead(slots: seq<Slot>, queue: seq<Block>, start: nat)
    requires start < |slots| && queue != []
  {
    var selected := OldestReady(slots, start, |slots|);
    selected.Some? && BlockOf(slots[selected.value]) == queue[0]
  }

  lemma HeadIsTaken(slots: seq<Slot>, queue: seq<Block>, order: seq<nat>, start: nat)
    requires Lists(slots, queue, order) && queue != [] && HeadFirst(queue) && start < |slots|
    ensures TakesHead(slots, queue, start)
  {
    ScanKeepsHead(slots, queue, order, start, |slots|);
  }

  /** A read that starts at the head does not take it past a label before its own. */
  lemma HeadIsPassed(slots: seq<Slot>, queue: seq<Block>, order: seq<nat>, k: nat) returns (start: nat)
    requires Lists(slots, queue, order) && 0 < k < |queue| && IsBefore(queue[k].sequence, queue[0].sequence)
    requires forall j :: 0 < j < |queue| ==> queue[j].sequence != queue[0].sequence
    ensures start < |slots| && !TakesHead(slots, queue, start)
  {
    hide OldestReady, IsBefore;
    start := order[0];
    ScanLeavesStart(slots, order[0], |slots|, ScanOffset(order[0], order[k], |slots|));
    var j := PlaceOf(slots, queue, order, OldestReady(slots, order[0], |slots|).value);
  }

  /** Among labels that the order decides, reads from every start take the head if
      and only if it is before every other unread label. */
  lemma HeadIsTakenWhenFirst(slots: seq<Slot>, queue: seq<Block>)
    requires Represents(slots, queue) && queue != []
    requires forall k :: 0 < k < |queue| ==>
               IsBefore(queue[0].sequence, queue[k].sequence) || IsBefore(queue[k].sequence, queue[0].sequence)
    ensures (forall start: nat :: start < |slots| ==> TakesHead(slots, queue, start)) <==> HeadFirst(queue)
  {
    hide Lists, TakesHead;
    var order :| Lists(slots, queue, order);
    if HeadFirst(queue) {
      forall start: nat | start < |slots| ensures TakesHead(slots, queue, start) {
        HeadIsTaken(slots, queue, order, start);
      }
    } else {
      var k :| 0 < k < |queue| && !IsBefore(queue[0].sequence, queue[k].sequence);
      var start := HeadIsPassed(slots, queue, order, k);
    }
  }

  lemma FreeingOldest(slots: seq<Slot>, queue: seq<Block>, order: seq<nat>)
    requires Lists(slots, queue, order) && queue != []
    ensures Lists(slots[order[0] := slots[order[0]].(state := Free)], queue[1..], order[1..])
  {
    var after := slots[order[0] := slots[order[0]].(state := Free)];
    forall j | 0 <= j < |after| ensures after[j].state == Free || (after[j].state == Ready && j in order[1..]) {
      if j != order[0] && slots[j].state == Ready {
        var k :| 0 <= k < |order| && order[k] == j;
        assert order[1..][k - 1] == j;
      }
    }
  }

  lemma GetRefines(slots: seq<Slot>, queue: seq<Block>, start: nat)
    requires Represents(slots, queue) && HeadFirst(queue) && start < |slots|
    ensures var selected := OldestReady(slots, start, |slots|);
            && (selected.None? <==> queue == [])
            && (selected.Some? ==> BlockOf(slots[selected.value]) == queue[0] &&
                                   Represents(slots[selected.value := slots[selected.value].(state := Free)],
                                              queue[1..]))
  {
    var order :| Lists(slots, queue, order);
    if queue != [] {
      ScanKeepsHead(slots, queue, order, start, |slots|);
      FreeingOldest(slots, queue, order);
    }
  }

  // ------------------------------------------------------------------ whole runs

  datatype Call = Put(block: Block, nanos: u64) | Get

  datatype Answer = Accepted(ok: bool) | Got(block: Option<Block>)

  datatype RingState = RingState(slots: seq<Slot>, producer: nat, consumer: nat)
  {
    predicate Valid() {
      producer < |slots| && consumer < |slots|
    }
  }

  /** One call of the ring: what `TryPublish` and `TryClientReadCapture` are
      proved to do, given samples of the block size. */
  function RingStep(s: RingState, call: Call): (r: (RingState, Answer))
    requires s.Valid()
    ensures r.0.Valid() && |r.0.slots| == |s.slots|
  {
    match call
    case Put(block, nanos) => (
      match Published(s.slots, s.producer, block, nanos)
      case None => (s, Accepted(false))
      case Some((slots, producer)) => (RingState(slots, producer, s.consumer), Accepted(true)))
    case Get => (
      match OldestReady(s.slots, s.consumer, |s.slots|)
      case None => (s, Got(None))
      case Some(i) => (RingState(s.slots[i := s.slots[i].(state := Free)], s.producer, NextIndex(i, |s.slots|)),
                       Got(Some(BlockOf(s.slots[i])))))
  }

  /** One call of a first-in first-out queue that holds `capacity` blocks. */
  function QueueStep(queue: seq<Block>, capacity: nat, call: Call): (seq<Block>, Answer) {
    match call
    case Put(block, _) => if |queue| < capacity then (queue + [block], Accepted(true)) else (queue, Accepted(false))
    case Get => if queue == [] then (queue, Got(None)) else (queue[1..], Got(Some(queue[0])))
  }

  function RingRun(s: RingState, calls: seq<Call>): seq<Answer>
    requires s.Valid()
    decreases |calls|
  {
    if calls == [] then [] else
      var (next, answer) := RingStep(s, calls[0]);
      [answer] + RingRun(next, calls[1..])
  }

  function QueueRun(queue: seq<Block>, capacity: nat, calls: seq<Call>): seq<Answer>
    decreases |calls|
  {
    if calls == [] then [] else
      var (next, answer) := QueueStep(queue, capacity, calls[0]);
      [answer] + QueueRun(next, capacity, calls[1..])
  }

  /** Each read finds the head before every other unread label. */
  ghost predicate HeadFirstRun(queue: seq<Block>, capacity: nat, calls: seq<Call>)
    decreases |calls|
  {
    calls != [] ==>
      && (calls[0].Get? ==> HeadFirst(queue))
      && HeadFirstRun(QueueStep(queue, capacity, calls[0]).0, capacity, calls[1..])
  }

  /** Each label offered is after every label still unread. */
  ghost predicate ForwardRun(queue: seq<Block>, capacity: nat, calls: seq<Call>)
    decreases |calls|
  {
    Forward(queue) &&
    (calls != [] ==>
       && (calls[0].Put? ==> Forward(queue + [calls[0].block]))
       && ForwardRun(QueueStep(queue, capacity, calls[0]).0, capacity, calls[1..]))
  }

  lemma {:induction false} ForwardKeepsHeadFirst(queue: seq<Block>, capacity: nat, calls: seq<Call>)
    requires ForwardRun(queue, capacity, calls)
    ensures HeadFirstRun(queue, capacity, calls)
    decreases |calls|
  {
    if calls != [] {
      ForwardKeepsHeadFirst(QueueStep(queue, capacity, calls[0]).0, capacity, calls[1..]);
    }
  }

  lemma StepRefines(s: RingState, queue: seq<Block>, call: Call)
    requires s.Valid() && Represents(s.slots, queue) && (call.Get? ==> HeadFirst(queue))
    ensures var (next, answer) := RingStep(s, call);
            var (rest, expected) := QueueStep(queue, |s.slots|, call);
            answer == expected && Represents(next.slots, rest)
  {
    match call
    case Put(block, nanos) => PutRefines(s.slots, queue, s.producer, block, nanos);
    case Get => GetRefines(s.slots, queue, s.consumer);
  }

  /** Every run whose reads find the head first gives the answers of the bounded
      queue, call by call; every run of forward publications is one. */
  lemma {:induction false} RingIsABoundedQueue(s: RingState, queue: seq<Block>, calls: seq<Call>)
    requires s.Valid() && Represents(s.slots, queue) && HeadFirstRun(queue, |s.slots|, calls)
    ensures RingRun(s, calls) == QueueRun(queue, |s.slots|, calls)
    decreases |calls|
  {
    if calls != [] {
      StepRefines(s, queue, calls[0]);
      RingIsABoundedQueue(RingStep(s, calls[0]).0, QueueStep(queue, |s.slots|, calls[0]).0, calls[1..]);
    }
  }

  /** Without it the answers differ: a label published behind an unread one overtakes it. */
  lemma BackwardLabelOvertakes()
    ensures exists s: RingState, queue, call ::
              && s.Valid() && Represents(s.slots, queue)
              && RingStep(s, call).1 != QueueStep(queue, |s.slots|, call).1
  {
    var newer, older := Slot(Ready, 1, 0, []), Slot(Ready, 0, 0, []);
    var s := RingState([newer, older], 0, 0);
    var queue := [BlockOf(newer), BlockOf(older)];
    assert Lists(s.slots, queue, [0, 1]) by {
      assert [0, 1][0] == 0 && [0, 1][1] == 1;
    }
    assert OldestReady(s.slots, 0, 0) == None;
    assert OldestReady(s.slots, 0, 1) == Some(0);
    assert OldestReady(s.slots, 0, 2) == Some(1);
    assert RingStep(s, Get).1 == Got(Some(BlockOf(older)));
    assert QueueStep(queue, 2, Get).1 == Got(Some(BlockOf(newer)));
  }
}
