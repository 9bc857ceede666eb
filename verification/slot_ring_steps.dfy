/** The same ring one atomic step at a time: a producer thread and a consumer
    thread interleave loads, compare-exchanges, stores and single-word copies. */
module SlotRingSteps {
  import opened Sequences
  import opened SlotRing

  /** A slot in shared memory; `number` is history, the publication it holds. */
  datatype Cell = Cell(state: SlotState, sequence: u64, words: seq<Sample>, number: nat)

  datatype Producer =
    | Idle
    | Claiming(block: Block, offset: nat)
    | CopyingIn(block: Block, index: nat, word: nat)
    | Labelling(block: Block, index: nat)
    | Announcing(block: Block, index: nat)

  datatype Purpose =
    | ReadOldest
    | ReadValid(minimum: u64)
    | ReadExact(expected: u64)
    | DiscardThrough(through: u64)

  datatype Choice = Choice(index: nat, sequence: u64)

  /** A consumer's pass over the slots. `met` and `atStart` are history: the
      labels it has weighed, and the labels that were ready when it began. */
  datatype Scan = Scan(purpose: Purpose, start: nat, offset: nat, chosen: Option<Choice>,
                       met: set<u64>, atStart: seq<Option<u64>>)

  datatype Consumer =
    | Resting
    | Looking(scan: Scan)
    | Inspecting(scan: Scan)
    | Dropping(scan: Scan)
    | Holding(scan: Scan)
    | Restoring(scan: Scan)
    | Freeing(scan: Scan)
    | Taking(scan: Scan, choice: Choice)
    | Checking(scan: Scan, choice: Choice)
    | CopyingOut(scan: Scan, choice: Choice, buffer: seq<Sample>)
    | Releasing(scan: Scan, choice: Choice, buffer: seq<Sample>)

  datatype Delivery = Delivery(number: nat, block: Block)

  datatype Memory = Memory(cells: seq<Cell>, wordCount: nat, producer: Producer, producerIndex: nat,
                           consumer: Consumer, consumerIndex: nat,
                           published: seq<Block>, delivered: seq<Delivery>, gone: set<nat>)

  /** What the scheduler lets happen next; a move that does not apply stutters. */
  datatype Move =
    | BeginPublish(block: Block)
    | ProducerStep
    | ClockFailure
    | BeginConsume(purpose: Purpose)
    | ConsumerStep
    | FindLate

  function SetCell(s: Memory, index: nat, cell: Cell): Memory
    requires index < |s.cells|
  {
    s.(cells := s.cells[index := cell])
  }

  function Store(s: Memory, index: nat, state: SlotState): Memory
    requires index < |s.cells|
  {
    SetCell(s, index, s.cells[index].(state := state))
  }

  /** Freeing ends the stay of a publication in its slot. */
  function FreeSlot(s: Memory, index: nat): Memory
    requires index < |s.cells|
  {
    Store(s, index, Free).(gone := s.gone + {s.cells[index].number})
  }

  // ------------------------------------------------------------------ producer

  function ProducerNext(s: Memory): Memory
    requires Shape(s)
  {
    match s.producer
    case Idle => s
    case Claiming(block, offset) =>
      if offset == |s.cells| then s.(producer := Idle)
      else
        var index := RingIndex(s.producerIndex, offset, |s.cells|);
        if s.cells[index].state == Free
        then Store(s, index, Writing).(producer := CopyingIn(block, index, 0))
        else s.(producer := Claiming(block, offset + 1))
    case CopyingIn(block, index, word) =>
      if word == s.wordCount then s.(producer := Labelling(block, index))
      else
        var cell := s.cells[index];
        SetCell(s, index, cell.(words := cell.words[word := block.audio[word]]))
        .(producer := CopyingIn(block, index, word + 1))
    case Labelling(block, index) =>
      SetCell(s, index, s.cells[index].(sequence := block.sequence)).(producer := Announcing(block, index))
    case Announcing(block, index) =>
      SetCell(s, index, s.cells[index].(state := Ready, number := |s.published|))
      .(published := s.published + [block], producer := Idle, producerIndex := NextIndex(index, |s.cells|))
  }

  // ------------------------------------------------------------------ consumer

  function At(s: Memory, scan: Scan): (index: nat)
    requires |s.cells| > 0 && scan.start < |s.cells| && scan.offset <= |s.cells|
    ensures index < |s.cells|
    ensures scan.offset < |s.cells| ==> ScanOffset(scan.start, index, |s.cells|) == scan.offset
  {
    RingIndex(scan.start, scan.offset, |s.cells|)
  }

  function Advance(scan: Scan): Scan {
    scan.(offset := scan.offset + 1)
  }

  datatype Verdict = Choose | Skip | Drop

  function Judge(purpose: Purpose, chosen: Option<Choice>, sequence: u64): Verdict {
    match purpose
    case ReadOldest =>
      if chosen.None? || IsBefore(sequence, chosen.value.sequence) then Choose else Skip
    case ReadValid(minimum) =>
      if IsBefore(sequence, minimum) then Drop
      else if chosen.None? || WrapSub(sequence, minimum) < WrapSub(chosen.value.sequence, minimum) then Choose
      else Skip
    case ReadExact(expected) =>
      if IsAfter(sequence, expected) then Skip
      else if sequence == expected && chosen.None? then Choose
      else Drop
    case DiscardThrough(through) =>
      if IsAfter(sequence, through) then Skip else Drop
  }

  /** A step of the pass over the slots. */
  function ScanNext(s: Memory): Memory
    requires Shape(s) && !Chosen(s.consumer)
  {
    match s.consumer
    case Resting => s
    case Looking(scan) =>
      if scan.offset == |s.cells| then
        if scan.chosen.None? then s.(consumer := Resting) else s.(consumer := Taking(scan, scan.chosen.value))
      else
        var index := At(s, scan);
        if s.cells[index].state != Ready then s.(consumer := Looking(Advance(scan)))
        else if scan.purpose.DiscardThrough? then Store(s, index, Reading).(consumer := Holding(scan))
        else s.(consumer := Inspecting(scan))
    case Inspecting(scan) => (
      var index := At(s, scan);
      var sequence := s.cells[index].sequence;
      match Judge(scan.purpose, scan.chosen, sequence)
      case Choose =>
        s.(consumer := Looking(Advance(scan).(chosen := Some(Choice(index, sequence)), met := scan.met + {sequence})))
      case Skip => s.(consumer := Looking(Advance(scan).(met := scan.met + {sequence})))
      case Drop => s.(consumer := Dropping(scan)))
    case Dropping(scan) =>
      var index := At(s, scan);
      if s.cells[index].state == Ready then Store(s, index, Reading).(consumer := Freeing(scan))
      else s.(consumer := Looking(Advance(scan)))
    case Holding(scan) =>
      if Judge(scan.purpose, scan.chosen, s.cells[At(s, scan)].sequence).Skip?
      then s.(consumer := Restoring(scan)) else s.(consumer := Freeing(scan))
    case Restoring(scan) =>
      Store(s, At(s, scan), Ready).(consumer := Looking(Advance(scan)))
    case Freeing(scan) =>
      FreeSlot(s, At(s, scan)).(consumer := Looking(Advance(scan)))
  }

  /** A step of taking the chosen block. */
  function TakeNext(s: Memory): Memory
    requires Shape(s) && Chosen(s.consumer)
  {
    match s.consumer
    case Taking(scan, choice) =>
      if s.cells[choice.index].state == Ready
      then Store(s, choice.index, Reading).(consumer := Checking(scan, choice))
      else s.(consumer := Resting)
    case Checking(scan, choice) =>
      if s.cells[choice.index].sequence != choice.sequence
      then FreeSlot(s, choice.index).(consumer := Resting)
      else s.(consumer := CopyingOut(scan, choice, []))
    case CopyingOut(scan, choice, buffer) =>
      if |buffer| < s.wordCount
      then s.(consumer := CopyingOut(scan, choice, buffer + [s.cells[choice.index].words[|buffer|]]))
      else s.(consumer := Releasing(scan, choice, buffer))
    case Releasing(scan, choice, buffer) =>
      FreeSlot(s, choice.index)
      .(delivered := s.delivered + [Delivery(s.cells[choice.index].number, Block(choice.sequence, buffer))],
        consumerIndex := if scan.purpose.ReadExact? then s.consumerIndex else NextIndex(choice.index, |s.cells|),
        consumer := Resting)
  }

  function ConsumerNext(s: Memory): Memory
    requires Shape(s)
  {
    if Chosen(s.consumer) then TakeNext(s) else ScanNext(s)
  }

  function ReadyLabels(cells: seq<Cell>): seq<Option<u64>> {
    seq(|cells|, i requires 0 <= i < |cells| => if cells[i].state == Ready then Some(cells[i].sequence) else None)
  }

  function Step(s: Memory, move: Move): Memory
    requires Shape(s)
  {
    match move
    case BeginPublish(block) =>
      if s.producer.Idle? && |block.audio| == s.wordCount then s.(producer := Claiming(block, 0)) else s
    case ProducerStep => ProducerNext(s)
    case ClockFailure =>
      // A timestamped publication whose clock call fails gives its slot back.
      if s.producer.Announcing? then Store(s, s.producer.index, Free).(producer := Idle) else s
    case BeginConsume(purpose) =>
      if s.consumer.Resting?
      then
        var start := if purpose.ReadOldest? || purpose.ReadValid? then s.consumerIndex else 0;
        s.(consumer := Looking(Scan(purpose, start, 0, None, {}, ReadyLabels(s.cells))))
      else s
    case ConsumerStep => ConsumerNext(s)
    case FindLate =>
      // An exact read past its cutoff frees the slot without copying it.
      if s.consumer.Checking? && s.consumer.scan.purpose.ReadExact?
      then FreeSlot(s, s.consumer.choice.index).(consumer := Resting) else s
  }

  // ----------------------------------------------------------------- invariant

  predicate ScanShape(s: Memory, scan: Scan) {
    && scan.start < |s.cells|
    && scan.offset <= |s.cells|
    && |scan.atStart| == |s.cells|
    && (scan.chosen.Some? ==>
          && scan.chosen.value.index < |s.cells|
          && ScanOffset(scan.start, scan.chosen.value.index, |s.cells|) < scan.offset)
  }

  predicate Shape(s: Memory) {
    && s.producerIndex < |s.cells|
    && s.consumerIndex < |s.cells|
    && (forall i :: 0 <= i < |s.cells| ==> |s.cells[i].words| == s.wordCount)
    && (!s.producer.Idle? ==> |s.producer.block.audio| == s.wordCount)
    && (s.producer.Claiming? ==> s.producer.offset <= |s.cells|)
    && (s.producer.CopyingIn? ==> s.producer.word <= s.wordCount)
    && (s.producer.CopyingIn? || s.producer.Labelling? || s.producer.Announcing? ==> s.producer.index < |s.cells|)
    && (!s.consumer.Resting? ==> ScanShape(s, s.consumer.scan))
    && (AtSlot(s.consumer) ==> s.consumer.scan.offset < |s.cells|)
    && (Chosen(s.consumer) ==> s.consumer.choice.index < |s.cells|)
  }

  /** The consumer is busy with the slot its scan has come to. */
  predicate AtSlot(c: Consumer) {
    c.Inspecting? || c.Dropping? || c.Holding? || c.Restoring? || c.Freeing?
  }

  predicate Chosen(c: Consumer) {
    c.Taking? || c.Checking? || c.CopyingOut? || c.Releasing?
  }

  /** The slot whose payload the producer may write. */
  function WrittenSlot(s: Memory): Option<nat> {
    if s.producer.CopyingIn? || s.producer.Labelling? || s.producer.Announcing? then Some(s.producer.index) else None
  }

  /** The slot whose payload the consumer may read. */
  function ReadSlot(s: Memory): Option<nat>
    requires Shape(s)
  {
    if s.consumer.Holding? || s.consumer.Restoring? || s.consumer.Freeing? then Some(At(s, s.consumer.scan))
    else if s.consumer.Checking? || s.consumer.CopyingOut? || s.consumer.Releasing? then Some(s.consumer.choice.index)
    else None
  }

  predicate Occupied(cell: Cell) {
    cell.state == Ready || cell.state == Reading
  }

  /** WRITING marks exactly the slot that the producer owns. */
  ghost predicate WriterOwns(s: Memory)
  {
    forall i :: 0 <= i < |s.cells| ==> (s.cells[i].state == Writing <==> WrittenSlot(s) == Some(i))
  }

  /** READING marks exactly the slot that the consumer owns. */
  ghost predicate ReaderOwns(s: Memory)
    requires Shape(s)
  {
    forall i :: 0 <= i < |s.cells| ==> (s.cells[i].state == Reading <==> ReadSlot(s) == Some(i))
  }

  ghost predicate Ownership(s: Memory)
    requires Shape(s)
  {
    WriterOwns(s) && ReaderOwns(s)
  }

  /** Every occupied slot holds one whole publication, and each publication is
      in one slot or gone, never both. */
  ghost predicate Contents(s: Memory)
    requires Shape(s)
  {
    && (forall i :: 0 <= i < |s.cells| && Occupied(s.cells[i]) ==>
          && s.cells[i].number < |s.published|
          && s.cells[i].number !in s.gone
          && s.published[s.cells[i].number] == Block(s.cells[i].sequence, s.cells[i].words))
    && (forall i, j :: 0 <= i < j < |s.cells| && Occupied(s.cells[i]) && Occupied(s.cells[j]) ==>
          s.cells[i].number != s.cells[j].number)
    && (forall n :: n in s.gone ==> n < |s.published|)
    && (forall n :: 0 <= n < |s.published| && n !in s.gone ==>
          exists i :: 0 <= i < |s.cells| && Occupied(s.cells[i]) && s.cells[i].number == n)
  }

  ghost predicate ProducerProgress(s: Memory)
    requires Shape(s)
  {
    match s.producer
    case CopyingIn(block, index, word) => s.cells[index].words[..word] == block.audio[..word]
    case Labelling(block, index) => s.cells[index].words == block.audio
    case Announcing(block, index) => Block(s.cells[index].sequence, s.cells[index].words) == block
    case _ => true
  }

  /** What a single consumer has found ready stays ready under its feet. */
  ghost predicate ConsumerProgress(s: Memory)
    requires Shape(s)
  {
    && (!s.consumer.Resting? && !Chosen(s.consumer) && s.consumer.scan.chosen.Some? ==>
          Stands(s, s.consumer.scan.chosen.value))
    && (s.consumer.Inspecting? || s.consumer.Dropping? ==> s.cells[At(s, s.consumer.scan)].state == Ready)
    && (s.consumer.Taking? ==> Stands(s, s.consumer.choice))
    && (Chosen(s.consumer) ==> s.cells[s.consumer.choice.index].sequence == s.consumer.choice.sequence)
    && (s.consumer.CopyingOut? ==>
          |s.consumer.buffer| <= s.wordCount &&
          s.consumer.buffer == s.cells[s.consumer.choice.index].words[..|s.consumer.buffer|])
    && (s.consumer.Releasing? ==> s.consumer.buffer == s.cells[s.consumer.choice.index].words)
  }

  predicate Stands(s: Memory, choice: Choice) {
    choice.index < |s.cells| && s.cells[choice.index].state == Ready &&
      s.cells[choice.index].sequence == choice.sequence
  }

  /** Deliveries are whole publications, each delivered once. */
  ghost predicate Deliveries(s: Memory) {
    && (forall d :: 0 <= d < |s.delivered| ==>
          && s.delivered[d].number in s.gone
          && s.delivered[d].number < |s.published|
          && s.published[s.delivered[d].number] == s.delivered[d].block)
    && (forall d, e :: 0 <= d < e < |s.delivered| ==> s.delivered[d].number != s.delivered[e].number)
  }

  ghost predicate Inv(s: Memory) {
    Shape(s) && Ownership(s) && Contents(s) && ProducerProgress(s) && ConsumerProgress(s) && Deliveries(s)
  }

  predicate Initial(s: Memory) {
    && |s.cells| > 0 && s.producerIndex < |s.cells| && s.consumerIndex < |s.cells|
    && (forall i :: 0 <= i < |s.cells| ==> s.cells[i].state == Free && |s.cells[i].words| == s.wordCount)
    && s.producer == Idle && s.consumer == Resting
    && s.published == [] && s.delivered == [] && s.gone == {}
  }

  lemma InitialInv(s: Memory)
    requires Initial(s)
    ensures Inv(s)
  {
  }

  // ------------------------------------------------------------------ preservation

  /** A step that leaves what is occupied, and what it holds, as it was. */
  lemma SameContents(s: Memory, t: Memory)
    requires Inv(s) && Shape(t) && |t.cells| == |s.cells| && t.published == s.published && t.gone == s.gone
    requires forall i :: 0 <= i < |s.cells| ==>
               && Occupied(s.cells[i]) == Occupied(t.cells[i])
               && (Occupied(s.cells[i]) ==>
                     && s.cells[i].number == t.cells[i].number
                     && s.cells[i].sequence == t.cells[i].sequence
                     && s.cells[i].words == t.cells[i].words)
    ensures Contents(t)
  {
    forall n | 0 <= n < |t.published| && n !in t.gone
      ensures exists i :: 0 <= i < |t.cells| && Occupied(t.cells[i]) && t.cells[i].number == n
    {
      var i :| 0 <= i < |s.cells| && Occupied(s.cells[i]) && s.cells[i].number == n;
      assert Occupied(t.cells[i]);
    }
  }

  /** A freed slot's publication is gone, every other stays where it was. */
  lemma FreeingKeepsContents(s: Memory, t: Memory, index: nat)
    requires Inv(s) && Shape(t) && index < |s.cells| && Occupied(s.cells[index])
    requires t.cells == FreeSlot(s, index).cells && t.published == s.published
    requires t.gone == s.gone + {s.cells[index].number}
    ensures Contents(t)
  {
    forall n | 0 <= n < |t.published| && n !in t.gone
      ensures exists i :: 0 <= i < |t.cells| && Occupied(t.cells[i]) && t.cells[i].number == n
    {
      var i :| 0 <= i < |s.cells| && Occupied(s.cells[i]) && s.cells[i].number == n;
      assert t.cells[i] == s.cells[i];
    }
  }

  lemma AnnounceKeepsContents(s: Memory)
    requires Inv(s) && s.producer.Announcing? && Shape(ProducerNext(s))
    ensures Contents(ProducerNext(s))
  {
    var t := ProducerNext(s);
    var index := s.producer.index;
    forall n | 0 <= n < |t.published| && n !in t.gone
      ensures exists i :: 0 <= i < |t.cells| && Occupied(t.cells[i]) && t.cells[i].number == n
    {
      if n == |s.published| {
        assert Occupied(t.cells[index]);
      } else {
        var i :| 0 <= i < |s.cells| && Occupied(s.cells[i]) && s.cells[i].number == n;
        assert t.cells[i] == s.cells[i];
      }
    }
  }

  lemma ProducerKeepsShape(s: Memory)
    requires Shape(s)
    ensures Shape(ProducerNext(s))
  {
  }

  lemma ProducerKeepsWriter(s: Memory)
    requires Shape(s) && WriterOwns(s) && Shape(ProducerNext(s))
    ensures WriterOwns(ProducerNext(s))
  {
    hide ScanShape, ScanOffset;
  }

  lemma ProducerKeepsReader(s: Memory)
    requires Shape(s) && Ownership(s) && Shape(ProducerNext(s))
    ensures ReaderOwns(ProducerNext(s))
  {
    hide ScanShape, ScanOffset;
    assert ReadSlot(ProducerNext(s)) == ReadSlot(s);
  }

  lemma ProducerKeepsOwnership(s: Memory)
    requires Shape(s) && Ownership(s) && Shape(ProducerNext(s))
    ensures Ownership(ProducerNext(s))
  {
    hide ProducerNext, WriterOwns, ReaderOwns, Shape;
    ProducerKeepsWriter(s);
    ProducerKeepsReader(s);
  }

  lemma ProducerKeepsContents(s: Memory)
    requires Inv(s) && Shape(ProducerNext(s))
    ensures Contents(ProducerNext(s))
  {
    if s.producer.Announcing? {
      AnnounceKeepsContents(s);
    } else {
      SameContents(s, ProducerNext(s));
    }
  }

  lemma ProducerKeepsProgress(s: Memory)
    requires Shape(s) && Ownership(s) && ProducerProgress(s) && Shape(ProducerNext(s))
    ensures ProducerProgress(ProducerNext(s))
  {
    if s.producer.CopyingIn? && s.producer.word < s.wordCount {
      var index, word := s.producer.index, s.producer.word;
      assert ProducerNext(s).cells[index].words[..word + 1] ==
             s.cells[index].words[..word] + [s.producer.block.audio[word]];
    }
  }

  /** The producer's steps leave the consumer's slots alone. */
  lemma ProducerSparesConsumer(s: Memory)
    requires Shape(s) && Ownership(s) && ConsumerProgress(s) && Shape(ProducerNext(s))
    ensures ConsumerProgress(ProducerNext(s))
  {
    hide RingIndex, ScanOffset, NextIndex;
    var t := ProducerNext(s);
    assert t.consumer == s.consumer;
    assert forall i :: 0 <= i < |s.cells| && Occupied(s.cells[i]) ==> t.cells[i] == s.cells[i];
    hide ProducerNext;
  }

  lemma ProducerKeepsDeliveries(s: Memory)
    requires Shape(s) && Deliveries(s)
    ensures Deliveries(ProducerNext(s))
  {
    var t := ProducerNext(s);
    assert t.delivered == s.delivered && t.gone == s.gone;
    assert forall n :: 0 <= n < |s.published| ==> n < |t.published| && t.published[n] == s.published[n];
  }

  lemma ProducerKeepsInv(s: Memory)
    requires Inv(s)
    ensures Inv(ProducerNext(s))
  {
    ProducerKeepsShape(s);
    ProducerKeepsOwnership(s);
    ProducerKeepsContents(s);
    ProducerKeepsProgress(s);
    ProducerSparesConsumer(s);
    ProducerKeepsDeliveries(s);
  }

  lemma LookKeepsShape(s: Memory)
    requires Shape(s) && s.consumer.Looking?
    ensures Shape(ScanNext(s))
  {
  }

  lemma ScanKeepsShape(s: Memory)
    requires Shape(s) && !Chosen(s.consumer)
    ensures Shape(ScanNext(s))
  {
    if s.consumer.Looking? {
      LookKeepsShape(s);
    } else {
      hide Judge;
      assert Shape(ScanNext(s));
    }
  }

  lemma TakeKeepsShape(s: Memory)
    requires Shape(s) && Chosen(s.consumer)
    ensures Shape(TakeNext(s))
  {
  }

  lemma ConsumerKeepsWriter(s: Memory)
    requires Shape(s) && Ownership(s) && ConsumerProgress(s)
    ensures WriterOwns(ConsumerNext(s))
  {
  }

  lemma ScanKeepsReader(s: Memory)
    requires Shape(s) && !Chosen(s.consumer) && ReaderOwns(s) && ConsumerProgress(s) && Shape(ScanNext(s))
    ensures ReaderOwns(ScanNext(s))
  {
  }

  lemma TakeKeepsReader(s: Memory)
    requires Shape(s) && Chosen(s.consumer) && ReaderOwns(s) && Shape(TakeNext(s))
    ensures ReaderOwns(TakeNext(s))
  {
  }

  lemma ConsumerKeepsContents(s: Memory)
    requires Inv(s) && Shape(ConsumerNext(s))
    ensures Contents(ConsumerNext(s))
  {
    hide Contents, Deliveries, ProducerProgress, WriterOwns;
    var t := ConsumerNext(s);
    if s.consumer.Freeing? {
      FreeingKeepsContents(s, t, At(s, s.consumer.scan));
    } else if s.consumer.Releasing? {
      FreeingKeepsContents(s, t, s.consumer.choice.index);
    } else {
      SameContents(s, t);
    }
  }

  /** The consumer's steps leave the producer's slot alone. */
  lemma ConsumerSparesProducer(s: Memory)
    requires Shape(s) && Ownership(s) && ConsumerProgress(s) && ProducerProgress(s) && Shape(ConsumerNext(s))
    ensures ProducerProgress(ConsumerNext(s))
  {
    hide ScanShape, ScanOffset, Judge, Stands;
    var t := ConsumerNext(s);
    assert t.producer == s.producer && t.wordCount == s.wordCount;
    assert forall i :: 0 <= i < |s.cells| && s.cells[i].state == Writing ==> t.cells[i] == s.cells[i];
    hide ConsumerNext;
  }

  lemma ScanKeepsProgress(s: Memory)
    requires Shape(s) && !Chosen(s.consumer) && Ownership(s) && ConsumerProgress(s) && Shape(ScanNext(s))
    ensures ConsumerProgress(ScanNext(s))
  {
  }

  lemma TakeKeepsProgress(s: Memory)
    requires Shape(s) && Chosen(s.consumer) && ConsumerProgress(s) && Shape(TakeNext(s))
    ensures ConsumerProgress(TakeNext(s))
  {
  }

  lemma ReleaseDelivers(s: Memory)
    requires Inv(s) && s.consumer.Releasing?
    ensures Deliveries(TakeNext(s))
  {
    var t := TakeNext(s);
    var cell := s.cells[s.consumer.choice.index];
    assert Occupied(cell);
    assert t.delivered == s.delivered + [Delivery(cell.number, s.published[cell.number])];
  }

  lemma ConsumerKeepsDeliveries(s: Memory)
    requires Inv(s)
    ensures Deliveries(ConsumerNext(s))
  {
    if s.consumer.Releasing? {
      ReleaseDelivers(s);
    } else {
      var t := ConsumerNext(s);
      assert t.delivered == s.delivered && t.published == s.published && s.gone <= t.gone;
    }
  }

  lemma ConsumerKeepsInv(s: Memory)
    requires Inv(s)
    ensures Inv(ConsumerNext(s))
  {
    if Chosen(s.consumer) {
      TakeKeepsShape(s);
      TakeKeepsReader(s);
      TakeKeepsProgress(s);
    } else {
      ScanKeepsShape(s);
      ScanKeepsReader(s);
      ScanKeepsProgress(s);
    }
    ConsumerKeepsWriter(s);
    ConsumerKeepsContents(s);
    ConsumerSparesProducer(s);
    ConsumerKeepsDeliveries(s);
  }

  lemma BeginPublishKeepsInv(s: Memory, block: Block)
    requires Inv(s)
    ensures Inv(Step(s, BeginPublish(block)))
  {
    hide Contents, ProducerNext, ConsumerNext, FreeSlot, Store, RingIndex, ScanOffset;
    SameContents(s, Step(s, BeginPublish(block)));
  }

  lemma BeginConsumeKeepsInv(s: Memory, purpose: Purpose)
    requires Inv(s)
    ensures Inv(Step(s, BeginConsume(purpose)))
  {
    hide Contents, ProducerNext, ConsumerNext, FreeSlot, Store;
    SameContents(s, Step(s, BeginConsume(purpose)));
  }

  lemma ClockFailureKeepsInv(s: Memory)
    requires Inv(s) && s.producer.Announcing?
    ensures Inv(Step(s, ClockFailure))
  {
    hide RingIndex, ScanOffset, Contents, ProducerNext, ConsumerNext, FreeSlot, NextIndex;
    var t := Step(s, ClockFailure);
    assert forall i :: 0 <= i < |s.cells| && Occupied(s.cells[i]) ==> t.cells[i] == s.cells[i];
    SameContents(s, t);
  }

  lemma FindLateKeepsInv(s: Memory)
    requires Inv(s) && s.consumer.Checking? && s.consumer.scan.purpose.ReadExact?
    ensures Inv(Step(s, FindLate))
  {
    var t := Step(s, FindLate);
    var index := s.consumer.choice.index;
    assert ReadSlot(s) == Some(index);
    assert forall i :: 0 <= i < |s.cells| && i != index ==> t.cells[i] == s.cells[i];
    FreeingKeepsContents(s, t, index);
  }

  lemma MoveKeepsInv(s: Memory, move: Move)
    requires Inv(s)
    ensures Inv(Step(s, move))
  {
    match move
    case ProducerStep => ProducerKeepsInv(s);
    case ConsumerStep => ConsumerKeepsInv(s);
    case ClockFailure =>
      if s.producer.Announcing? {
        ClockFailureKeepsInv(s);
      }
    case FindLate =>
      if s.consumer.Checking? && s.consumer.scan.purpose.ReadExact? {
        FindLateKeepsInv(s);
      }
    case BeginPublish(block) => BeginPublishKeepsInv(s, block);
    case BeginConsume(purpose) => BeginConsumeKeepsInv(s, purpose);
  }

  // ------------------------------------------------------ what a scan can promise

  function Age(l: u64, base: u64): u64 {
    WrapSub(l, base)
  }

  /** All the labels fall within half the range from `base`. */
  ghost predicate Window(labels: set<u64>, base: u64) {
    forall l :: l in labels ==> Age(l, base) < HALF_RANGE
  }

  predicate Capture(purpose: Purpose) {
    purpose.ReadOldest? || purpose.ReadValid?
  }

  predicate Weighs(purpose: Purpose, l: u64) {
    purpose.ReadOldest? || (purpose.ReadValid? && !IsBefore(l, purpose.minimum))
  }

  /** The choice so far is the best of the labels weighed so far. */
  ghost predicate BestSoFar(scan: Scan) {
    && (scan.chosen.None? ==> scan.met == {})
    && (scan.chosen.Some? ==>
          && scan.chosen.value.sequence in scan.met
          && (scan.purpose.ReadOldest? ==>
                forall base: u64, l :: Window(scan.met, base) && l in scan.met ==>
                  Age(scan.chosen.value.sequence, base) <= Age(l, base))
          && (scan.purpose.ReadValid? ==>
                forall l :: l in scan.met ==>
                  Age(scan.chosen.value.sequence, scan.purpose.minimum) <= Age(l, scan.purpose.minimum)))
  }

  /** A label that was ready at the start has been weighed, or still waits. */
  ghost predicate Remembers(s: Memory, scan: Scan)
    requires ScanShape(s, scan)
  {
    forall i :: 0 <= i < |s.cells| && scan.atStart[i].Some? ==>
      if ScanOffset(scan.start, i, |s.cells|) < scan.offset
      then Weighs(scan.purpose, scan.atStart[i].value) ==> scan.atStart[i].value in scan.met
      else Occupied(s.cells[i]) && s.cells[i].sequence == scan.atStart[i].value
  }

  ghost predicate History(s: Memory)
    requires Shape(s)
  {
    !s.consumer.Resting? && Capture(s.consumer.scan.purpose) ==>
      && BestSoFar(s.consumer.scan)
      && Remembers(s, s.consumer.scan)
      && !s.consumer.Holding? && !s.consumer.Restoring?
      && (Chosen(s.consumer) ==>
          s.consumer.scan.offset == |s.cells| && s.consumer.scan.chosen == Some(s.consumer.choice))
      && (s.consumer.Dropping? || s.consumer.Freeing? ==>
            !Weighs(s.consumer.scan.purpose, s.cells[At(s, s.consumer.scan)].sequence))
  }

  lemma NewBest(scan: Scan, choice: Choice)
    requires BestSoFar(scan) && Capture(scan.purpose)
    requires Judge(scan.purpose, scan.chosen, choice.sequence).Choose?
    ensures BestSoFar(Advance(scan).(chosen := Some(choice), met := scan.met + {choice.sequence}))
  {
    var after := Advance(scan).(chosen := Some(choice), met := scan.met + {choice.sequence});
    if scan.purpose.ReadOldest? {
      forall base: u64, l | Window(after.met, base) && l in after.met
        ensures Age(choice.sequence, base) <= Age(l, base)
      {
        assert Window(scan.met, base);
        assert choice.sequence in after.met;
      }
    }
  }

  lemma SameBest(scan: Scan, sequence: u64)
    requires BestSoFar(scan) && Capture(scan.purpose)
    requires Judge(scan.purpose, scan.chosen, sequence).Skip?
    ensures BestSoFar(Advance(scan).(met := scan.met + {sequence}))
  {
    var after := Advance(scan).(met := scan.met + {sequence});
    if scan.purpose.ReadOldest? {
      forall base: u64, l | Window(after.met, base) && l in after.met
        ensures Age(after.chosen.value.sequence, base) <= Age(l, base)
      {
        assert Window(scan.met, base);
        assert sequence in after.met;
      }
    }
  }

  lemma ProducerKeepsHistory(s: Memory)
    requires Shape(s) && Ownership(s) && ConsumerProgress(s) && History(s) && Shape(ProducerNext(s))
    ensures History(ProducerNext(s))
  {
    var t := ProducerNext(s);
    assert t.consumer == s.consumer;
    assert forall i :: 0 <= i < |s.cells| && Occupied(s.cells[i]) ==> t.cells[i] == s.cells[i];
  }

  lemma LookKeepsHistory(s: Memory)
    requires Shape(s) && s.consumer.Looking? && ReaderOwns(s) && History(s) && Shape(ScanNext(s))
    ensures History(ScanNext(s))
  {
  }

  lemma InspectKeepsHistory(s: Memory)
    requires Shape(s) && s.consumer.Inspecting? && History(s) && Shape(ScanNext(s))
    ensures History(ScanNext(s))
  {
    var scan := s.consumer.scan;
    if Capture(scan.purpose) {
      var sequence := s.cells[At(s, scan)].sequence;
      match Judge(scan.purpose, scan.chosen, sequence)
      case Choose => NewBest(scan, Choice(At(s, scan), sequence));
      case Skip => SameBest(scan, sequence);
      case Drop =>
    }
  }

  lemma DropKeepsHistory(s: Memory)
    requires Shape(s) && !Chosen(s.consumer) && !s.consumer.Looking? && !s.consumer.Inspecting?
    requires ConsumerProgress(s) && History(s) && Shape(ScanNext(s))
    ensures History(ScanNext(s))
  {
  }

  lemma ScanKeepsHistory(s: Memory)
    requires Shape(s) && !Chosen(s.consumer) && ReaderOwns(s) && ConsumerProgress(s) && History(s) && Shape(ScanNext(s))
    ensures History(ScanNext(s))
  {
    if s.consumer.Looking? {
      LookKeepsHistory(s);
    } else if s.consumer.Inspecting? {
      InspectKeepsHistory(s);
    } else {
      DropKeepsHistory(s);
    }
  }

  lemma TakeKeepsHistory(s: Memory)
    requires Shape(s) && Chosen(s.consumer) && History(s) && Shape(TakeNext(s))
    ensures History(TakeNext(s))
  {
  }

  lemma MoveKeepsHistory(s: Memory, move: Move)
    requires Inv(s) && History(s) && Shape(Step(s, move))
    ensures History(Step(s, move))
  {
    match move
    case ProducerStep => ProducerKeepsHistory(s);
    case ConsumerStep =>
      if Chosen(s.consumer) {
        TakeKeepsHistory(s);
      } else {
        ScanKeepsHistory(s);
      }
    case ClockFailure =>
      var t := Step(s, move);
      assert t.consumer == s.consumer;
      assert forall i :: 0 <= i < |s.cells| && Occupied(s.cells[i]) ==> t.cells[i] == s.cells[i];
    case FindLate =>
    case BeginPublish(_) =>
      var t := Step(s, move);
      assert t.consumer == s.consumer && t.cells == s.cells;
    case BeginConsume(_) =>
  }

  // ------------------------------------------------------------------ whole runs

  function Run(s: Memory, moves: seq<Move>): (r: Memory)
    requires Inv(s)
    ensures Inv(r)
    decreases |moves|
  {
    if moves == [] then s
    else
      MoveKeepsInv(s, moves[0]);
      Run(Step(s, moves[0]), moves[1..])
  }

  lemma {:induction false} RunKeepsHistory(s: Memory, moves: seq<Move>)
    requires Inv(s) && History(s)
    ensures History(Run(s, moves))
    decreases |moves|
  {
    if moves != [] {
      MoveKeepsInv(s, moves[0]);
      MoveKeepsHistory(s, moves[0]);
      RunKeepsHistory(Step(s, moves[0]), moves[1..]);
    }
  }

  /** Exclusion: whatever the interleaving, the slot whose payload is being
      written is never the slot being read, and an unfinished slot is neither
      free to claim nor ready to take. */
  lemma NeverWrittenWhileRead(start: Memory, moves: seq<Move>)
    requires Initial(start)
    ensures Inv(start)
    ensures var s := Run(start, moves);
            && (WrittenSlot(s).Some? ==> WrittenSlot(s) != ReadSlot(s))
            && (WrittenSlot(s).Some? ==> s.cells[WrittenSlot(s).value].state == Writing)
            && (ReadSlot(s).Some? ==> s.cells[ReadSlot(s).value].state == Reading)
  {
    InitialInv(start);
  }

  /** Delivery: every block handed out is exactly one publication, samples and
      label, no publication is handed out twice, and every publication is either
      gone or held whole in exactly one slot. */
  lemma DeliveriesArePublications(start: Memory, moves: seq<Move>)
    requires Initial(start)
    ensures Inv(start)
    ensures var s := Run(start, moves);
            && (forall d :: 0 <= d < |s.delivered| ==>
                  s.delivered[d].number < |s.published| && s.delivered[d].block == s.published[s.delivered[d].number])
            && (forall d, e :: 0 <= d < e < |s.delivered| ==> s.delivered[d].number != s.delivered[e].number)
            && (forall n :: 0 <= n < |s.published| ==>
                  (n in s.gone <==> !exists i :: 0 <= i < |s.cells| && Occupied(s.cells[i]) && s.cells[i].number == n))
  {
    InitialInv(start);
    var s := Run(start, moves);
    forall n | 0 <= n < |s.published|
      ensures n in s.gone <==> !exists i :: 0 <= i < |s.cells| && Occupied(s.cells[i]) && s.cells[i].number == n
    {
    }
  }

  /** Order: the block that a capture scan settles on is no later than any block
      that was ready when the scan began, whatever was published meanwhile, for
      labels within half the range of some base; a read with a minimum needs no
      such window. The chosen slot is still ready with that label, so a single
      consumer's compare-exchange and label check always succeed. */
  lemma ScanChoosesNoLater(start: Memory, moves: seq<Move>, i: nat, base: u64)
    requires Initial(start) && Inv(start)
    requires var s := Run(start, moves);
             && s.consumer.Taking? && Capture(s.consumer.scan.purpose)
             && i < |s.cells| && s.consumer.scan.atStart[i].Some?
             && Weighs(s.consumer.scan.purpose, s.consumer.scan.atStart[i].value)
    ensures var s := Run(start, moves);
            var scan := s.consumer.scan;
            && Stands(s, s.consumer.choice)
            && (scan.purpose.ReadOldest? && Window(scan.met, base) ==>
                  Age(s.consumer.choice.sequence, base) <= Age(scan.atStart[i].value, base))
            && (scan.purpose.ReadValid? ==>
                  Age(s.consumer.choice.sequence, scan.purpose.minimum) <=
                  Age(scan.atStart[i].value, scan.purpose.minimum))
  {
    RunKeepsHistory(start, moves);
    var s := Run(start, moves);
    assert s.consumer.scan.atStart[i].value in s.consumer.scan.met;
  }
}
