/** The position snapshot of the ASIO driver: two words guarded by a counter that is
    odd while they are written. One writer at a time, one atomic access per step. */
module PositionSnapshot {
  import opened Sequences

  datatype Pair = Pair(samples: int, stamp: int)

  datatype Writer = Idle | Opened(pair: Pair) | SamplesStored(pair: Pair) | StampStored(pair: Pair)

  /** A load: `start` is how many pairs had been published when it began. */
  datatype Reader =
    | Ready
    | Loading(start: nat)
    | Checked(start: nat, before: nat)
    | SamplesLoaded(start: nat, before: nat, samples: int)
    | StampLoaded(start: nat, before: nat, samples: int, stamp: int)
    | Loaded(start: nat, pair: Pair)

  /** `published`: every pair whose publication has finished, the initial one first. */
  datatype Memory = Memory(sequence: nat, samples: int, stamp: int, writer: Writer, reader: Reader,
                           published: seq<Pair>)

  datatype Move =
    Open(pair: Pair) | StoreSamples | StoreStamp | Close | Begin | ReadBefore | ReadSamples | ReadStamp | ReadAfter

  const START := Memory(0, 0, 0, Idle, Ready, [Pair(0, 0)])

  predicate Enabled(m: Memory, move: Move) {
    match move
    case Open(_) => m.writer.Idle?
    case StoreSamples => m.writer.Opened?
    case StoreStamp => m.writer.SamplesStored?
    case Close => m.writer.StampStored?
    case Begin => m.reader.Ready? || m.reader.Loaded?
    case ReadBefore => m.reader.Loading?
    case ReadSamples => m.reader.Checked?
    case ReadStamp => m.reader.SamplesLoaded?
    case ReadAfter => m.reader.StampLoaded?
  }

  function Step(m: Memory, move: Move): Memory
    requires Enabled(m, move)
  {
    var r := m.reader;
    match move
    case Open(pair) => m.(sequence := m.sequence + 1, writer := Opened(pair))
    case StoreSamples => m.(samples := m.writer.pair.samples, writer := SamplesStored(m.writer.pair))
    case StoreStamp => m.(stamp := m.writer.pair.stamp, writer := StampStored(m.writer.pair))
    case Close => m.(sequence := m.sequence + 1, writer := Idle, published := m.published + [m.writer.pair])
    case Begin => m.(reader := Loading(|m.published|))
    case ReadBefore => if m.sequence % 2 != 0 then m else m.(reader := Checked(r.start, m.sequence))
    case ReadSamples => m.(reader := SamplesLoaded(r.start, r.before, m.samples))
    case ReadStamp => m.(reader := StampLoaded(r.start, r.before, r.samples, m.stamp))
    case ReadAfter =>
      if m.sequence == r.before then m.(reader := Loaded(r.start, Pair(r.samples, r.stamp)))
      else m.(reader := Loading(r.start))
  }

  /** The counter is twice the publications finished, plus one during another; with
      nobody writing the words hold the last pair. */
  predicate WriterInv(m: Memory) {
    && |m.published| > 0
    && m.sequence == 2 * (|m.published| - 1) + (if m.writer.Idle? then 0 else 1)
    && (m.writer.Idle? || m.writer.Opened? ==> Pair(m.samples, m.stamp) == m.published[|m.published| - 1])
    && (m.writer.SamplesStored? || m.writer.StampStored? ==> m.samples == m.writer.pair.samples)
    && (m.writer.StampStored? ==> m.stamp == m.writer.pair.stamp)
  }

  /** What a reader saw is the pair it began under, unless the counter has moved. */
  predicate ReaderInv(m: Memory) {
    match m.reader
    case Ready => true
    case Loading(start) => start <= |m.published|
    case Checked(start, before) => Under(m, start, before)
    case SamplesLoaded(start, before, samples) =>
      Under(m, start, before) && (m.sequence == before ==> samples == m.published[before / 2].samples)
    case StampLoaded(start, before, samples, stamp) =>
      Under(m, start, before) && (m.sequence == before ==> Pair(samples, stamp) == m.published[before / 2])
    case Loaded(start, pair) => 0 < start <= |m.published| && pair in m.published[start - 1..]
  }

  predicate Under(m: Memory, start: nat, before: nat) {
    before % 2 == 0 && before <= m.sequence && before / 2 < |m.published| && start <= before / 2 + 1
  }

  predicate Inv(m: Memory) {
    WriterInv(m) && ReaderInv(m) && (m.reader.Ready? || 0 < m.reader.start)
  }

  predicate Writes(move: Move) {
    move.Open? || move.StoreSamples? || move.StoreStamp? || move.Close?
  }

  /** The writer's accesses leave what a reader knows of the pair it began under. */
  lemma WritingKeepsInv(m: Memory, move: Move)
    requires Inv(m) && Enabled(m, move) && Writes(move)
    ensures Inv(Step(m, move)) && m.published <= Step(m, move).published
  {
    if m.reader.Loaded? && move.Close? {
      var after := Step(m, move).published;
      assert after[m.reader.start - 1..] == m.published[m.reader.start - 1..] + [m.writer.pair];
    }
  }

  lemma ReadingKeepsInv(m: Memory, move: Move)
    requires Inv(m) && Enabled(m, move) && !Writes(move)
    ensures Inv(Step(m, move)) && m.published <= Step(m, move).published
  {
    if move.ReadAfter? && m.sequence == m.reader.before {
      var r := m.reader;
      assert m.published[r.start - 1..][r.before / 2 - (r.start - 1)] == m.published[r.before / 2];
    }
  }

  lemma StepKeepsInv(m: Memory, move: Move)
    requires Inv(m) && Enabled(m, move)
    ensures Inv(Step(m, move)) && m.published <= Step(m, move).published
  {
    hide Inv, Step;
    if Writes(move) {
      WritingKeepsInv(m, move);
    } else {
      ReadingKeepsInv(m, move);
    }
  }

  /** The steps of a list, one after the other, while each is enabled. */
  function Steps(m: Memory, moves: seq<Move>): Option<Memory>
    decreases |moves|
  {
    if moves == [] then Some(m)
    else if Enabled(m, moves[0]) then Steps(Step(m, moves[0]), moves[1..])
    else None
  }

  lemma StepsOneMore(m: Memory, first: Move, moves: seq<Move>)
    requires Enabled(m, first)
    ensures Steps(m, [first] + moves) == Steps(Step(m, first), moves)
  {
    assert ([first] + moves)[1..] == moves;
  }

  /** A writer left alone publishes its pair ... */
  lemma PublishingAlonePublishes(m: Memory, pair: Pair)
    requires WriterInv(m) && m.writer.Idle?
    ensures Steps(m, [Open(pair)] + [StoreSamples] + [StoreStamp] + [Close]) ==
            Some(m.(sequence := m.sequence + 2, samples := pair.samples, stamp := pair.stamp,
                    published := m.published + [pair]))
  {
    var begun := Step(m, Open(pair));
    var half := Step(begun, StoreSamples);
    var full := Step(half, StoreStamp);
    StepsOneMore(m, Open(pair), [StoreSamples] + ([StoreStamp] + [Close]));
    StepsOneMore(begun, StoreSamples, [StoreStamp] + [Close]);
    StepsOneMore(half, StoreStamp, [Close]);
    StepsOneMore(full, Close, []);
    assert [Open(pair)] + [StoreSamples] + [StoreStamp] + [Close] ==
           [Open(pair)] + ([StoreSamples] + ([StoreStamp] + [Close]));
    assert [Close] + [] == [Close];
  }

  /** ... and a load that no writer disturbs returns the last one published, at once. */
  lemma LoadingAloneLoadsLast(m: Memory)
    requires WriterInv(m) && m.writer.Idle? && (m.reader.Ready? || m.reader.Loaded?)
    ensures Steps(m, [Begin] + [ReadBefore] + [ReadSamples] + [ReadStamp] + [ReadAfter]) ==
            Some(m.(reader := Loaded(|m.published|, m.published[|m.published| - 1])))
  {
    var begun := Step(m, Begin);
    var checked := Step(begun, ReadBefore);
    var half := Step(checked, ReadSamples);
    var full := Step(half, ReadStamp);
    StepsOneMore(m, Begin, [ReadBefore] + ([ReadSamples] + ([ReadStamp] + [ReadAfter])));
    StepsOneMore(begun, ReadBefore, [ReadSamples] + ([ReadStamp] + [ReadAfter]));
    StepsOneMore(checked, ReadSamples, [ReadStamp] + [ReadAfter]);
    StepsOneMore(half, ReadStamp, [ReadAfter]);
    StepsOneMore(full, ReadAfter, []);
    assert [Begin] + [ReadBefore] + [ReadSamples] + [ReadStamp] + [ReadAfter] ==
           [Begin] + ([ReadBefore] + ([ReadSamples] + ([ReadStamp] + [ReadAfter])));
    assert [ReadAfter] + [] == [ReadAfter];
  }

  ghost predicate Run(memories: seq<Memory>, moves: seq<Move>) {
    && |memories| == |moves| + 1 && memories[0] == START
    && forall k :: 0 <= k < |moves| ==> Enabled(memories[k], moves[k]) && memories[k + 1] == Step(memories[k], moves[k])
  }

  /** A load never tears: it returns a pair written by one publish, and none older
      than the last one that was complete when the load began. */
  lemma {:induction false} LoadsNeverTear(memories: seq<Memory>, moves: seq<Move>, k: nat)
    requires Run(memories, moves) && k < |memories|
    ensures Inv(memories[k])
    ensures memories[k].reader.Loaded? ==>
              var r := memories[k].reader;
              0 < r.start <= |memories[k].published| && r.pair in memories[k].published[r.start - 1..]
  {
    if k > 0 {
      LoadsNeverTear(memories, moves, k - 1);
      StepKeepsInv(memories[k - 1], moves[k - 1]);
    }
  }
}
