/** One direction of the shared-memory region, as whole calls: an array of slots
    whose physical order says nothing about the order of their blocks. */
module SlotRing {
  import opened Sequences

  type Sample = int

  datatype SlotState = Free | Writing | Ready | Reading

  datatype Slot = Slot(state: SlotState, sequence: u64, publishedNanos: u64, audio: seq<Sample>)

  /** What one publication carries. */
  datatype Block = Block(sequence: u64, audio: seq<Sample>)

  datatype PlaybackConsume = ConsumedReady | ConsumedLate | ConsumedMissing

  function BlockOf(slot: Slot): Block {
    Block(slot.sequence, slot.audio)
  }

  function NextIndex(index: nat, slotCount: nat): nat
    requires index < slotCount
  {
    if index + 1 == slotCount then 0 else index + 1
  }

  /** The slot at `offset` of a scan that begins at `start`. */
  function RingIndex(start: nat, offset: nat, slotCount: nat): (index: nat)
    requires start < slotCount && offset <= slotCount
    ensures index < slotCount
  {
    if start + offset < slotCount then start + offset else start + offset - slotCount
  }

  /** When a scan from `start` reaches a slot: every slot has its offset. */
  function ScanOffset(start: nat, index: nat, slotCount: nat): (offset: nat)
    requires start < slotCount && index < slotCount
    ensures offset < slotCount && RingIndex(start, offset, slotCount) == index
  {
    if start <= index then index - start else index + slotCount - start
  }

  /** A scan goes forward around the ring, and so does what follows a slot. */
  lemma ScanGoesForward(start: nat, offset: nat, slotCount: nat)
    requires start < slotCount && offset <= slotCount
    ensures RingIndex(start, offset, slotCount) == (start + offset) % slotCount
    ensures NextIndex(start, slotCount) == (start + 1) % slotCount
  {
    Remainder(start + offset, slotCount);
    Remainder(start + 1, slotCount);
  }

  lemma Remainder(n: nat, d: nat)
    requires d > 0 && n < 2 * d
    ensures n % d == if n < d then n else n - d
  {
    if n >= d {
      assert n == n / d * d + n % d;
      assert n / d == 1;
    }
  }

  // ---------------------------------------------------------------- selection

  /** First free slot at or after `offset`, in scan order. */
  function FindFree(slots: seq<Slot>, start: nat, offset: nat): (r: Option<nat>)
    requires start < |slots| && offset <= |slots|
    ensures r.Some? ==>
              && r.value < |slots| && slots[r.value].state == Free && offset <= ScanOffset(start, r.value, |slots|)
              && forall o :: offset <= o < ScanOffset(start, r.value, |slots|) ==>
                   slots[RingIndex(start, o, |slots|)].state != Free
    ensures r.None? ==> forall o :: offset <= o < |slots| ==> slots[RingIndex(start, o, |slots|)].state != Free
    decreases |slots| - offset
  {
    if offset == |slots| then None
    else
      var index := RingIndex(start, offset, |slots|);
      if slots[index].state == Free then Some(index) else FindFree(slots, start, offset + 1)
  }

  lemma NoFreeSlot(slots: seq<Slot>, start: nat)
    requires start < |slots|
    ensures FindFree(slots, start, 0).None? <==> forall i :: 0 <= i < |slots| ==> slots[i].state != Free
  {
    if FindFree(slots, start, 0).None? {
      forall i | 0 <= i < |slots| ensures slots[i].state != Free {
        var o := ScanOffset(start, i, |slots|);
      }
    }
  }

  function Published(slots: seq<Slot>, start: nat, block: Block, nanos: u64): Option<(seq<Slot>, nat)>
    requires start < |slots|
  {
    match FindFree(slots, start, 0)
    case None => None
    case Some(i) => Some((slots[i := Slot(Ready, block.sequence, nanos, block.audio)], NextIndex(i, |slots|)))
  }

  /** The ready slot a capture scan has settled on before `offset`: an earlier
      find is replaced only by a label that is before it. */
  function OldestReady(slots: seq<Slot>, start: nat, offset: nat): (r: Option<nat>)
    requires start < |slots| && offset <= |slots|
    ensures r.Some? ==> r.value < |slots| && slots[r.value].state == Ready
    ensures r.None? <==> forall o :: 0 <= o < offset ==> slots[RingIndex(start, o, |slots|)].state != Ready
  {
    if offset == 0 then None
    else
      var selected := OldestReady(slots, start, offset - 1);
      var index := RingIndex(start, offset - 1, |slots|);
      if slots[index].state != Ready then selected
      else if selected.None? || IsBefore(slots[index].sequence, slots[selected.value].sequence) then Some(index)
      else selected
  }

  /** All ready labels lie within half the range from `base`. */
  ghost predicate Near(slots: seq<Slot>, base: u64) {
    forall i :: 0 <= i < |slots| && slots[i].state == Ready ==> WrapSub(slots[i].sequence, base) < HALF_RANGE
  }

  /** Then no ready label that the scan has met is before the one it has settled on. */
  lemma {:induction false} OldestReadyIsOldest(slots: seq<Slot>, start: nat, base: u64, offset: nat, o: nat)
    requires start < |slots| && o < offset <= |slots| && Near(slots, base)
    requires slots[RingIndex(start, o, |slots|)].state == Ready
    ensures var selected := OldestReady(slots, start, offset);
            && selected.Some?
            && WrapSub(slots[selected.value].sequence, base) <=
               WrapSub(slots[RingIndex(start, o, |slots|)].sequence, base)
            && !IsBefore(slots[RingIndex(start, o, |slots|)].sequence, slots[selected.value].sequence)
  {
    if o < offset - 1 {
      OldestReadyIsOldest(slots, start, base, offset - 1, o);
    }
  }

  predicate ReadyValid(slot: Slot, minimum: u64) {
    slot.state == Ready && !IsBefore(slot.sequence, minimum)
  }

  /** The ready slot nearest at or after `minimum` among the first offsets. */
  function NearestValid(slots: seq<Slot>, start: nat, minimum: u64, offset: nat): (r: Option<nat>)
    requires start < |slots| && offset <= |slots|
    ensures r.Some? ==> r.value < |slots| && ReadyValid(slots[r.value], minimum)
  {
    if offset == 0 then None
    else
      var selected := NearestValid(slots, start, minimum, offset - 1);
      var index := RingIndex(start, offset - 1, |slots|);
      if !ReadyValid(slots[index], minimum) then selected
      else if selected.None? ||
           WrapSub(slots[index].sequence, minimum) < WrapSub(slots[selected.value].sequence, minimum)
      then Some(index)
      else selected
  }

  /** It is indeed the nearest of those scanned, and misses none. */
  lemma {:induction false} NearestIsNearest(slots: seq<Slot>, start: nat, minimum: u64, offset: nat, o: nat)
    requires start < |slots| && o < offset <= |slots| && ReadyValid(slots[RingIndex(start, o, |slots|)], minimum)
    ensures var r := NearestValid(slots, start, minimum, offset);
            r.Some? && WrapSub(slots[r.value].sequence, minimum) <=
                       WrapSub(slots[RingIndex(start, o, |slots|)].sequence, minimum)
  {
    if o < offset - 1 {
      NearestIsNearest(slots, start, minimum, offset - 1, o);
    }
  }

  /** The label a scan announces does not depend on where the scan begins. */
  lemma NearestLabelIsUnique(slots: seq<Slot>, start: nat, other: nat, minimum: u64)
    requires start < |slots| && other < |slots|
    ensures var a := NearestValid(slots, start, minimum, |slots|);
            var b := NearestValid(slots, other, minimum, |slots|);
            a.Some? == b.Some? && (a.Some? ==> slots[a.value].sequence == slots[b.value].sequence)
  {
    var a, b := NearestValid(slots, start, minimum, |slots|), NearestValid(slots, other, minimum, |slots|);
    if a.Some? {
      NearestIsNearest(slots, other, minimum, |slots|, ScanOffset(other, a.value, |slots|));
    }
    if b.Some? {
      NearestIsNearest(slots, start, minimum, |slots|, ScanOffset(start, b.value, |slots|));
    }
  }

  function FirstExact(slots: seq<Slot>, expected: u64, index: nat): (r: Option<nat>)
    requires index <= |slots|
    ensures r.Some? ==> r.value < index && slots[r.value].state == Ready && slots[r.value].sequence == expected
    ensures r.None? ==> forall i :: 0 <= i < index ==> !(slots[i].state == Ready && slots[i].sequence == expected)
  {
    if index == 0 then None
    else
      var first := FirstExact(slots, expected, index - 1);
      if first.None? && slots[index - 1].state == Ready && slots[index - 1].sequence == expected
      then Some(index - 1) else first
  }

  predicate DistinctLabels(slots: seq<Slot>) {
    forall i, j :: 0 <= i < j < |slots| && slots[i].state == Ready && slots[j].state == Ready ==>
                     slots[i].sequence != slots[j].sequence
  }

  predicate TooLate(slot: Slot, cutoff: Option<u64>) {
    cutoff.Some? && (slot.publishedNanos == 0 || slot.publishedNanos > cutoff.value)
  }

  /** The outcome of an exact consume. */
  function ExactOutcome(slots: seq<Slot>, expected: u64, cutoff: Option<u64>): PlaybackConsume {
    match FirstExact(slots, expected, |slots|)
    case None => ConsumedMissing
    case Some(i) => if TooLate(slots[i], cutoff) then ConsumedLate else ConsumedReady
  }

  /** With distinct labels an exact consume succeeds just when the label is ready, with
      a cutoff under a nonzero timestamp at or before it; it is late just when the label
      is ready with any other timestamp, and misses it just when it is not ready. */
  lemma ExactOutcomeMeaning(slots: seq<Slot>, expected: u64, cutoff: Option<u64>)
    requires DistinctLabels(slots)
    ensures ExactOutcome(slots, expected, cutoff) == ConsumedReady <==>
            exists i :: 0 <= i < |slots| && slots[i].state == Ready && slots[i].sequence == expected &&
                        (cutoff.Some? ==> 0 < slots[i].publishedNanos <= cutoff.value)
    ensures ExactOutcome(slots, expected, cutoff) == ConsumedLate <==>
            exists i :: 0 <= i < |slots| && slots[i].state == Ready && slots[i].sequence == expected &&
                        cutoff.Some? && !(0 < slots[i].publishedNanos <= cutoff.value)
    ensures ExactOutcome(slots, expected, cutoff) == ConsumedMissing <==>
            forall i :: 0 <= i < |slots| && slots[i].state == Ready ==> slots[i].sequence != expected
  {
    var first := FirstExact(slots, expected, |slots|);
    if first.Some? {
      assert forall i :: 0 <= i < |slots| && slots[i].state == Ready && slots[i].sequence == expected ==>
                           i == first.value;
    }
  }

  // -------------------------------------------------- reclaiming and accounting

  /** The label sets that scans act on. */
  datatype Labels =
    | All
    | Before(minimum: u64)
    | NotAfter(through: u64)
    | ThroughAndBefore(last: u64, watermark: u64)
  {
    predicate Has(l: u64) {
      match this
      case All => true
      case Before(minimum) => IsBefore(l, minimum)
      case NotAfter(through) => !IsAfter(l, through)
      case ThroughAndBefore(last, watermark) => !IsAfter(l, last) && IsBefore(l, watermark)
    }
  }

  /** Every ready slot whose label is in `gone` becomes free; no other slot changes. */
  function Reclaim(slots: seq<Slot>, gone: Labels): (r: seq<Slot>)
    ensures |r| == |slots|
  {
    seq(|slots|, i requires 0 <= i < |slots| =>
      if slots[i].state == Ready && gone.Has(slots[i].sequence) then slots[i].(state := Free) else slots[i])
  }

  predicate Counts(slot: Slot, p: Labels) {
    slot.state == Ready && p.Has(slot.sequence)
  }

  /** How many slots in the index range [lo, hi) are ready with a label in `p`. */
  function CountIn(slots: seq<Slot>, p: Labels, lo: nat, hi: nat): nat
    requires lo <= hi <= |slots|
  {
    if lo == hi then 0 else CountIn(slots, p, lo, hi - 1) + if Counts(slots[hi - 1], p) then 1 else 0
  }

  /** The ready slots with a label in `p`, below `hi`. */
  ghost function Those(slots: seq<Slot>, p: Labels, hi: nat): set<nat>
    requires hi <= |slots|
  {
    set i: nat | i < hi && Counts(slots[i], p)
  }

  lemma {:induction false} CountIsSize(slots: seq<Slot>, p: Labels, hi: nat)
    requires hi <= |slots|
    ensures CountIn(slots, p, 0, hi) == |Those(slots, p, hi)|
  {
    if hi > 0 {
      CountIsSize(slots, p, hi - 1);
      var before := Those(slots, p, hi - 1);
      assert Those(slots, p, hi) == if Counts(slots[hi - 1], p) then before + {hi - 1} else before;
    } else {
      assert Those(slots, p, 0) == {};
    }
  }

  lemma {:induction false} CountInAppend(slots: seq<Slot>, p: Labels, lo: nat, mid: nat, hi: nat)
    requires lo <= mid <= hi <= |slots|
    ensures CountIn(slots, p, lo, hi) == CountIn(slots, p, lo, mid) + CountIn(slots, p, mid, hi)
  {
    if mid < hi {
      CountInAppend(slots, p, lo, mid, hi - 1);
    }
  }

  lemma {:induction false} CountInSame(a: seq<Slot>, b: seq<Slot>, p: Labels, lo: nat, hi: nat)
    requires |a| == |b| && lo <= hi <= |a|
    requires forall i :: lo <= i < hi ==> Counts(a[i], p) == Counts(b[i], p)
    ensures CountIn(a, p, lo, hi) == CountIn(b, p, lo, hi)
  {
    if lo < hi {
      CountInSame(a, b, p, lo, hi - 1);
    }
  }

  lemma CountAfterUpdate(slots: seq<Slot>, p: Labels, i: nat, slot: Slot)
    requires i < |slots| && Counts(slots[i], p) && !Counts(slot, p)
    ensures CountIn(slots[i := slot], p, 0, |slots|) == CountIn(slots, p, 0, |slots|) - 1
  {
    var updated := slots[i := slot];
    CountInAppend(slots, p, 0, i + 1, |slots|);
    CountInAppend(updated, p, 0, i + 1, |slots|);
    CountInSame(slots, updated, p, 0, i);
    CountInSame(slots, updated, p, i + 1, |slots|);
  }

  lemma {:induction false} CountAfterReclaim(slots: seq<Slot>, gone: Labels, lo: nat, hi: nat)
    requires lo <= hi <= |slots|
    ensures CountIn(Reclaim(slots, gone), All, lo, hi) + CountIn(slots, gone, lo, hi) == CountIn(slots, All, lo, hi)
  {
    if lo < hi {
      CountAfterReclaim(slots, gone, lo, hi - 1);
    }
  }

  /** The slots counted by the first `offset` steps of a scan. */
  function CountScanned(slots: seq<Slot>, p: Labels, start: nat, offset: nat): nat
    requires start < |slots| && offset <= |slots|
  {
    if start + offset <= |slots| then CountIn(slots, p, start, start + offset)
    else CountIn(slots, p, start, |slots|) + CountIn(slots, p, 0, start + offset - |slots|)
  }

  lemma CountScannedStep(slots: seq<Slot>, p: Labels, start: nat, offset: nat)
    requires start < |slots| && offset < |slots|
    ensures CountScanned(slots, p, start, offset + 1) == CountScanned(slots, p, start, offset) +
            if Counts(slots[RingIndex(start, offset, |slots|)], p) then 1 else 0
  {
    assert CountIn(slots, p, 0, 0) == 0;
  }

  lemma CountScannedAll(slots: seq<Slot>, p: Labels, start: nat)
    requires start < |slots|
    ensures CountScanned(slots, p, start, |slots|) == CountIn(slots, p, 0, |slots|)
  {
    CountInAppend(slots, p, 0, start, |slots|);
  }

  lemma ReclaimKeepsAudio(slots: seq<Slot>, gone: Labels, sampleCount: nat)
    requires forall i :: 0 <= i < |slots| ==> |slots[i].audio| == sampleCount
    ensures forall i :: 0 <= i < |slots| ==> |Reclaim(slots, gone)[i].audio| == sampleCount
  {
  }

  /** The slots once the first `offset` steps of a scan have reclaimed theirs. */
  function ReclaimScanned(slots: seq<Slot>, gone: Labels, start: nat, offset: nat): (r: seq<Slot>)
    requires start < |slots| && offset <= |slots|
    ensures |r| == |slots|
  {
    seq(|slots|, i requires 0 <= i < |slots| =>
      if ScanOffset(start, i, |slots|) < offset && Counts(slots[i], gone) then slots[i].(state := Free) else slots[i])
  }

  lemma ReclaimScannedStep(slots: seq<Slot>, gone: Labels, start: nat, offset: nat)
    requires start < |slots| && offset < |slots|
    ensures var index := RingIndex(start, offset, |slots|);
            var before := ReclaimScanned(slots, gone, start, offset);
            before[index] == slots[index] &&
            ReclaimScanned(slots, gone, start, offset + 1) ==
            if Counts(slots[index], gone) then before[index := slots[index].(state := Free)] else before
  {
    var index := RingIndex(start, offset, |slots|);
    assert ScanOffset(start, index, |slots|) == offset;
    forall i | 0 <= i < |slots| && i != index
      ensures ScanOffset(start, i, |slots|) != offset
    {
    }
  }

  lemma ReclaimScannedEnds(slots: seq<Slot>, gone: Labels, start: nat)
    requires start < |slots|
    ensures ReclaimScanned(slots, gone, start, 0) == slots
    ensures ReclaimScanned(slots, gone, start, |slots|) == Reclaim(slots, gone)
  {
  }

  /** Equal outside slots that stay free: a free slot's payload is dead. */
  predicate SameLive(a: seq<Slot>, b: seq<Slot>) {
    |a| == |b| && forall i :: 0 <= i < |a| ==> a[i] == b[i] || (a[i].state == Free && b[i].state == Free)
  }

  // ------------------------------------------------- one duplex acquisition

  /** The slots once the nearest valid block, at `i`, has been taken. */
  function Taken(slots: seq<Slot>, minimum: u64, i: nat): (r: seq<Slot>)
    requires i < |slots|
    ensures |r| == |slots|
  {
    var kept := Reclaim(slots, Before(minimum));
    kept[i := kept[i].(state := Free)]
  }

  lemma TakenCount(slots: seq<Slot>, minimum: u64, i: nat)
    requires i < |slots| && ReadyValid(slots[i], minimum)
    ensures CountIn(Taken(slots, minimum, i), All, 0, |slots|) + 1 + CountIn(slots, Before(minimum), 0, |slots|) ==
            CountIn(slots, All, 0, |slots|)
  {
    var kept := Reclaim(slots, Before(minimum));
    CountAfterReclaim(slots, Before(minimum), 0, |slots|);
    CountAfterUpdate(kept, All, i, kept[i].(state := Free));
  }

  datatype Acquired = Acquired(block: Option<Block>, slots: seq<Slot>, expired: nat, consumer: nat, lastLoad: nat)

  /** What a duplex PRO acquisition does when the k-th load of the playback
      watermark answers `loads(k)`: read the nearest valid block, load again, and
      start over when the block has expired meanwhile. */
  function Acquire(slots: seq<Slot>, consumer: nat, loads: nat -> u64, k: nat): (r: Acquired)
    requires consumer < |slots|
    ensures |r.slots| == |slots| && r.consumer < |slots|
    decreases CountIn(slots, All, 0, |slots|)
  {
    var minimum := loads(k);
    var gone := CountIn(slots, Before(minimum), 0, |slots|);
    match NearestValid(slots, consumer, minimum, |slots|)
    case None => Acquired(None, Reclaim(slots, Before(minimum)), gone, consumer, k)
    case Some(i) =>
      var taken := Taken(slots, minimum, i);
      var next := NextIndex(i, |slots|);
      if IsBefore(slots[i].sequence, loads(k + 1)) then
        TakenCount(slots, minimum, i);
        var rest := Acquire(taken, next, loads, k + 2);
        rest.(expired := gone + 1 + rest.expired)
      else
        Acquired(Some(BlockOf(slots[i])), taken, gone, next, k + 1)
  }

  lemma AfterIsNotBefore(sequence: u64)
    ensures !IsAfter(sequence, sequence)
    ensures forall l :: IsBefore(l, sequence) ==> !IsAfter(l, sequence)
  {
  }

  // ------------------------------------------------------------------ the ring

  class Ring {
    const slots: array<Slot>
    const sampleCount: nat
    var producerIndex: nat
    var consumerIndex: nat
    var expiredCaptureBlocks: nat
    var submitFailures: nat
    var clientPlaybackSequence: u64
    var clientRunning: bool

    ghost predicate Valid()
      reads this, slots
    {
      && producerIndex < slots.Length
      && consumerIndex < slots.Length
      && (forall i :: 0 <= i < slots.Length ==> |slots[i].audio| == sampleCount)
    }

    constructor (slotCount: nat, sampleCount: nat)
      requires slotCount > 0
      ensures Valid() && fresh(slots)
      ensures slots.Length == slotCount && this.sampleCount == sampleCount
      ensures forall i :: 0 <= i < slotCount ==> slots[i].state == Free
      ensures expiredCaptureBlocks == submitFailures == 0 && producerIndex == consumerIndex == 0
      ensures clientPlaybackSequence == 0 && !clientRunning
    {
      var empty := Slot(Free, 0, 0, seq(sampleCount, _ => 0));
      slots := new Slot[slotCount](_ => empty);
      this.sampleCount := sampleCount;
      producerIndex, consumerIndex := 0, 0;
      expiredCaptureBlocks, submitFailures := 0, 0;
      clientPlaybackSequence, clientRunning := 0, false;
    }

    /** Publishes in the first free slot from the producer index. `clock` is what
        the clock call answers; a timestamped publication without a clock frees
        the slot again and fails. */
    method TryPublish(sequence: u64, samples: seq<Sample>, timestamped: bool, clock: Option<u64>) returns (ok: bool)
      requires Valid()
      modifies this`producerIndex, this`clientPlaybackSequence, this`clientRunning, slots
      ensures Valid()
      ensures ok <==> 0 < sampleCount <= |samples| && (timestamped ==> clock.Some?) &&
                      exists i :: 0 <= i < slots.Length && old(slots[i]).state == Free
      ensures ok ==> Published(old(slots[..]), old(producerIndex), Block(sequence, samples[..sampleCount]),
                               if timestamped then clock.value else 0) == Some((slots[..], producerIndex))
      ensures !ok ==> SameLive(old(slots[..]), slots[..]) && producerIndex == old(producerIndex)
      ensures forall i :: 0 <= i < slots.Length && old(slots[..])[i].state != Free ==> slots[i] == old(slots[..])[i]
      ensures !ok ==> forall i :: 0 <= i < slots.Length && old(slots[..])[i].state == Free ==> slots[i].state == Free
      ensures clientPlaybackSequence == if ok && timestamped then sequence else old(clientPlaybackSequence)
      ensures clientRunning == (old(clientRunning) || (ok && timestamped))
    {
      ghost var was := slots[..];
      NoFreeSlot(was, producerIndex);
      if sampleCount == 0 || |samples| < sampleCount {
        return false;
      }
      for offset := 0 to slots.Length
        invariant slots[..] == was
        invariant FindFree(was, producerIndex, offset) == FindFree(was, producerIndex, 0)
      {
        var index := RingIndex(producerIndex, offset, slots.Length);
        if slots[index].state != Free {
          continue;
        }
        ok := FillSlot(index, sequence, samples, timestamped, clock);
        if ok {
          producerIndex := NextIndex(index, slots.Length);
        }
        return;
      }
      return false;
    }

    /** The writer's steps on the slot it has claimed. */
    method FillSlot(index: nat, sequence: u64, samples: seq<Sample>, timestamped: bool, clock: Option<u64>)
      returns (ok: bool)
      requires Valid() && index < slots.Length && slots[index].state == Free && sampleCount <= |samples|
      modifies this`clientPlaybackSequence, this`clientRunning, slots
      ensures Valid()
      ensures ok <==> (timestamped ==> clock.Some?)
      ensures ok ==> slots[..] == old(slots[..])[index := Slot(Ready, sequence, if timestamped then clock.value else 0,
                                                               samples[..sampleCount])]
      ensures !ok ==> SameLive(old(slots[..]), slots[..])
      ensures clientPlaybackSequence == if ok && timestamped then sequence else old(clientPlaybackSequence)
      ensures clientRunning == (old(clientRunning) || (ok && timestamped))
    {
      slots[index] := slots[index].(state := Writing);
      slots[index] := slots[index].(audio := samples[..sampleCount]);
      slots[index] := slots[index].(sequence := sequence);
      var publishedNanos := 0;
      if timestamped {
        if clock.None? {
          slots[index] := slots[index].(state := Free);
          return false;
        }
        publishedNanos := clock.value;
      }
      slots[index] := slots[index].(publishedNanos := publishedNanos);
      if timestamped {
        clientPlaybackSequence := sequence;
        clientRunning := true;
      }
      slots[index] := slots[index].(state := Ready);
      return true;
    }

    /** Playback publications are timestamped, and failures are counted. */
    method TryClientPublishPlayback(sequence: u64, samples: seq<Sample>, clock: Option<u64>) returns (ok: bool)
      requires Valid()
      modifies this`producerIndex, this`clientPlaybackSequence, this`clientRunning, this`submitFailures, slots
      ensures Valid()
      ensures ok <==> 0 < sampleCount <= |samples| && clock.Some? &&
                      exists i :: 0 <= i < slots.Length && old(slots[i]).state == Free
      ensures ok ==> Published(old(slots[..]), old(producerIndex), Block(sequence, samples[..sampleCount]),
                               clock.value) == Some((slots[..], producerIndex))
      ensures !ok ==> SameLive(old(slots[..]), slots[..]) && producerIndex == old(producerIndex)
      ensures clientPlaybackSequence == if ok then sequence else old(clientPlaybackSequence)
      ensures clientRunning == (old(clientRunning) || ok)
      ensures submitFailures == old(submitFailures) + if ok || sampleCount == 0 then 0 else 1
    {
      if sampleCount == 0 {
        return false;
      }
      ok := TryPublish(sequence, samples, true, clock);
      if !ok {
        submitFailures := submitFailures + 1;
      }
    }

    /** Ready to free by way of reading; any other slot is left alone. */
    method ReclaimReadySlot(index: nat)
      requires index < slots.Length
      modifies slots
      ensures slots[..] == if old(slots[index]).state == Ready
                           then old(slots[..])[index := old(slots[index]).(state := Free)] else old(slots[..])
    {
      if slots[index].state == Ready {
        slots[index] := slots[index].(state := Reading);
        slots[index] := slots[index].(state := Free);
      }
    }

    method CopyOut(index: nat, out: array<Sample>)
      requires index < slots.Length && |slots[index].audio| == sampleCount <= out.Length
      modifies out
      ensures out[..] == slots[index].audio + old(out[sampleCount..])
    {
      for k := 0 to sampleCount
        invariant out[..k] == slots[index].audio[..k]
        invariant out[k..] == old(out[k..])
      {
        out[k] := slots[index].audio[k];
      }
    }

    /** Consumes the exact label; ready blocks at or before it never survive the
        call, later blocks are never touched. */
    method TryConsumeExact(expected: u64, cutoff: Option<u64>, out: array<Sample>)
      returns (result: PlaybackConsume, timestamp: Option<u64>)
      requires Valid()
      modifies slots, out
      ensures Valid()
      ensures sampleCount == 0 || out.Length < sampleCount ==>
                result == ConsumedMissing && slots[..] == old(slots[..]) && out[..] == old(out[..])
      ensures 0 < sampleCount <= out.Length ==>
                && result == ExactOutcome(old(slots[..]), expected, cutoff)
                && slots[..] == Reclaim(old(slots[..]), NotAfter(expected))
      // Ready blocks up to the label are gone, and no other slot changes.
      ensures 0 < sampleCount <= out.Length ==>
                forall i :: 0 <= i < slots.Length ==>
                  var slot := old(slots[..])[i];
                  && (slot.state == Ready && (slot.sequence == expected || IsBefore(slot.sequence, expected)) ==>
                        slots[i] == slot.(state := Free))
                  && (slot.state != Ready || IsAfter(slot.sequence, expected) ==> slots[i] == slot)
      ensures result == ConsumedReady ==>
                var first := FirstExact(old(slots[..]), expected, slots.Length);
                first.Some? && out[..] == old(slots[..])[first.value].audio + old(out[sampleCount..])
      ensures result != ConsumedReady ==> out[..] == old(out[..])
      ensures timestamp == if result == ConsumedMissing then None else
                           var first := FirstExact(old(slots[..]), expected, slots.Length);
                           if first.None? || old(slots[..])[first.value].publishedNanos == 0 then None
                           else Some(old(slots[..])[first.value].publishedNanos)
    {
      AfterIsNotBefore(expected);
      hide IsAfter, IsBefore;
      ghost var was := slots[..];
      if sampleCount == 0 || out.Length < sampleCount {
        return ConsumedMissing, None;
      }
      var exactIndex: Option<nat> := None;
      for index := 0 to slots.Length
        invariant out[..] == old(out[..])
        invariant exactIndex == FirstExact(was, expected, index)
        invariant forall i :: 0 <= i < slots.Length ==>
                    slots[i] == if i < index && was[i].state == Ready && !IsAfter(was[i].sequence, expected) &&
                                   exactIndex != Some(i) then was[i].(state := Free) else was[i]
      {
        if slots[index].state != Ready {
          continue;
        }
        var sequence := slots[index].sequence;
        if IsAfter(sequence, expected) {
          continue;
        }
        if sequence == expected && exactIndex.None? {
          exactIndex := Some(index);
          continue;
        }
        ghost var before := slots[..];
        ReclaimReadySlot(index);
        assert slots[..] == before[index := before[index].(state := Free)];
      }
      if exactIndex.None? {
        assert slots[..] == Reclaim(was, NotAfter(expected));
        return ConsumedMissing, None;
      }
      var index := exactIndex.value;
      slots[index] := slots[index].(state := Reading);
      var nanos := slots[index].publishedNanos;
      timestamp := if nanos != 0 then Some(nanos) else None;
      if cutoff.Some? && (nanos == 0 || nanos > cutoff.value) {
        result := ConsumedLate;
      } else {
        CopyOut(index, out);
        result := ConsumedReady;
      }
      slots[index] := slots[index].(state := Free);
      assert slots[..] == Reclaim(was, NotAfter(expected));
    }

    method NextReadyCaptureSlot() returns (selected: Option<nat>)
      requires Valid()
      ensures selected == if sampleCount == 0 then None else OldestReady(slots[..], consumerIndex, slots.Length)
      ensures forall base, i :: Near(slots[..], base) && 0 <= i < slots.Length && slots[i].state == Ready ==>
                if selected.None? then sampleCount == 0
                else !IsBefore(slots[i].sequence, slots[selected.value].sequence)
    {
      forall base, i | Near(slots[..], base) && 0 <= i < slots.Length && slots[i].state == Ready
        ensures var oldest := OldestReady(slots[..], consumerIndex, slots.Length);
                oldest.Some? && !IsBefore(slots[i].sequence, slots[oldest.value].sequence)
      {
        OldestReadyIsOldest(slots[..], consumerIndex, base, slots.Length, ScanOffset(consumerIndex, i, slots.Length));
      }
      selected := None;
      if sampleCount == 0 {
        return;
      }
      for offset := 0 to slots.Length
        invariant selected == OldestReady(slots[..], consumerIndex, offset)
      {
        var index := RingIndex(consumerIndex, offset, slots.Length);
        if slots[index].state == Ready {
          var sequence := slots[index].sequence;
          if selected.None? || IsBefore(sequence, slots[selected.value].sequence) {
            selected := Some(index);
          }
        }
      }
    }

    /** Takes the block of a selected slot. */
    method Take(index: nat, out: array<Sample>) returns (sequence: u64)
      requires Valid() && index < slots.Length && slots[index].state == Ready && sampleCount <= out.Length
      modifies this`consumerIndex, slots, out
      ensures Valid()
      ensures slots[..] == old(slots[..])[index := old(slots[index]).(state := Free)]
      ensures sequence == old(slots[index]).sequence && consumerIndex == NextIndex(index, slots.Length)
      ensures out[..] == old(slots[index]).audio + old(out[sampleCount..])
    {
      slots[index] := slots[index].(state := Reading);
      sequence := slots[index].sequence;
      CopyOut(index, out);
      slots[index] := slots[index].(state := Free);
      consumerIndex := NextIndex(index, slots.Length);
    }

    method TryClientReadCapture(out: array<Sample>) returns (sequence: Option<u64>)
      requires Valid()
      modifies this`consumerIndex, slots, out
      ensures Valid()
      ensures var selected := if sampleCount == 0 || out.Length < sampleCount then None
                              else OldestReady(old(slots[..]), old(consumerIndex), slots.Length);
              match selected
              case None =>
                && sequence == None && slots[..] == old(slots[..]) && out[..] == old(out[..])
                && consumerIndex == old(consumerIndex)
              case Some(i) =>
                && sequence == Some(old(slots[..])[i].sequence)
                && slots[..] == old(slots[..])[i := old(slots[..])[i].(state := Free)]
                && out[..] == old(slots[..])[i].audio + old(out[sampleCount..])
                && consumerIndex == NextIndex(i, slots.Length)
    {
      if sampleCount == 0 || out.Length < sampleCount {
        return None;
      }
      var selected := NextReadyCaptureSlot();
      if selected.None? {
        return None;
      }
      var taken := Take(selected.value, out);
      return Some(taken);
    }

    /** Frees and counts the slot's block if it is before `minimum`; otherwise
        answers its label if it is ready. */
    method InspectSlot(index: nat, minimum: u64) returns (sequence: Option<u64>)
      requires index < slots.Length
      modifies this`expiredCaptureBlocks, slots
      ensures sequence == if ReadyValid(old(slots[index]), minimum) then Some(old(slots[index]).sequence) else None
      ensures slots[..] == if Counts(old(slots[index]), Before(minimum))
                           then old(slots[..])[index := old(slots[index]).(state := Free)] else old(slots[..])
      ensures expiredCaptureBlocks == old(expiredCaptureBlocks) +
                                      if Counts(old(slots[index]), Before(minimum)) then 1 else 0
    {
      if slots[index].state != Ready {
        return None;
      }
      var stored := slots[index].sequence;
      if IsBefore(stored, minimum) {
        ReclaimReadySlot(index);
        expiredCaptureBlocks := expiredCaptureBlocks + 1;
        return None;
      }
      return Some(stored);
    }

    /** Frees and counts what is before `minimum`, and settles on the nearest of
        the rest; the scan begins at `start`. */
    method ScanValid(start: nat, minimum: u64) returns (selected: Option<nat>)
      requires Valid() && start < slots.Length
      modifies this`expiredCaptureBlocks, slots
      ensures Valid()
      ensures selected == NearestValid(old(slots[..]), start, minimum, slots.Length)
      ensures slots[..] == Reclaim(old(slots[..]), Before(minimum))
      ensures forall i :: 0 <= i < slots.Length ==>
                slots[i] == if old(slots[..])[i].state == Ready && IsBefore(old(slots[..])[i].sequence, minimum)
                            then old(slots[..])[i].(state := Free) else old(slots[..])[i]
      ensures expiredCaptureBlocks ==
                old(expiredCaptureBlocks) + CountIn(old(slots[..]), Before(minimum), 0, slots.Length)
    {
      ghost var was := slots[..];
      ReclaimScannedEnds(was, Before(minimum), start);
      selected := None;
      var selectedDistance: u64 := 0;
      for offset := 0 to slots.Length
        invariant selected.Some? ==> selected.value < slots.Length &&
                                     selectedDistance == WrapSub(was[selected.value].sequence, minimum)
        invariant selected == NearestValid(was, start, minimum, offset)
        invariant slots[..] == ReclaimScanned(was, Before(minimum), start, offset)
        invariant expiredCaptureBlocks == old(expiredCaptureBlocks) + CountScanned(was, Before(minimum), start, offset)
      {
        var index := RingIndex(start, offset, slots.Length);
        CountScannedStep(was, Before(minimum), start, offset);
        ReclaimScannedStep(was, Before(minimum), start, offset);
        var sequence := InspectSlot(index, minimum);
        if sequence.Some? {
          var distance := WrapSub(sequence.value, minimum);
          if selected.None? || distance < selectedDistance {
            selected, selectedDistance := Some(index), distance;
          }
        }
      }
      CountScannedAll(was, Before(minimum), start);
      ReclaimKeepsAudio(was, Before(minimum), sampleCount);
    }

    method OldestValidClientCaptureSequence(minimum: u64) returns (sequence: Option<u64>)
      requires Valid()
      modifies this`expiredCaptureBlocks, slots
      ensures Valid()
      ensures sampleCount == 0 ==> sequence == None && slots[..] == old(slots[..]) &&
                                   expiredCaptureBlocks == old(expiredCaptureBlocks)
      ensures sampleCount > 0 ==>
                var nearest := NearestValid(old(slots[..]), 0, minimum, slots.Length);
                && sequence == (if nearest.Some? then Some(old(slots[..])[nearest.value].sequence) else None)
                && slots[..] == Reclaim(old(slots[..]), Before(minimum))
                && expiredCaptureBlocks ==
                   old(expiredCaptureBlocks) + CountIn(old(slots[..]), Before(minimum), 0, slots.Length)
      ensures sampleCount > 0 ==>
                forall i :: 0 <= i < slots.Length ==>
                  slots[i] == if old(slots[..])[i].state == Ready && IsBefore(old(slots[..])[i].sequence, minimum)
                              then old(slots[..])[i].(state := Free) else old(slots[..])[i]
    {
      if sampleCount == 0 {
        return None;
      }
      var selected := ScanValid(0, minimum);
      return if selected.Some? then Some(slots[selected.value].sequence) else None;
    }

    method TryClientReadValidCapture(minimum: u64, out: array<Sample>) returns (sequence: Option<u64>)
      requires Valid()
      modifies this`consumerIndex, this`expiredCaptureBlocks, slots, out
      ensures Valid()
      ensures sampleCount == 0 || out.Length < sampleCount ==>
                sequence == None && slots[..] == old(slots[..]) && out[..] == old(out[..]) &&
                expiredCaptureBlocks == old(expiredCaptureBlocks) && consumerIndex == old(consumerIndex)
      ensures 0 < sampleCount <= out.Length ==>
                var nearest := NearestValid(old(slots[..]), old(consumerIndex), minimum, slots.Length);
                && expiredCaptureBlocks ==
                   old(expiredCaptureBlocks) + CountIn(old(slots[..]), Before(minimum), 0, slots.Length)
                && match nearest
                   case None =>
                     sequence == None && slots[..] == Reclaim(old(slots[..]), Before(minimum)) &&
                       consumerIndex == old(consumerIndex) && out[..] == old(out[..])
                   case Some(i) =>
                     && sequence == Some(old(slots[..])[i].sequence)
                     && slots[..] == Taken(old(slots[..]), minimum, i)
                     && out[..] == old(slots[..])[i].audio + old(out[sampleCount..])
                     && consumerIndex == NextIndex(i, slots.Length)
    {
      if sampleCount == 0 || out.Length < sampleCount {
        return None;
      }
      ghost var was := slots[..];
      var selected := ScanValid(consumerIndex, minimum);
      if selected.None? {
        return None;
      }
      assert slots[selected.value] == was[selected.value];
      var taken := Take(selected.value, out);
      return Some(taken);
    }

    /** Frees every ready block up to `through`; counts those before `minimum`. */
    method DiscardCaptureThrough(through: u64, minimum: u64)
      requires Valid()
      modifies this`expiredCaptureBlocks, slots
      ensures Valid()
      ensures sampleCount == 0 ==> slots[..] == old(slots[..]) && expiredCaptureBlocks == old(expiredCaptureBlocks)
      ensures sampleCount > 0 ==>
                && slots[..] == Reclaim(old(slots[..]), NotAfter(through))
                && expiredCaptureBlocks ==
                   old(expiredCaptureBlocks) +
                     |set i: nat | i < slots.Length && old(slots[..])[i].state == Ready &&
                                   !IsAfter(old(slots[..])[i].sequence, through) &&
                                   IsBefore(old(slots[..])[i].sequence, minimum)|
      ensures sampleCount > 0 ==>
                forall i :: 0 <= i < slots.Length ==>
                  var slot := old(slots[..])[i];
                  && (slot.state == Ready && (slot.sequence == through || IsBefore(slot.sequence, through)) ==>
                        slots[i] == slot.(state := Free))
                  && (slot.state != Ready || IsAfter(slot.sequence, through) ==> slots[i] == slot)
      ensures sampleCount > 0 ==>
                && expiredCaptureBlocks ==
                   old(expiredCaptureBlocks) +
                     CountIn(old(slots[..]), ThroughAndBefore(through, minimum), 0, slots.Length)
    {
      if sampleCount == 0 {
        return;
      }
      ghost var was := slots[..];
      AfterIsNotBefore(through);
      hide IsAfter, IsBefore;
      var expired := 0;
      for index := 0 to slots.Length
        invariant forall i :: 0 <= i < slots.Length ==>
                    slots[i] == if i < index && was[i].state == Ready && !IsAfter(was[i].sequence, through)
                                then was[i].(state := Free) else was[i]
        invariant expired == CountIn(was, ThroughAndBefore(through, minimum), 0, index)
        invariant expiredCaptureBlocks == old(expiredCaptureBlocks)
      {
        if slots[index].state != Ready {
          continue;
        }
        slots[index] := slots[index].(state := Reading);
        var sequence := slots[index].sequence;
        if IsAfter(sequence, through) {
          slots[index] := slots[index].(state := Ready);
          continue;
        }
        if IsBefore(sequence, minimum) {
          expired := expired + 1;
        }
        slots[index] := slots[index].(state := Free);
      }
      assert slots[..] == Reclaim(was, NotAfter(through));
      CountIsSize(was, ThroughAndBefore(through, minimum), slots.Length);
      assert Those(was, ThroughAndBefore(through, minimum), slots.Length) ==
             set i: nat | i < slots.Length && was[i].state == Ready && !IsAfter(was[i].sequence, through) &&
                          IsBefore(was[i].sequence, minimum);
      if expired != 0 {
        expiredCaptureBlocks := expiredCaptureBlocks + expired;
      }
    }

    /** Acquisition for a duplex PRO client: the daemon may move the playback
        watermark between any two loads, so a block can expire after it was
        read; it is then counted instead of returned. */
    method CaptureBuffer(loads: nat -> u64, out: array<Sample>) returns (sequence: Option<u64>)
      requires Valid() && 0 < sampleCount <= out.Length
      modifies this`consumerIndex, this`expiredCaptureBlocks, slots, out
      ensures Valid()
      ensures var acquired := Acquire(old(slots[..]), old(consumerIndex), loads, 0);
              && slots[..] == acquired.slots
              && consumerIndex == acquired.consumer
              && expiredCaptureBlocks == old(expiredCaptureBlocks) + acquired.expired
              && sequence == (if acquired.block.Some? then Some(acquired.block.value.sequence) else None)
              && (acquired.block.Some? ==> out[..sampleCount] == acquired.block.value.audio)
    {
      ghost var goal := Acquire(slots[..], consumerIndex, loads, 0);
      var k := 0;
      while true
        invariant Valid()
        invariant expiredCaptureBlocks >= old(expiredCaptureBlocks)
        invariant var rest := Acquire(slots[..], consumerIndex, loads, k);
                  rest.(expired := expiredCaptureBlocks - old(expiredCaptureBlocks) + rest.expired) == goal
        decreases CountIn(slots[..], All, 0, slots.Length)
      {
        var minimum := loads(k);
        ghost var was := slots[..];
        ghost var start := consumerIndex;
        sequence := TryClientReadValidCapture(minimum, out);
        if sequence.None? {
          return;
        }
        ghost var i := NearestValid(was, start, minimum, |was|).value;
        assert out[..sampleCount] == was[i].audio;
        if IsBefore(sequence.value, loads(k + 1)) {
          TakenCount(was, minimum, i);
          expiredCaptureBlocks := expiredCaptureBlocks + 1;
          k := k + 2;
          continue;
        }
        return;
      }
    }
  }
}
