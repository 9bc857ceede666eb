/** Where a duplex PRO client's capture blocks go: over any run of publications,
    acquisitions and announcements, each published block is returned once, or
    counted once as expired, or still ready. */
module CaptureLedger {
  import opened Sequences
  import opened SlotRing

  /** The accounts are kept for one block, or for all blocks together. */
  datatype Account = Every | Only(block: Block)
  {
    predicate Covers(block: Block) {
      this.Every? || this.block == block
    }

    function Amount(block: Option<Block>): nat {
      if block.Some? && Covers(block.value) then 1 else 0
    }
  }

  predicate Held(slot: Slot, p: Labels, account: Account) {
    Counts(slot, p) && account.Covers(BlockOf(slot))
  }

  /** How often a covered block with a label in `p` is ready in [lo, hi). */
  function ReadyIn(slots: seq<Slot>, p: Labels, account: Account, lo: nat, hi: nat): nat
    requires lo <= hi <= |slots|
  {
    if lo == hi then 0
    else ReadyIn(slots, p, account, lo, hi - 1) + if Held(slots[hi - 1], p, account) then 1 else 0
  }

  function ReadyNow(slots: seq<Slot>, account: Account): nat {
    ReadyIn(slots, All, account, 0, |slots|)
  }

  /** The ready slots below `hi` that hold a covered block. */
  function CoveredBelow(slots: seq<Slot>, account: Account, hi: nat): set<nat>
    requires hi <= |slots|
  {
    set i: nat | i < hi && slots[i].state == Ready && (account.Every? || BlockOf(slots[i]) == account.block)
  }

  lemma CoveredNext(slots: seq<Slot>, account: Account, hi: nat)
    requires 0 < hi <= |slots|
    ensures CoveredBelow(slots, account, hi) ==
            CoveredBelow(slots, account, hi - 1) + if Held(slots[hi - 1], All, account) then {hi - 1} else {}
    ensures hi - 1 !in CoveredBelow(slots, account, hi - 1)
  {
  }

  /** The count is how many there are. */
  lemma {:induction false} ReadyInIsSize(slots: seq<Slot>, account: Account, hi: nat)
    requires hi <= |slots|
    ensures ReadyIn(slots, All, account, 0, hi) == |CoveredBelow(slots, account, hi)|
  {
    if hi > 0 {
      ReadyInIsSize(slots, account, hi - 1);
      CoveredNext(slots, account, hi);
      hide CoveredBelow, Held;
    } else {
      assert CoveredBelow(slots, account, 0) == {};
    }
  }

  lemma {:induction false} ReadyInAppend(slots: seq<Slot>, p: Labels, account: Account, lo: nat, mid: nat, hi: nat)
    requires lo <= mid <= hi <= |slots|
    ensures ReadyIn(slots, p, account, lo, hi) ==
              ReadyIn(slots, p, account, lo, mid) + ReadyIn(slots, p, account, mid, hi)
  {
    if mid < hi {
      ReadyInAppend(slots, p, account, lo, mid, hi - 1);
    }
  }

  lemma {:induction false} ReadyInSame(a: seq<Slot>, b: seq<Slot>, p: Labels, account: Account, lo: nat, hi: nat)
    requires |a| == |b| && lo <= hi <= |a|
    requires forall i :: lo <= i < hi ==> a[i] == b[i]
    ensures ReadyIn(a, p, account, lo, hi) == ReadyIn(b, p, account, lo, hi)
  {
    if lo < hi {
      ReadyInSame(a, b, p, account, lo, hi - 1);
    }
  }

  /** Changing one slot moves at most that slot's block. */
  lemma ReadyAfterUpdate(slots: seq<Slot>, account: Account, i: nat, slot: Slot)
    requires i < |slots|
    ensures ReadyNow(slots[i := slot], account) + (if Held(slots[i], All, account) then 1 else 0) ==
            ReadyNow(slots, account) + if Held(slot, All, account) then 1 else 0
  {
    var updated := slots[i := slot];
    ReadyInAppend(slots, All, account, 0, i + 1, |slots|);
    ReadyInAppend(updated, All, account, 0, i + 1, |slots|);
    ReadyInSame(slots, updated, All, account, 0, i);
    ReadyInSame(slots, updated, All, account, i + 1, |slots|);
  }

  /** Reclaiming conserves blocks: what was ready is what stays plus what went. */
  lemma {:induction false} ReclaimConserves(slots: seq<Slot>, gone: Labels, account: Account, lo: nat, hi: nat)
    requires lo <= hi <= |slots|
    ensures ReadyIn(slots, All, account, lo, hi) ==
            ReadyIn(Reclaim(slots, gone), All, account, lo, hi) + ReadyIn(slots, gone, account, lo, hi)
    ensures account.Every? ==> ReadyIn(slots, gone, account, lo, hi) == CountIn(slots, gone, lo, hi)
  {
    if lo < hi {
      ReclaimConserves(slots, gone, account, lo, hi - 1);
    }
  }

  /** Covered blocks that an acquisition counts as expired. */
  function AcquireExpired(slots: seq<Slot>, consumer: nat, loads: nat -> u64, k: nat, account: Account): nat
    requires consumer < |slots|
    decreases CountIn(slots, All, 0, |slots|)
  {
    var gone := ReadyIn(slots, Before(loads(k)), account, 0, |slots|);
    match NearestValid(slots, consumer, loads(k), |slots|)
    case None => gone
    case Some(i) =>
      if IsBefore(slots[i].sequence, loads(k + 1)) then
        TakenCount(slots, loads(k), i);
        gone + account.Amount(Some(BlockOf(slots[i]))) +
        AcquireExpired(Taken(slots, loads(k), i), NextIndex(i, |slots|), loads, k + 2, account)
      else gone
  }

  /** Taking the nearest valid block removes it and the expired ones, nothing else. */
  lemma TakeConserves(slots: seq<Slot>, minimum: u64, i: nat, account: Account)
    requires i < |slots| && ReadyValid(slots[i], minimum)
    ensures ReadyNow(slots, account) ==
            ReadyNow(Taken(slots, minimum, i), account) + account.Amount(Some(BlockOf(slots[i]))) +
            ReadyIn(slots, Before(minimum), account, 0, |slots|)
  {
    var kept := Reclaim(slots, Before(minimum));
    ReclaimConserves(slots, Before(minimum), account, 0, |slots|);
    ReadyAfterUpdate(kept, account, i, kept[i].(state := Free));
  }

  predicate Retries(slots: seq<Slot>, consumer: nat, loads: nat -> u64, k: nat)
    requires consumer < |slots|
  {
    var selected := NearestValid(slots, consumer, loads(k), |slots|);
    selected.Some? && IsBefore(slots[selected.value].sequence, loads(k + 1))
  }

  /** One acquisition conserves blocks, and counts exactly what it lets expire. */
  lemma {:induction false} AcquireConserves(slots: seq<Slot>, consumer: nat, loads: nat -> u64, k: nat,
                                            account: Account)
    requires consumer < |slots|
    ensures var r := Acquire(slots, consumer, loads, k);
            var expired := AcquireExpired(slots, consumer, loads, k, account);
            && ReadyNow(slots, account) == ReadyNow(r.slots, account) + account.Amount(r.block) + expired
            && (account.Every? ==> expired == r.expired)
    decreases CountIn(slots, All, 0, |slots|)
  {
    ReclaimConserves(slots, Before(loads(k)), account, 0, |slots|);
    var selected := NearestValid(slots, consumer, loads(k), |slots|);
    if selected.Some? {
      TakeConserves(slots, loads(k), selected.value, account);
      if Retries(slots, consumer, loads, k) {
        TakenCount(slots, loads(k), selected.value);
        AcquireConserves(Taken(slots, loads(k), selected.value), NextIndex(selected.value, |slots|), loads, k + 2,
                         account);
      }
    }
  }

  lemma NothingLeft(slots: seq<Slot>, consumer: nat, minimum: u64)
    requires consumer < |slots| && NearestValid(slots, consumer, minimum, |slots|).None?
    ensures forall i :: 0 <= i < |slots| ==> Reclaim(slots, Before(minimum))[i].state != Ready
  {
    forall i | 0 <= i < |slots| ensures !ReadyValid(slots[i], minimum) {
      if ReadyValid(slots[i], minimum) {
        NearestIsNearest(slots, consumer, minimum, |slots|, ScanOffset(consumer, i, |slots|));
      }
    }
  }

  /** It never returns a label before either watermark of its last attempt, and comes
      back empty only when nothing is left ready. */
  lemma {:induction false} AcquireIsValid(slots: seq<Slot>, consumer: nat, loads: nat -> u64, k: nat)
    returns (retries: nat)
    requires consumer < |slots|
    ensures var r := Acquire(slots, consumer, loads, k);
            && r.lastLoad == k + 2 * retries + (if r.block.Some? then 1 else 0)
            && (r.block.Some? ==>
                  && !IsBefore(r.block.value.sequence, loads(r.lastLoad - 1))
                  && !IsBefore(r.block.value.sequence, loads(r.lastLoad)))
            && (r.block.None? ==> forall i :: 0 <= i < |slots| ==> r.slots[i].state != Ready)
    decreases CountIn(slots, All, 0, |slots|)
  {
    hide IsBefore, CountIn, Reclaim;
    retries := 0;
    var selected := NearestValid(slots, consumer, loads(k), |slots|);
    if selected.None? {
      NothingLeft(slots, consumer, loads(k));
    } else if Retries(slots, consumer, loads, k) {
      TakenCount(slots, loads(k), selected.value);
      retries := AcquireIsValid(Taken(slots, loads(k), selected.value), NextIndex(selected.value, |slots|), loads,
                                k + 2);
      retries := retries + 1;
    }
  }

  /** The announced label is the one the next acquisition returns while the
      watermark stays where it is. */
  lemma AnnouncedIsReturned(slots: seq<Slot>, consumer: nat, minimum: u64, loads: nat -> u64)
    requires consumer < |slots| && loads(0) == loads(1) == minimum
    ensures var announced := NearestValid(slots, 0, minimum, |slots|);
            var r := Acquire(Reclaim(slots, Before(minimum)), consumer, loads, 0);
            && (announced.None? <==> r.block.None?)
            && (announced.Some? ==> r.block.Some? && r.block.value.sequence == slots[announced.value].sequence)
  {
    var kept := Reclaim(slots, Before(minimum));
    var announced := NearestValid(slots, 0, minimum, |slots|);
    var next := NearestValid(kept, consumer, minimum, |slots|);
    if announced.Some? {
      NearestIsNearest(kept, consumer, minimum, |slots|, ScanOffset(consumer, announced.value, |slots|));
    }
    if next.Some? {
      NearestIsNearest(slots, 0, minimum, |slots|, ScanOffset(0, next.value, |slots|));
    }
  }

  // ------------------------------------------------------------------ whole runs

  /** An acquisition in two parts, so that the daemon may publish between them:
      `Read` loads the watermark and takes the nearest valid block, `Confirm`
      loads it again and returns the block or counts it as expired. */
  datatype Call = Publish(block: Block) | Read(minimum: u64) | Confirm(watermark: u64) | Announce(minimum: u64)

  datatype Ledger = Ledger(slots: seq<Slot>, producer: nat, consumer: nat, expiredCount: nat, held: Option<Block>,
                           account: Account, published: nat, returned: nat, expired: nat)
  {
    predicate Valid() {
      producer < |slots| && consumer < |slots|
    }

    /** Each covered publication is in exactly one place; over all blocks, the
        expired ones are what the region's counter says. */
    predicate Balanced() {
      && published == returned + expired + account.Amount(held) + ReadyNow(slots, account)
      && (account.Every? ==> expired == expiredCount)
    }
  }

  /** The slots let go of every ready block before `minimum`, and count it. */
  function Expire(s: Ledger, minimum: u64): Ledger {
    s.(slots := Reclaim(s.slots, Before(minimum)),
       expiredCount := s.expiredCount + CountIn(s.slots, Before(minimum), 0, |s.slots|),
       expired := s.expired + ReadyIn(s.slots, Before(minimum), s.account, 0, |s.slots|))
  }

  /** A call that does not apply stutters. */
  function Step(s: Ledger, call: Call): (r: Ledger)
    requires s.Valid()
    ensures r.Valid() && r.account == s.account
  {
    match call
    case Publish(block) => (
      match Published(s.slots, s.producer, block, 0)
      case None => s
      case Some((slots, producer)) =>
        s.(slots := slots, producer := producer, published := s.published + s.account.Amount(Some(block))))
    case Read(minimum) =>
      if s.held.Some? then s else (
        match NearestValid(s.slots, s.consumer, minimum, |s.slots|)
        case None => Expire(s, minimum)
        case Some(i) =>
          Expire(s, minimum).(slots := Taken(s.slots, minimum, i), consumer := NextIndex(i, |s.slots|),
                              held := Some(BlockOf(s.slots[i]))))
    case Confirm(watermark) =>
      if s.held.None? then s
      else if IsBefore(s.held.value.sequence, watermark) then
        s.(held := None, expiredCount := s.expiredCount + 1, expired := s.expired + s.account.Amount(s.held))
      else s.(held := None, returned := s.returned + s.account.Amount(s.held))
    case Announce(minimum) => if s.held.Some? then s else Expire(s, minimum)
  }

  /** A publication goes into the first free slot and counts as published, or changes
      nothing; an announcement, like an acquisition that finds nothing, expires what is
      before its watermark. */
  lemma StepsAreTheCalls(s: Ledger, block: Block, minimum: u64)
    requires s.Valid()
    ensures Step(s, Publish(block)) ==
            var free := FindFree(s.slots, s.producer, 0);
            if free.None? then s
            else s.(slots := s.slots[free.value := Slot(Ready, block.sequence, 0, block.audio)],
                    producer := NextIndex(free.value, |s.slots|),
                    published := s.published + if s.account.Every? || s.account.block == block then 1 else 0)
    ensures s.held.None? ==> Step(s, Announce(minimum)) == Expire(s, minimum)
  {
  }

  function Run(s: Ledger, calls: seq<Call>): (r: Ledger)
    requires s.Valid()
    ensures r.Valid()
    decreases |calls|
  {
    if calls == [] then s else Run(Step(s, calls[0]), calls[1..])
  }

  lemma StepKeepsBalance(s: Ledger, call: Call)
    requires s.Valid() && s.Balanced()
    ensures Step(s, call).Balanced()
  {
    match call
    case Publish(block) =>
      var free := FindFree(s.slots, s.producer, 0);
      if free.Some? {
        ReadyAfterUpdate(s.slots, s.account, free.value, Slot(Ready, block.sequence, 0, block.audio));
      }
    case Read(minimum) =>
      ReclaimConserves(s.slots, Before(minimum), s.account, 0, |s.slots|);
      var selected := NearestValid(s.slots, s.consumer, minimum, |s.slots|);
      if selected.Some? {
        TakeConserves(s.slots, minimum, selected.value, s.account);
      }
    case Confirm(_) =>
    case Announce(minimum) => ReclaimConserves(s.slots, Before(minimum), s.account, 0, |s.slots|);
  }

  /** Conservation over whole runs, for each block and for all of them. */
  lemma {:induction false} RunKeepsBalance(s: Ledger, calls: seq<Call>)
    requires s.Valid() && s.Balanced()
    ensures Run(s, calls).Balanced()
    ensures var t := Run(s, calls);
            var held := if t.held.Some? && (t.account.Every? || t.account.block == t.held.value) then 1 else 0;
            && t.published == t.returned + t.expired + held + ReadyNow(t.slots, t.account)
            && (t.account.Every? ==> t.expired == t.expiredCount)
    decreases |calls|
  {
    if calls != [] {
      StepKeepsBalance(s, calls[0]);
      RunKeepsBalance(Step(s, calls[0]), calls[1..]);
    }
  }

  /** The parts of an acquisition that nothing is published into. */
  function Parts(slots: seq<Slot>, consumer: nat, loads: nat -> u64, k: nat): seq<Call>
    requires consumer < |slots|
    decreases CountIn(slots, All, 0, |slots|)
  {
    match NearestValid(slots, consumer, loads(k), |slots|)
    case None => [Read(loads(k))]
    case Some(i) =>
      [Read(loads(k)), Confirm(loads(k + 1))] +
      if IsBefore(slots[i].sequence, loads(k + 1)) then
        TakenCount(slots, loads(k), i);
        Parts(Taken(slots, loads(k), i), NextIndex(i, |slots|), loads, k + 2)
      else []
  }

  lemma RunTwo(s: Ledger, first: Call, second: Call, rest: seq<Call>)
    requires s.Valid()
    ensures Run(s, [first, second] + rest) == Run(Step(Step(s, first), second), rest)
  {
    var calls := [first, second] + rest;
    assert calls[1..][0] == second && calls[1..][1..] == rest;
  }

  /** Run in a row, the parts are the whole acquisition. */
  lemma {:induction false} PartsAreAcquire(s: Ledger, loads: nat -> u64, k: nat)
    requires s.Valid() && s.held == None
    ensures var r := Acquire(s.slots, s.consumer, loads, k);
            Run(s, Parts(s.slots, s.consumer, loads, k)) ==
            s.(slots := r.slots, consumer := r.consumer, expiredCount := s.expiredCount + r.expired,
               returned := s.returned + s.account.Amount(r.block),
               expired := s.expired + AcquireExpired(s.slots, s.consumer, loads, k, s.account))
    decreases CountIn(s.slots, All, 0, |s.slots|)
  {
    hide CountIn, ReadyIn, Reclaim, NearestValid;
    var selected := NearestValid(s.slots, s.consumer, loads(k), |s.slots|);
    if selected.None? {
      assert Run(Step(s, Read(loads(k))), [Read(loads(k))][1..]) == Step(s, Read(loads(k)));
    } else {
      var next := Step(Step(s, Read(loads(k))), Confirm(loads(k + 1)));
      var retries := Retries(s.slots, s.consumer, loads, k);
      TakenCount(s.slots, loads(k), selected.value);
      RunTwo(s, Read(loads(k)), Confirm(loads(k + 1)),
             if retries then Parts(next.slots, next.consumer, loads, k + 2) else []);
      if retries {
        PartsAreAcquire(next, loads, k + 2);
      }
    }
  }
}
