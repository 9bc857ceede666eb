/** Why a capture client that sleeps on its event never sleeps on a block: the
    daemon publishes and then notifies, the client drains and then looks, and
    either thread may run between any two steps of the other. */
module CaptureWake {
  import opened Sequences

  datatype Daemon = Quiet | MustNotify

  /** `Rechecking` is the scan for a next block after an acquisition, `Counting`
      the scan for a second block after a wait. */
  datatype Client =
    | Asleep
    | AfterAcquire
    | AfterWait
    | Acquiring
    | Rechecking(index: nat, minimum: Option<u64>, found: bool)
    | Counting(index: nat, counted: set<nat>)

  /** A cell is the label of a ready block, or None. */
  datatype Wake = Wake(cells: seq<Option<u64>>, readable: bool, daemon: Daemon, client: Client)

  datatype Move =
    | Publish(index: nat, sequence: u64)
    | Notify
    | BeginAcquire
    | TakeOrReclaim(index: nat)
    | BeginRecheck(minimum: Option<u64>)
    | Recheck
    | BeginWait(index: nat)
    | Count

  predicate AtRest(client: Client) {
    client.Asleep? || client.AfterAcquire? || client.AfterWait?
  }

  /** A move that does not apply stutters. */
  function Step(s: Wake, move: Move): (t: Wake)
    ensures |t.cells| == |s.cells|
  {
    match move
    case Publish(index, sequence) =>
      if s.daemon.Quiet? && index < |s.cells| && s.cells[index].None?
      then s.(cells := s.cells[index := Some(sequence)], daemon := MustNotify) else s
    case Notify =>
      if s.daemon.MustNotify? then s.(readable := true, daemon := Quiet) else s
    case BeginAcquire =>
      if AtRest(s.client) then s.(readable := false, client := Acquiring) else s
    case TakeOrReclaim(index) =>
      if s.client.Acquiring? && index < |s.cells| then s.(cells := s.cells[index := None]) else s
    case BeginRecheck(minimum) =>
      if s.client.Acquiring? then s.(client := Rechecking(0, minimum, false)) else s
    case Recheck =>
      if !s.client.Rechecking? then s
      else
        var Rechecking(index, minimum, found) := s.client;
        if index >= |s.cells| then s.(readable := s.readable || found, client := AfterAcquire)
        else if s.cells[index].None? then s.(client := Rechecking(index + 1, minimum, found))
        else if minimum.Some? && IsBefore(s.cells[index].value, minimum.value)
        then s.(cells := s.cells[index := None], client := Rechecking(index + 1, minimum, found))
        else s.(client := Rechecking(index + 1, minimum, true))
    case BeginWait(index) =>
      // wait_period has found a ready block: drain, then look for a second one.
      if AtRest(s.client) && index < |s.cells| && s.cells[index].Some?
      then s.(readable := false, client := Counting(0, {})) else s
    case Count =>
      if !s.client.Counting? then s
      else
        var Counting(index, counted) := s.client;
        if index >= |s.cells| then s.(readable := s.readable || |counted| > 1, client := AfterWait)
        else if s.cells[index].None? then s.(client := Counting(index + 1, counted))
        else s.(client := Counting(index + 1, counted + {index}))
  }

  /** A wake is on its way. */
  predicate Signalled(s: Wake) {
    s.readable || s.daemon.MustNotify?
  }

  predicate SomeReady(s: Wake) {
    exists i :: 0 <= i < |s.cells| && s.cells[i].Some?
  }

  predicate TwoReady(s: Wake) {
    exists i, j :: 0 <= i < j < |s.cells| && s.cells[i].Some? && s.cells[j].Some?
  }

  /** A block that a scan has passed without noticing was published behind it,
      after the drain. */
  ghost predicate Inv(s: Wake) {
    match s.client
    case Asleep => true
    case AfterAcquire => SomeReady(s) ==> Signalled(s)
    case AfterWait => TwoReady(s) ==> Signalled(s)
    case Acquiring => true
    case Rechecking(index, minimum, found) =>
      found || forall i :: 0 <= i < index && i < |s.cells| && s.cells[i].Some? ==> Signalled(s)
    case Counting(index, counted) =>
      (forall i :: i in counted ==> i < |s.cells|) &&
      forall i :: 0 <= i < index && i < |s.cells| && s.cells[i].Some? ==> i in counted || Signalled(s)
  }

  lemma TwoOfAtMostOne(counted: set<nat>, i: nat, j: nat)
    requires |counted| <= 1 && i in counted && j in counted
    ensures i == j
  {
    if i != j {
      assert |counted - {i}| >= 1 by {
        assert j in counted - {i};
      }
    }
  }

  lemma StepKeepsInv(s: Wake, move: Move)
    requires Inv(s)
    ensures Inv(Step(s, move))
  {
    var t := Step(s, move);
    if move.Count? && s.client.Counting? && s.client.index >= |s.cells| && |s.client.counted| <= 1 && TwoReady(s) {
      var i, j :| 0 <= i < j < |s.cells| && s.cells[i].Some? && s.cells[j].Some?;
      if i in s.client.counted && j in s.client.counted {
        TwoOfAtMostOne(s.client.counted, i, j);
      }
    }
  }

  function Run(s: Wake, moves: seq<Move>): Wake
    decreases |moves|
  {
    if moves == [] then s else Run(Step(s, moves[0]), moves[1..])
  }

  lemma {:induction false} RunKeepsInv(s: Wake, moves: seq<Move>)
    requires Inv(s)
    ensures Inv(Run(s, moves))
    decreases |moves|
  {
    if moves != [] {
      StepKeepsInv(s, moves[0]);
      RunKeepsInv(Step(s, moves[0]), moves[1..]);
    }
  }

  /** No lost wake: in every interleaving, from any time after an acquisition has
      returned until the next call, a ready block means that the event is
      readable or the daemon stands between its publish and its notify; after a
      wait has returned, this holds for any block beside the one announced. */
  lemma NoLostWake(cells: seq<Option<u64>>, readable: bool, daemon: Daemon, moves: seq<Move>)
    ensures var s := Run(Wake(cells, readable, daemon, Asleep), moves);
            && (s.client.AfterAcquire? && SomeReady(s) ==> s.readable || s.daemon.MustNotify?)
            && (s.client.AfterWait? && TwoReady(s) ==> s.readable || s.daemon.MustNotify?)
  {
    RunKeepsInv(Wake(cells, readable, daemon, Asleep), moves);
  }

  lemma RunOneMore(s: Wake, move: Move, moves: seq<Move>)
    ensures Run(s, [move] + moves) == Run(Step(s, move), moves)
  {
    assert ([move] + moves)[1..] == moves;
  }

  function Repeated(move: Move, count: nat): seq<Move> {
    if count == 0 then [] else [move] + Repeated(move, count - 1)
  }

  /** A block that a scan with this minimum leaves to be read. */
  predicate Remains(cell: Option<u64>, minimum: Option<u64>) {
    cell.Some? && (minimum.Some? ==> !IsBefore(cell.value, minimum.value))
  }

  predicate SomeRemains(cells: seq<Option<u64>>, index: nat, minimum: Option<u64>) {
    exists i :: index <= i < |cells| && Remains(cells[i], minimum)
  }

  lemma SomeRemainsNext(cells: seq<Option<u64>>, after: seq<Option<u64>>, index: nat, minimum: Option<u64>)
    requires index < |cells| == |after| && forall i :: index < i < |cells| ==> after[i] == cells[i]
    ensures SomeRemains(cells, index, minimum) <==>
            Remains(cells[index], minimum) || SomeRemains(after, index + 1, minimum)
  {
  }

  lemma RecheckOnce(s: Wake, index: nat, minimum: Option<u64>, found: bool)
    requires s.client == Rechecking(index, minimum, found) && index < |s.cells|
    ensures var remains := Remains(s.cells[index], minimum);
            Step(s, Recheck) == s.(cells := s.cells[index := if remains then s.cells[index] else None],
                                   client := Rechecking(index + 1, minimum, found || remains))
  {
  }

  /** The scan after an acquisition, left alone, signals just when a block remains to be
      read, and reclaims the others. */
  lemma {:induction false} RecheckAlone(s: Wake, index: nat, minimum: Option<u64>, found: bool)
    requires s.client == Rechecking(index, minimum, found) && index <= |s.cells|
    ensures var t := Run(s, Repeated(Recheck, |s.cells| - index + 1));
            && t.client == AfterAcquire && t.daemon == s.daemon && |t.cells| == |s.cells|
            && (forall i :: 0 <= i < |s.cells| ==>
                  t.cells[i] == if i < index || Remains(s.cells[i], minimum) then s.cells[i] else None)
            && (t.readable <==> s.readable || found || SomeRemains(s.cells, index, minimum))
    decreases |s.cells| - index
  {
    var count := |s.cells| - index;
    RunOneMore(s, Recheck, Repeated(Recheck, count));
    var next := Step(s, Recheck);
    if index == |s.cells| {
      assert Run(next, []) == next;
    } else {
      RecheckOnce(s, index, minimum, found);
      hide SomeRemains, IsBefore, Remains, Step;
      RecheckAlone(next, index + 1, minimum, found || Remains(s.cells[index], minimum));
      SomeRemainsNext(s.cells, next.cells, index, minimum);
    }
  }

  /** So an acquisition that takes one block and is left alone leaves the event readable
      just when another is ready: no wake for nothing. */
  lemma AcquiringAlone(s: Wake, index: nat)
    requires AtRest(s.client) && index < |s.cells|
    ensures var moves := [BeginAcquire] + ([TakeOrReclaim(index)] +
                           ([BeginRecheck(None)] + Repeated(Recheck, |s.cells| + 1)));
            var t := Run(s, moves);
            && t.client == AfterAcquire && t.cells == s.cells[index := None] && (t.readable <==> SomeReady(t))
  {
    var begun := Step(s, BeginAcquire);
    var taken := Step(begun, TakeOrReclaim(index));
    var looking := Step(taken, BeginRecheck(None));
    RunOneMore(s, BeginAcquire,
               [TakeOrReclaim(index)] + ([BeginRecheck(None)] + Repeated(Recheck, |s.cells| + 1)));
    RunOneMore(begun, TakeOrReclaim(index), [BeginRecheck(None)] + Repeated(Recheck, |s.cells| + 1));
    RunOneMore(taken, BeginRecheck(None), Repeated(Recheck, |s.cells| + 1));
    RecheckAlone(looking, 0, None, false);
    var t := Run(looking, Repeated(Recheck, |s.cells| + 1));
    assert t.cells == s.cells[index := None];
    assert forall i :: 0 <= i < |t.cells| ==> (Remains(looking.cells[i], None) <==> t.cells[i].Some?);
    assert SomeRemains(looking.cells, 0, None) <==> SomeReady(t);
  }

  function ReadyFrom(cells: seq<Option<u64>>, index: nat): set<nat> {
    set i: nat | index <= i < |cells| && cells[i].Some?
  }

  lemma ReadyFromNext(cells: seq<Option<u64>>, index: nat, counted: set<nat>)
    requires index < |cells|
    ensures counted + ReadyFrom(cells, index) ==
            (if cells[index].Some? then counted + {index} else counted) + ReadyFrom(cells, index + 1)
  {
  }

  lemma NoneFromEnd(cells: seq<Option<u64>>, counted: set<nat>)
    ensures counted + ReadyFrom(cells, |cells|) == counted
  {
  }

  /** The scan after a wait, left alone, signals just when it has counted two blocks. */
  lemma {:induction false} CountAlone(s: Wake, index: nat, counted: set<nat>)
    requires s.client == Counting(index, counted) && index <= |s.cells|
    ensures Run(s, Repeated(Count, |s.cells| - index + 1)) ==
            s.(client := AfterWait, readable := s.readable || |counted + ReadyFrom(s.cells, index)| > 1)
    decreases |s.cells| - index
  {
    hide ReadyFrom;
    var count := |s.cells| - index;
    RunOneMore(s, Count, Repeated(Count, count));
    if index == |s.cells| {
      NoneFromEnd(s.cells, counted);
    } else {
      var more := if s.cells[index].Some? then counted + {index} else counted;
      ReadyFromNext(s.cells, index, counted);
      CountAlone(s.(client := Counting(index + 1, more)), index + 1, more);
    }
  }

  lemma TwoReadyCounts(s: Wake)
    ensures |ReadyFrom(s.cells, 0)| > 1 <==> TwoReady(s)
  {
    var ready := ReadyFrom(s.cells, 0);
    if TwoReady(s) {
      var i, j :| 0 <= i < j < |s.cells| && s.cells[i].Some? && s.cells[j].Some?;
      assert i in ready && j in ready;
      if |ready| <= 1 {
        TwoOfAtMostOne(ready, i, j);
      }
    }
    if |ready| > 1 {
      var i :| i in ready;
      assert |ready - {i}| > 0;
      var j :| j in ready - {i};
      if j < i {
        assert s.cells[j].Some? && s.cells[i].Some?;
      } else {
        assert s.cells[i].Some? && s.cells[j].Some?;
      }
    }
  }

  /** So a wait that is left alone leaves the event readable just when a second block is
      ready beside the one it announces. */
  lemma WaitingAlone(s: Wake, index: nat)
    requires AtRest(s.client) && index < |s.cells| && s.cells[index].Some?
    ensures Run(s, [BeginWait(index)] + Repeated(Count, |s.cells| + 1)) ==
            s.(client := AfterWait, readable := TwoReady(s))
  {
    hide ReadyFrom, TwoReady;
    var waiting := s.(readable := false, client := Counting(0, {}));
    RunOneMore(s, BeginWait(index), Repeated(Count, |s.cells| + 1));
    CountAlone(waiting, 0, {});
    TwoReadyCounts(s);
    assert {} + ReadyFrom(s.cells, 0) == ReadyFrom(s.cells, 0);
  }

  /** A publication wakes a sleeping client. */
  lemma PublishingWakes(s: Wake, index: nat, sequence: u64)
    requires s.daemon.Quiet? && index < |s.cells| && s.cells[index].None?
    ensures Run(s, [Publish(index, sequence)] + ([Notify] + [])) ==
            s.(cells := s.cells[index := Some(sequence)], readable := true)
  {
    RunOneMore(s, Publish(index, sequence), [Notify] + []);
    RunOneMore(Step(s, Publish(index, sequence)), Notify, []);
  }

  /** Looking again after the read is needed: the drain can swallow the notices
      of two blocks, so returning after a single read would leave a ready block
      that nothing signals. */
  lemma OneReadMayLeaveABlock(a: u64, b: u64)
    ensures var read := Run(Wake([Some(a), Some(b)], true, Quiet, Asleep), [BeginAcquire, TakeOrReclaim(0)]);
            var returned := read.(client := AfterAcquire);
            SomeReady(returned) && !Signalled(returned) && !Inv(returned)
  {
    var s0 := Wake([Some(a), Some(b)], true, Quiet, Asleep);
    var s1 := Wake([Some(a), Some(b)], false, Quiet, Acquiring);
    var s2 := Wake([Some(a), Some(b)][0 := None], false, Quiet, Acquiring);
    var moves := [BeginAcquire, TakeOrReclaim(0)];
    assert Run(s1, moves[1..]) == Run(s2, moves[1..][1..]) == s2;
    assert s2.(client := AfterAcquire).cells[1].Some?;
  }
}
