/** The label clock that the capture thread and the playback thread share. */
module ProClock {
  import opened Sequences

  /** A capture label and the playback target it was taken against. */
  datatype Taken = Taken(sequence: int, target: int)

  /** Where the playback thread is: between calls, before publishing its target,
      or in a recovery that has read the capture clock. */
  datatype Player = Idle | Publishing | Realigning(to: int)

  /** Where the capture thread is: between periods, or before publishing `next`. */
  datatype Capturer = Waiting | Announcing

  /** The two shared words, both threads' own sequences, and the labels taken. */
  datatype Clock = Clock(target: int, captureNext: int, playback: int, next: int, player: Player, capturer: Capturer,
                         taken: seq<Taken>)

  /** The atomic steps of both threads. */
  datatype Move = Write | Publish | Recover | Realign | Take | Announce

  function Start(lead: u64): Clock {
    Clock(lead, lead, 0, lead, Idle, Waiting, [])
  }

  predicate Enabled(c: Clock, move: Move) {
    match move
    case Write => c.player.Idle?
    case Publish => c.player.Publishing?
    case Recover => c.player.Idle?
    case Realign => c.player.Realigning?
    case Take => c.capturer.Waiting?
    case Announce => c.capturer.Announcing?
  }

  // --------------------------------------------------------- the code, wrapping

  predicate SequenceBefore(sequence: u64, target: u64) {
    sequence != target && WrapSub(target, sequence) < HALF_RANGE
  }

  function AlignForward(next: u64, target: u64): u64 {
    if SequenceBefore(next, target) then target else next
  }

  function TargetSequence(playback: u64, lead: u64): u64 {
    WrapAdd(playback, lead)
  }

  function RealignTarget(captureNext: u64, lead: u64): u64 {
    WrapSub(WrapSub(captureNext, lead), 1)
  }

  /** All of a clock's counters are machine words. */
  predicate Wrapped(c: Clock) {
    && 0 <= c.target < RANGE && 0 <= c.captureNext < RANGE && 0 <= c.playback < RANGE && 0 <= c.next < RANGE
    && (c.player.Realigning? ==> 0 <= c.player.to < RANGE)
  }

  /** One step of the threads as they are written. */
  function MachineStep(c: Clock, move: Move, lead: u64): Clock
    requires Enabled(c, move) && Wrapped(c)
  {
    match move
    case Write => c.(playback := WrapAdd(c.playback, 1), player := Publishing)
    case Publish => c.(target := TargetSequence(c.playback, lead), player := Idle)
    case Recover => c.(player := Realigning(RealignTarget(c.captureNext, lead)))
    case Realign =>
      if SequenceBefore(c.playback, c.player.to) then c.(playback := c.player.to, player := Publishing)
      else c.(player := Idle)
    case Take =>
      var sequence := AlignForward(c.next, c.target);
      c.(next := WrapAdd(sequence, 1), capturer := Announcing, taken := c.taken + [Taken(sequence, c.target)])
    case Announce => c.(captureNext := c.next, capturer := Waiting)
  }

  // ---------------------------------------------------------- on ideal counts

  /** The same step on counters that never wrap. */
  function IdealStep(c: Clock, move: Move, lead: u64): Clock
    requires Enabled(c, move)
  {
    match move
    case Write => c.(playback := c.playback + 1, player := Publishing)
    case Publish => c.(target := c.playback + lead, player := Idle)
    case Recover => c.(player := Realigning(c.captureNext - lead - 1))
    case Realign =>
      if c.playback < c.player.to then c.(playback := c.player.to, player := Publishing) else c.(player := Idle)
    case Take =>
      var sequence := Max(c.next, c.target);
      c.(next := sequence + 1, capturer := Announcing, taken := c.taken + [Taken(sequence, c.target)])
    case Announce => c.(captureNext := c.next, capturer := Waiting)
  }

  function WrapTaken(taken: seq<Taken>): seq<Taken> {
    seq(|taken|, i requires 0 <= i < |taken| => Taken(Wrap(taken[i].sequence), Wrap(taken[i].target)))
  }

  /** The machine words that hold a clock's ideal counts. */
  function WrapClock(c: Clock): (w: Clock)
    ensures Wrapped(w)
  {
    Clock(Wrap(c.target), Wrap(c.captureNext), Wrap(c.playback), Wrap(c.next),
          if c.player.Realigning? then Realigning(Wrap(c.player.to)) else c.player, c.capturer, WrapTaken(c.taken))
  }

  /** The two threads are less than half the sequence range apart. */
  predicate Near(c: Clock) {
    && -HALF_RANGE < c.target - c.next < HALF_RANGE
    && (c.player.Realigning? ==> -HALF_RANGE < c.player.to - c.playback < HALF_RANGE)
  }

  lemma BeforeOfNearCounts(a: int, b: int)
    requires -HALF_RANGE <= a - b <= HALF_RANGE
    ensures SequenceBefore(Wrap(a), Wrap(b)) <==> a < b && b - a != HALF_RANGE
  {
    if a <= b {
      WrapDifference(b, a);
    } else {
      WrapDifference(a, b);
    }
  }

  /** As long as the threads are near, wrapping changes nothing. */
  lemma StepRefines(c: Clock, move: Move, lead: u64)
    requires Enabled(c, move) && Near(c)
    ensures Enabled(WrapClock(c), move)
    ensures MachineStep(WrapClock(c), move, lead) == WrapClock(IdealStep(c, move, lead))
  {
    match move {
      case Write => WrapShift(c.playback, 1);
      case Publish => WrapShift(c.playback, lead);
      case Recover =>
        WrapShift(c.captureNext, lead);
        WrapShift(c.captureNext - lead, 1);
      case Realign => BeforeOfNearCounts(c.playback, c.player.to);
      case Take =>
        BeforeOfNearCounts(c.next, c.target);
        WrapShift(Max(c.next, c.target), 1);
      case Announce =>
    }
  }

  // ------------------------------------------------------------- the invariant

  /** Labels rise, and none is behind the target it was taken against. */
  predicate LabelsRise(taken: seq<Taken>, next: int) {
    && (forall i, j :: 0 <= i < j < |taken| ==> taken[i].sequence < taken[j].sequence)
    && (forall i :: 0 <= i < |taken| ==> taken[i].target <= taken[i].sequence < next)
  }

  predicate Inv(c: Clock, lead: u64) {
    && (if c.player.Publishing? then c.target <= c.playback + lead else c.target == c.playback + lead)
    && (if c.capturer.Waiting? then c.captureNext == c.next else c.captureNext <= c.next)
    && (c.player.Realigning? ==> c.player.to <= c.next - lead - 1)
    && LabelsRise(c.taken, c.next)
  }

  lemma StartHolds(lead: u64)
    ensures Inv(Start(lead), lead) && WrapClock(Start(lead)) == Start(lead)
  {
  }

  /** Every step keeps the invariant and moves no counter back. */
  lemma StepKeepsInv(c: Clock, move: Move, lead: u64)
    requires Inv(c, lead) && Enabled(c, move)
    ensures var after := IdealStep(c, move, lead);
            && Inv(after, lead)
            && c.playback <= after.playback && c.target <= after.target
            && c.next <= after.next && c.captureNext <= after.captureNext
  {
  }

  /** A recovery leaves playback at most lead + 1 periods behind the capture clock
      that it read, and never asks capture to skip a label. */
  lemma RecoveryCatchesUp(c: Clock, lead: u64)
    requires Inv(c, lead) && c.player.Realigning?
    ensures var observed := c.player.to + lead + 1;
            var after := IdealStep(c, Realign, lead);
            && observed - after.playback <= lead + 1
            && (after.playback > c.playback ==> observed - after.playback == lead + 1)
            && (c.playback + lead + 1 >= observed ==> after.playback == c.playback && after.player.Idle?)
            && (after.player.Publishing? ==> IdealStep(after, Publish, lead).target < after.next)
  {
  }

  // -------------------------------------------------------------------- runs

  /** A run of both threads, near at every step. */
  ghost predicate Run(clocks: seq<Clock>, moves: seq<Move>, lead: u64) {
    && |clocks| == |moves| + 1 && clocks[0] == Start(lead)
    && forall k :: 0 <= k < |moves| ==>
         Near(clocks[k]) && Enabled(clocks[k], moves[k]) && clocks[k + 1] == IdealStep(clocks[k], moves[k], lead)
  }

  lemma {:induction false} RunKeepsInv(clocks: seq<Clock>, moves: seq<Move>, lead: u64, k: nat)
    requires Run(clocks, moves, lead) && k < |clocks|
    ensures Inv(clocks[k], lead)
  {
    if k == 0 {
      StartHolds(lead);
    } else {
      RunKeepsInv(clocks, moves, lead, k - 1);
      StepKeepsInv(clocks[k - 1], moves[k - 1], lead);
    }
  }

  lemma {:induction false} CountersNeverMoveBack(clocks: seq<Clock>, moves: seq<Move>, lead: u64, j: nat, k: nat)
    requires Run(clocks, moves, lead) && j <= k < |clocks|
    ensures clocks[j].playback <= clocks[k].playback && clocks[j].target <= clocks[k].target
    ensures clocks[j].captureNext <= clocks[k].captureNext
    decreases k
  {
    if j < k {
      CountersNeverMoveBack(clocks, moves, lead, j, k - 1);
      RunKeepsInv(clocks, moves, lead, k - 1);
      StepKeepsInv(clocks[k - 1], moves[k - 1], lead);
    }
  }

  /** One period of each thread: capture takes and announces a label, playback writes and
      publishes its target. */
  function Rounds(count: nat): seq<Move> {
    if count == 0 then [] else Rounds(count - 1) + [Take, Announce, Write, Publish]
  }

  function Ideal(moves: seq<Move>, lead: u64): Option<Clock> {
    if moves == [] then Some(Start(lead))
    else
      var before := Ideal(moves[..|moves| - 1], lead);
      var move := moves[|moves| - 1];
      if before.Some? && Enabled(before.value, move) then Some(IdealStep(before.value, move, lead)) else None
  }

  lemma IdealOneMore(moves: seq<Move>, move: Move, lead: u64)
    ensures Ideal(moves + [move], lead) ==
            var before := Ideal(moves, lead);
            if before.Some? && Enabled(before.value, move) then Some(IdealStep(before.value, move, lead)) else None
  {
    assert (moves + [move])[..|moves|] == moves;
  }

  lemma OneTurn(moves: seq<Move>, lead: u64, c: Clock)
    requires Ideal(moves, lead) == Some(c) && c.player.Idle? && c.capturer.Waiting?
    ensures var sequence := Max(c.next, c.target);
            Ideal(moves + [Take, Announce, Write, Publish], lead) ==
            Some(Clock(c.playback + 1 + lead, sequence + 1, c.playback + 1, sequence + 1, Idle, Waiting,
                       c.taken + [Taken(sequence, c.target)]))
  {
    IdealOneMore(moves, Take, lead);
    IdealOneMore(moves + [Take], Announce, lead);
    IdealOneMore(moves + [Take] + [Announce], Write, lead);
    IdealOneMore(moves + [Take] + [Announce] + [Write], Publish, lead);
    assert moves + [Take, Announce, Write, Publish] == moves + [Take] + [Announce] + [Write] + [Publish];
  }

  /** Threads that take turns label one period after the other, `lead` ahead of what is
      played, and skip none. */
  lemma {:induction false} TurnsSkipNoLabel(count: nat, lead: u64)
    ensures Ideal(Rounds(count), lead) ==
            Some(Clock(lead + count, lead + count, count, lead + count, Idle, Waiting,
                       seq(count, i requires 0 <= i < count => Taken(lead + i, lead + i))))
  {
    if count == 0 {
      assert seq(0, i requires 0 <= i < 0 => Taken(lead + i, lead + i)) == [];
    } else {
      TurnsSkipNoLabel(count - 1, lead);
      OneTurn(Rounds(count - 1), lead, Ideal(Rounds(count - 1), lead).value);
      hide Ideal;
      var labels := seq(count, i requires 0 <= i < count => Taken(lead + i, lead + i));
      assert labels == labels[..count - 1] + [Taken(lead + count - 1, lead + count - 1)];
      assert labels[..count - 1] == seq(count - 1, i requires 0 <= i < count - 1 => Taken(lead + i, lead + i));
    }
  }

  /** The threads as written, from the same start. */
  function Machine(moves: seq<Move>, lead: u64): Option<Clock> {
    if moves == [] then Some(Start(lead))
    else
      var before := Machine(moves[..|moves| - 1], lead);
      var move := moves[|moves| - 1];
      if before.Some? && Enabled(before.value, move) && Wrapped(before.value)
      then Some(MachineStep(before.value, move, lead)) else None
  }

  /** After every run the machine's words are the ideal clock's, wrapped; the ideal
      labels strictly rise, and none is behind the target it was taken against. */
  lemma {:induction false} MachineFollowsIdeal(clocks: seq<Clock>, moves: seq<Move>, lead: u64)
    requires Run(clocks, moves, lead)
    ensures Machine(moves, lead) == Some(WrapClock(clocks[|moves|]))
    ensures var c := clocks[|moves|];
            && (forall i, j :: 0 <= i < j < |c.taken| ==> c.taken[i].sequence < c.taken[j].sequence)
            && (forall i :: 0 <= i < |c.taken| ==> c.taken[i].target <= c.taken[i].sequence < c.next)
    decreases |moves|
  {
    StartHolds(lead);
    if moves != [] {
      var last := |moves| - 1;
      assert Run(clocks[..last + 1], moves[..last], lead);
      MachineFollowsIdeal(clocks[..last + 1], moves[..last], lead);
      StepRefines(clocks[last], moves[last], lead);
      RunKeepsInv(clocks, moves, lead, |moves|);
    }
  }
}
