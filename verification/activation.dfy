/** The activation word of a region: threads of the daemon race to fix the start
    sequence of a generation, and others to withdraw it. One atomic access per step. */
module Activation {

  datatype Phase = Pending | Claimed | Ready

  /** Generation and phase share one word. */
  datatype Token = Token(generation: nat, phase: Phase)

  /** Where a thread is: in `establish_activation` with the generation it read, or in
      `reset_activation` with the word it loaded. */
  datatype Thread =
    | Idle
    | Claiming(generation: nat, sequence: int)
    | Storing(generation: nat, sequence: int)
    | Finishing(generation: nat, sequence: int)
    | Resetting(generation: nat)
    | Withdrawing(generation: nat, current: Token)

  /** `finished`: every activation that became ready, with its start sequence. */
  datatype Region = Region(word: Token, start: int, lifecycle: nat, threads: seq<Thread>, finished: seq<(nat, int)>)

  datatype Move =
    | Establish(thread: nat, sequence: int)
    | Claim(thread: nat)
    | StoreStart(thread: nat)
    | Finish(thread: nat)
    | Reset(thread: nat)
    | Load(thread: nat)
    | Withdraw(thread: nat)
    | NewGeneration(generation: nat)

  predicate Enabled(r: Region, move: Move) {
    match move
    case NewGeneration(_) => true
    case _ =>
      move.thread < |r.threads| &&
      var t := r.threads[move.thread];
      match move
      case Establish(_, _) => t.Idle?
      case Claim(_) => t.Claiming?
      case StoreStart(_) => t.Storing?
      case Finish(_) => t.Finishing?
      case Reset(_) => t.Idle?
      case Load(_) => t.Resetting?
      case Withdraw(_) => t.Withdrawing?
  }

  function At(r: Region, i: nat, thread: Thread): Region
    requires i < |r.threads|
  {
    r.(threads := r.threads[i := thread])
  }

  /** A lost compare-exchange ends an establishing call and repeats a resetting one. */
  function Step(r: Region, move: Move): Region
    requires Enabled(r, move)
  {
    match move
    case Establish(i, sequence) => At(r, i, Claiming(r.lifecycle, sequence))
    case Claim(i) =>
      var t := r.threads[i];
      if r.word == Token(t.generation, Pending)
      then At(r, i, Storing(t.generation, t.sequence)).(word := Token(t.generation, Claimed))
      else At(r, i, Idle)
    case StoreStart(i) =>
      var t := r.threads[i];
      At(r, i, Finishing(t.generation, t.sequence)).(start := t.sequence)
    case Finish(i) =>
      var t := r.threads[i];
      At(r, i, Idle).(word := Token(t.generation, Ready), finished := r.finished + [(t.generation, t.sequence)])
    case Reset(i) => At(r, i, Resetting(r.lifecycle))
    case Load(i) => if r.word.phase.Claimed? then r else At(r, i, Withdrawing(r.threads[i].generation, r.word))
    case Withdraw(i) =>
      var t := r.threads[i];
      if r.word == t.current then At(r, i, Idle).(word := Token(t.generation, Pending))
      else At(r, i, Resetting(t.generation))
    case NewGeneration(generation) => r.(lifecycle := generation)
  }

  /** The thread has won the claim and not yet published. */
  predicate Owns(t: Thread) {
    t.Storing? || t.Finishing?
  }

  /** The word is claimed just while one thread owns it, and that thread alone writes
      the start sequence; a ready word vouches for the start sequence beside it. */
  ghost predicate Inv(r: Region) {
    && (forall i, j | 0 <= i < |r.threads| && 0 <= j < |r.threads| && Owns(r.threads[i]) && Owns(r.threads[j]) ::
          i == j)
    && (forall i | 0 <= i < |r.threads| && Owns(r.threads[i]) :: r.word == Token(r.threads[i].generation, Claimed))
    && (forall i :: 0 <= i < |r.threads| && r.threads[i].Finishing? ==> r.start == r.threads[i].sequence)
    && (forall i :: 0 <= i < |r.threads| && r.threads[i].Withdrawing? ==> !r.threads[i].current.phase.Claimed?)
    && (r.word.phase.Claimed? ==> exists i :: 0 <= i < |r.threads| && Owns(r.threads[i]))
    && (r.word.phase.Ready? ==> r.finished != [] && r.finished[|r.finished| - 1] == (r.word.generation, r.start))
  }

  predicate Initial(r: Region) {
    r.word.phase.Pending? && forall i :: 0 <= i < |r.threads| ==> r.threads[i].Idle?
  }

  /** Whoever wins the claim is its only owner. */
  lemma ClaimKeepsInv(r: Region, move: Move)
    requires Inv(r) && Enabled(r, move) && move.Claim?
    ensures Inv(Step(r, move))
  {
    var after := Step(r, move);
    if after.word.phase.Claimed? && r.word.phase.Claimed? {
      var i :| 0 <= i < |r.threads| && Owns(r.threads[i]);
      assert Owns(after.threads[i]);
    } else if after.word.phase.Claimed? {
      assert Owns(after.threads[move.thread]);
    }
  }

  lemma OtherKeepsInv(r: Region, move: Move)
    requires Inv(r) && Enabled(r, move) && !move.Claim?
    ensures Inv(Step(r, move))
  {
    var after := Step(r, move);
    if after.word.phase.Claimed? {
      var i :| 0 <= i < |r.threads| && Owns(r.threads[i]);
      assert Owns(after.threads[i]);
    }
  }

  lemma StepKeepsInv(r: Region, move: Move)
    requires Inv(r) && Enabled(r, move)
    ensures Inv(Step(r, move))
  {
    hide Inv, Step;
    if move.Claim? {
      ClaimKeepsInv(r, move);
    } else {
      OtherKeepsInv(r, move);
    }
  }

  /** While a word is ready its start sequence stands: only withdrawing it first lets
      another be stored. */
  lemma ReadyStartStands(r: Region, move: Move)
    requires Inv(r) && Enabled(r, move) && r.word.phase.Ready?
    ensures Step(r, move).start == r.start
    ensures Step(r, move).word != r.word ==> move.Withdraw? && Step(r, move).word.phase.Pending?
  {
  }

  /** A thread left alone makes a pending region ready, with its own start ... */
  lemma EstablishingAloneMakesReady(r: Region, i: nat, sequence: int)
    requires i < |r.threads| && r.threads[i].Idle? && r.word == Token(r.lifecycle, Pending)
    ensures Enabled(r, Establish(i, sequence))
    ensures var claiming := Step(r, Establish(i, sequence));
            && Enabled(claiming, Claim(i))
            && var storing := Step(claiming, Claim(i));
               && Enabled(storing, StoreStart(i))
               && var finishing := Step(storing, StoreStart(i));
                  && Enabled(finishing, Finish(i))
                  && Step(finishing, Finish(i)) ==
                     r.(word := Token(r.lifecycle, Ready), start := sequence,
                        finished := r.finished + [(r.lifecycle, sequence)])
  {
    assert r.threads[i := Claiming(r.lifecycle, sequence)][i := Storing(r.lifecycle, sequence)]
           [i := Finishing(r.lifecycle, sequence)][i := Idle] == r.threads;
  }

  /** ... and one that withdraws it alone leaves it pending in the current generation. */
  lemma ResettingAloneMakesPending(r: Region, i: nat)
    requires i < |r.threads| && r.threads[i].Idle? && !r.word.phase.Claimed?
    ensures Enabled(r, Reset(i))
    ensures var resetting := Step(r, Reset(i));
            && Enabled(resetting, Load(i))
            && var withdrawing := Step(resetting, Load(i));
               && Enabled(withdrawing, Withdraw(i))
               && Step(withdrawing, Withdraw(i)) == r.(word := Token(r.lifecycle, Pending))
  {
    assert r.threads[i := Resetting(r.lifecycle)][i := Withdrawing(r.lifecycle, r.word)][i := Idle] == r.threads;
  }

  ghost predicate Run(regions: seq<Region>, moves: seq<Move>) {
    && |regions| == |moves| + 1 && Initial(regions[0])
    && forall k :: 0 <= k < |moves| ==> Enabled(regions[k], moves[k]) && regions[k + 1] == Step(regions[k], moves[k])
  }

  /** In every interleaving at most one thread owns the claim, and a ready word names
      the generation and start sequence of the last activation that finished. */
  lemma {:induction false} ReadyVouchesForStart(regions: seq<Region>, moves: seq<Move>, k: nat)
    requires Run(regions, moves) && k < |regions|
    ensures Inv(regions[k])
    ensures var r := regions[k];
            r.word.phase.Ready? ==> r.finished != [] && r.finished[|r.finished| - 1] == (r.word.generation, r.start)
  {
    if k > 0 {
      ReadyVouchesForStart(regions, moves, k - 1);
      StepKeepsInv(regions[k - 1], moves[k - 1]);
    }
  }
}
