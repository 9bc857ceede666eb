/** The gate between an ASIO host and its worker: commands with a generation, and
    the acknowledgements that the host waits for. One atomic access per step.
    Sequences are ideal counts; a generation is running just when it is even,
    because the first one runs and every command toggles. */
module AsioGate {
  import opened Sequences

  predicate Runs(generation: nat) {
    generation % 2 == 0
  }

  /** The host: before the first start, prepared, running, or waiting for the
      acknowledgement of a stop. */
  datatype Mode = First | Prepared | Running | Stopping

  /** Where the worker is. `Acknowledging` stores an acknowledgement before it goes on. */
  datatype Pc =
    | NotReady
    | Top
    | Poll
    | Wait
    | Decide(block: int)
    | Drain
    | Publishing(block: int)
    | Calling(block: int)
    | Submitting(block: int)
    | Recovering
    | Acknowledging(generation: nat, running: bool, recovery: bool, next: Pc)
    | Exited

  datatype Worker = Worker(pc: Pc, runGeneration: Option<nat>, acquired: Option<nat>, lastActive: Option<int>,
                           stoppingAfter: Option<int>, previous: Option<int>)

  /** One stored acknowledgement: what had been submitted in the run, and where the
      daemon's playback watermark stood. */
  datatype Ack = Ack(generation: nat, running: bool, recovery: bool, run: seq<int>, watermark: int)

  /** One buffer-switch callback that began: its generation, the one its block was
      acquired in, and the last stop acknowledged before. */
  datatype Callback = Callback(generation: nat, acquired: nat, block: int, stopped: Option<nat>)

  datatype State = State(command: nat, stopped: Option<nat>, mode: Mode, zeroing: bool, worker: Worker, watermark: int,
                         run: seq<int>, acks: seq<Ack>, callbacks: seq<Callback>)

  datatype Move =
    | HostZero
    | HostZeroed
    | HostRun
    | HostStop
    | HostStopped
    | Played(watermark: int)
    | ReadGate
    | PollGate
    | Arrive(block: int)
    | Woken
    | Dispatch
    | Drained
    | Published
    | Called
    | Submitted(accepted: bool)
    | Discontinuity
    | Recovered
    | Store
    | Exit

  const IDLE := Worker(NotReady, None, None, None, None, None)

  const START := State(0, None, First, false, IDLE, 0, [], [], [])

  predicate Enabled(s: State, move: Move) {
    var pc := s.worker.pc;
    match move
    case HostZero => (s.mode.First? || s.mode.Prepared?) && !s.zeroing
    case HostZeroed => s.zeroing
    case HostRun => (s.mode.First? || s.mode.Prepared?) && !s.zeroing
    case HostStop => s.mode.Running?
    case HostStopped => s.mode.Stopping? && s.stopped == Some(s.command)
    case Played(watermark) => s.watermark <= watermark
    case ReadGate => pc.Top?
    case PollGate => pc.Poll?
    case Arrive(_) => pc.Wait?
    case Woken => pc.Wait?
    case Dispatch => pc.Decide?
    case Drained => pc.Drain?
    case Published => pc.Publishing?
    case Called => pc.Calling?
    case Submitted(_) => pc.Submitting?
    case Discontinuity => pc.Top? || pc.Wait? || pc.Drain? || pc.Submitting?
    case Recovered => pc.Recovering?
    case Store => pc.Acknowledging?
    case Exit => !pc.NotReady?
  }

  /** Adopts a command that is new; a new run forgets the last one, a stop waits for
      what the run submitted. The worker goes on at `next`. */
  function Transition(w: Worker, command: nat, next: Pc): Worker {
    if w.runGeneration == Some(command) then w.(pc := next)
    else if Runs(command) then
      w.(runGeneration := Some(command), previous := None, lastActive := None, stoppingAfter := None,
         pc := Acknowledging(command, true, false, next))
    else
      w.(runGeneration := Some(command), stoppingAfter := w.lastActive,
         pc := if w.lastActive.None? then Acknowledging(command, false, false, next) else next)
  }

  /** A run starts over once its new generation has been adopted. */
  function RunAfter(s: State): seq<int> {
    if s.worker.runGeneration != Some(s.command) && Runs(s.command) then [] else s.run
  }

  /** After acquisition: a stopped worker drains, a block of another generation or a
      repeated one is dropped, a backward one recovers, and the others are played. */
  function Dispatched(w: Worker, command: nat, block: int): Worker {
    var previous := Transition(w, command, Top).previous;
    if !Runs(command) then Transition(w, command, Drain)
    else if w.acquired != Some(command) || (previous.Some? && previous.value == block) then Transition(w, command, Top)
    else if previous.Some? && block < previous.value then Transition(w, command, Recovering)
    else Transition(w, command, Publishing(block)).(previous := Some(block))
  }

  /** One step; `hasPlayback`: the worker owns playback. */
  function Step(s: State, move: Move, hasPlayback: bool): State
    requires Enabled(s, move)
  {
    var w := s.worker;
    match move
    case HostZero => s.(zeroing := true)
    case HostZeroed => s.(zeroing := false)
    case HostRun =>
      if s.mode.First? then s.(mode := Running, worker := w.(pc := Top))
      else s.(mode := Running, command := s.command + 1)
    case HostStop => s.(mode := Stopping, command := s.command + 1)
    case HostStopped => s.(mode := Prepared)
    case Played(watermark) => s.(watermark := watermark)
    case ReadGate => s.(worker := Transition(w, s.command, Poll), run := RunAfter(s))
    case PollGate =>
      if !hasPlayback && !Runs(s.command) && w.runGeneration.Some?
      then s.(worker := w.(pc := Acknowledging(w.runGeneration.value, false, false, Wait)))
      else s.(worker := w.(pc := Wait))
    case Arrive(block) => s.(worker := w.(acquired := w.runGeneration, pc := Decide(block)))
    case Woken => s.(worker := w.(pc := Top))
    case Dispatch => s.(worker := Dispatched(w, s.command, w.pc.block), run := RunAfter(s))
    case Drained =>
      if w.runGeneration.Some? && (!hasPlayback || (w.stoppingAfter.Some? && s.watermark > w.stoppingAfter.value))
      then s.(worker := w.(pc := Acknowledging(w.runGeneration.value, false, false, Top)))
      else s.(worker := w.(pc := Top))
    case Published => s.(worker := w.(pc := Calling(w.pc.block)))
    case Called =>
      s.(worker := w.(pc := Submitting(w.pc.block)),
         callbacks := s.callbacks +
           [Callback(if w.runGeneration.Some? then w.runGeneration.value else 0,
                     if w.acquired.Some? then w.acquired.value else 0, w.pc.block, s.stopped)])
    case Submitted(accepted) =>
      if accepted || !hasPlayback
      then s.(worker := w.(pc := Top, lastActive := Some(w.pc.block)), run := s.run + [w.pc.block])
      else s.(worker := w.(pc := Top))
    case Discontinuity => s.(worker := w.(pc := Recovering))
    case Recovered =>
      s.(worker := w.(runGeneration := Some(s.command), previous := None, lastActive := None, stoppingAfter := None,
                      pc := Acknowledging(s.command, Runs(s.command), true, Top)),
         run := [])
    case Store =>
      var after := s.(worker := w.(pc := w.pc.next),
                      acks := s.acks + [Ack(w.pc.generation, w.pc.running, w.pc.recovery, s.run, s.watermark)]);
      if w.pc.running then after else after.(stopped := Some(w.pc.generation))
    case Exit => s.(worker := w.(pc := Exited))
  }

  // ---------------------------------------------------------------- invariant

  /** What the worker does, or will do once it has stored its acknowledgement. */
  function Activity(pc: Pc): Pc {
    if pc.Acknowledging? then pc.next else pc
  }

  /** The worker is between deciding to call back and being done with the block. */
  predicate Busy(pc: Pc) {
    Activity(pc).Publishing? || Activity(pc).Calling? || Activity(pc).Submitting?
  }

  predicate HostInv(s: State) {
    && (s.mode.First? ==> s.command == 0 && s.worker == IDLE && s.run == [] && s.stopped == None)
    && (s.worker.pc.NotReady? ==> s.mode.First?)
    && (s.mode.Running? ==> Runs(s.command))
    && (s.mode.Prepared? || s.mode.Stopping? ==> !Runs(s.command))
    && (s.mode.Prepared? ==> s.stopped == Some(s.command))
    && (s.zeroing ==> s.mode.First? || s.mode.Prepared?)
  }

  /** Only adopted generations are acknowledged, and only a running one calls back. */
  predicate GenerationInv(s: State) {
    var w := s.worker;
    && (w.runGeneration.Some? ==> w.runGeneration.value <= s.command)
    && (s.stopped.Some? ==> w.runGeneration.Some? && s.stopped.value <= w.runGeneration.value)
    && (w.pc.Acknowledging? ==>
          && w.runGeneration == Some(w.pc.generation) && !w.pc.next.Acknowledging? && !w.pc.next.NotReady?
          && !w.pc.next.Exited?)
    && (Busy(w.pc) ==> w.runGeneration.Some? && Runs(w.runGeneration.value) && w.acquired == w.runGeneration)
  }

  predicate Rising(run: seq<int>) {
    forall i, j :: 0 <= i < j < |run| ==> run[i] < run[j]
  }

  function LastOf(run: seq<int>): Option<int> {
    if run == [] then None else Some(run[|run| - 1])
  }

  /** The worker remembers the last block of its run, and a stopped one waits for it. */
  predicate RunInv(s: State) {
    var w := s.worker;
    && Rising(s.run) && w.lastActive == LastOf(s.run)
    && (s.run != [] ==> w.previous.Some? && s.run[|s.run| - 1] <= w.previous.value)
    && (Busy(w.pc) ==>
          w.previous == Some(Activity(w.pc).block) &&
          (s.run != [] ==> s.run[|s.run| - 1] < Activity(w.pc).block))
    && (w.runGeneration.Some? && !Runs(w.runGeneration.value) ==> w.stoppingAfter == w.lastActive)
  }

  predicate AllPlayed(run: seq<int>, watermark: int) {
    forall i :: 0 <= i < |run| ==> run[i] < watermark
  }

  /** An acknowledged stop of a worker that owns playback, outside recovery. */
  predicate PlayedBeforeAck(ack: Ack, hasPlayback: bool) {
    hasPlayback && !ack.running && !ack.recovery && !Runs(ack.generation) ==> AllPlayed(ack.run, ack.watermark)
  }

  predicate AckInv(s: State, hasPlayback: bool) {
    var pc := s.worker.pc;
    && (forall k :: 0 <= k < |s.acks| ==> PlayedBeforeAck(s.acks[k], hasPlayback))
    && (pc.Acknowledging? ==>
          PlayedBeforeAck(Ack(pc.generation, pc.running, pc.recovery, s.run, s.watermark), hasPlayback))
  }

  /** A callback runs in the generation its block was acquired in, a running one and
      newer than every stop acknowledged before it began. */
  predicate CallbackIsFresh(callback: Callback) {
    && Runs(callback.generation) && callback.acquired == callback.generation
    && (callback.stopped.Some? && !Runs(callback.stopped.value) ==> callback.stopped.value < callback.generation)
  }

  predicate CallbackInv(s: State) {
    forall k :: 0 <= k < |s.callbacks| ==> CallbackIsFresh(s.callbacks[k])
  }

  predicate Inv(s: State, hasPlayback: bool) {
    HostInv(s) && GenerationInv(s) && RunInv(s) && AckInv(s, hasPlayback) && CallbackInv(s)
  }

  lemma StartHolds(hasPlayback: bool)
    ensures Inv(START, hasPlayback)
  {
  }

  lemma KeepsHost(s: State, move: Move, hasPlayback: bool)
    requires HostInv(s) && GenerationInv(s) && Enabled(s, move)
    ensures HostInv(Step(s, move, hasPlayback))
  {
  }

  lemma AdoptingKeepsGeneration(s: State, move: Move, hasPlayback: bool)
    requires HostInv(s) && GenerationInv(s) && Enabled(s, move) && (move.ReadGate? || move.Dispatch?)
    ensures GenerationInv(Step(s, move, hasPlayback))
  {
  }

  lemma KeepsGeneration(s: State, move: Move, hasPlayback: bool)
    requires HostInv(s) && GenerationInv(s) && Enabled(s, move)
    ensures GenerationInv(Step(s, move, hasPlayback))
  {
    if move.ReadGate? || move.Dispatch? {
      AdoptingKeepsGeneration(s, move, hasPlayback);
    } else {
      hide Transition, Dispatched, RunAfter;
    }
  }

  /** A block is played only after the ones before it. */
  lemma DispatchKeepsRun(s: State, hasPlayback: bool)
    requires GenerationInv(s) && RunInv(s) && Enabled(s, Dispatch)
    ensures RunInv(Step(s, Dispatch, hasPlayback))
  {
  }

  /** A submitted block is the last of its run. */
  lemma SubmitKeepsRun(s: State, accepted: bool, hasPlayback: bool)
    requires GenerationInv(s) && RunInv(s) && Enabled(s, Submitted(accepted))
    ensures RunInv(Step(s, Submitted(accepted), hasPlayback))
  {
    hide Dispatched, Transition;
  }

  /** Adopting a command starts a run over or goes on with it. */
  lemma ReadGateKeepsRun(s: State, hasPlayback: bool)
    requires GenerationInv(s) && RunInv(s) && Enabled(s, ReadGate)
    ensures RunInv(Step(s, ReadGate, hasPlayback))
  {
    hide Dispatched;
  }

  predicate HostMove(move: Move) {
    move.HostZero? || move.HostZeroed? || move.HostRun? || move.HostStop? || move.HostStopped? || move.Played?
  }

  /** Nor does deciding that a stop may be acknowledged touch the run. */
  lemma DrainKeepsRun(s: State, hasPlayback: bool)
    requires GenerationInv(s) && RunInv(s)
    ensures Enabled(s, Drained) ==> RunInv(Step(s, Drained, hasPlayback))
    ensures Enabled(s, PollGate) ==> RunInv(Step(s, PollGate, hasPlayback))
  {
    hide Dispatched, Transition, Rising;
  }

  lemma HostKeepsRun(s: State, move: Move, hasPlayback: bool)
    requires RunInv(s) && HostInv(s) && Enabled(s, move) && HostMove(move)
    ensures RunInv(Step(s, move, hasPlayback))
  {
    hide Dispatched, Transition;
  }

  /** Nor do the worker's other moves, but for a recovery, which forgets it. */
  lemma GoingOnKeepsRun(s: State, move: Move, hasPlayback: bool)
    requires GenerationInv(s) && RunInv(s) && Enabled(s, move)
    requires !HostMove(move) && !move.Dispatch? && !move.Submitted? && !move.ReadGate? && !move.Drained?
    requires !move.PollGate?
    ensures RunInv(Step(s, move, hasPlayback))
  {
    hide Dispatched, Transition, Runs;
  }

  lemma KeepsRun(s: State, move: Move, hasPlayback: bool)
    requires GenerationInv(s) && RunInv(s) && HostInv(s) && Enabled(s, move)
    ensures RunInv(Step(s, move, hasPlayback))
  {
    hide GenerationInv, HostInv, RunInv, Step;
    match move
    case Dispatch => DispatchKeepsRun(s, hasPlayback);
    case Submitted(accepted) => SubmitKeepsRun(s, accepted, hasPlayback);
    case ReadGate => ReadGateKeepsRun(s, hasPlayback);
    case Drained => DrainKeepsRun(s, hasPlayback);
    case PollGate => DrainKeepsRun(s, hasPlayback);
    case _ =>
      if HostMove(move) {
        HostKeepsRun(s, move, hasPlayback);
      } else {
        GoingOnKeepsRun(s, move, hasPlayback);
      }
  }

  lemma AdoptingKeepsAcks(s: State, move: Move, hasPlayback: bool)
    requires GenerationInv(s) && RunInv(s) && AckInv(s, hasPlayback) && HostInv(s) && Enabled(s, move)
    requires move.ReadGate? || move.Dispatch?
    ensures AckInv(Step(s, move, hasPlayback), hasPlayback)
  {
    hide Rising, Busy;
  }

  lemma KeepsAcks(s: State, move: Move, hasPlayback: bool)
    requires GenerationInv(s) && RunInv(s) && AckInv(s, hasPlayback) && HostInv(s) && Enabled(s, move)
    ensures AckInv(Step(s, move, hasPlayback), hasPlayback)
  {
    if move.ReadGate? || move.Dispatch? {
      AdoptingKeepsAcks(s, move, hasPlayback);
    } else {
      hide Transition, Dispatched, RunAfter, Busy;
    }
  }

  lemma KeepsCallbacks(s: State, move: Move, hasPlayback: bool)
    requires GenerationInv(s) && CallbackInv(s) && Enabled(s, move)
    ensures CallbackInv(Step(s, move, hasPlayback))
  {
  }

  lemma StepKeepsInv(s: State, move: Move, hasPlayback: bool)
    requires Inv(s, hasPlayback) && Enabled(s, move)
    ensures Inv(Step(s, move, hasPlayback), hasPlayback)
  {
    KeepsHost(s, move, hasPlayback);
    KeepsGeneration(s, move, hasPlayback);
    KeepsRun(s, move, hasPlayback);
    KeepsAcks(s, move, hasPlayback);
    KeepsCallbacks(s, move, hasPlayback);
  }

  // -------------------------------------------------------------------- runs

  /** Any interleaving of host, worker and daemon. */
  ghost predicate Run(states: seq<State>, moves: seq<Move>, hasPlayback: bool) {
    && |states| == |moves| + 1 && states[0] == START
    && forall k :: 0 <= k < |moves| ==>
         Enabled(states[k], moves[k]) && states[k + 1] == Step(states[k], moves[k], hasPlayback)
  }

  lemma {:induction false} RunKeepsInv(states: seq<State>, moves: seq<Move>, hasPlayback: bool, k: nat)
    requires Run(states, moves, hasPlayback) && k < |states|
    ensures Inv(states[k], hasPlayback)
  {
    if k == 0 {
      StartHolds(hasPlayback);
    } else {
      RunKeepsInv(states, moves, hasPlayback, k - 1);
      StepKeepsInv(states[k - 1], moves[k - 1], hasPlayback);
    }
  }

  /** Once a stop is acknowledged and as long as no newer command is given, the
      worker neither publishes a position nor begins a callback. */
  lemma NoCallbackAfterStop(states: seq<State>, moves: seq<Move>, hasPlayback: bool, k: nat)
    requires Run(states, moves, hasPlayback) && k < |states|
    requires states[k].stopped == Some(states[k].command) && !Runs(states[k].command)
    ensures !Busy(states[k].worker.pc)
    ensures k < |moves| ==> !moves[k].Called? && !moves[k].Published?
    ensures k < |moves| ==> states[k + 1].callbacks == states[k].callbacks
    ensures k < |moves| && states[k + 1].command == states[k].command ==>
              states[k + 1].stopped == Some(states[k + 1].command)
  {
    RunKeepsInv(states, moves, hasPlayback, k);
  }

  /** So it stays quiet until a newer running command. */
  lemma {:induction false} QuietUntilNextCommand(states: seq<State>, moves: seq<Move>, hasPlayback: bool, j: nat,
                                                 k: nat)
    requires Run(states, moves, hasPlayback) && j <= k < |states|
    requires states[j].stopped == Some(states[j].command) && !Runs(states[j].command)
    requires forall i :: j <= i <= k ==> states[i].command == states[j].command
    ensures states[k].stopped == Some(states[k].command) && states[k].callbacks == states[j].callbacks
  {
    hide Step, Enabled, Busy;
    if j < k {
      QuietUntilNextCommand(states, moves, hasPlayback, j, k - 1);
      NoCallbackAfterStop(states, moves, hasPlayback, k - 1);
    }
  }

  /** Every acknowledged stop of a worker that owns playback, outside recovery, came
      after the daemon had played everything its run submitted. */
  lemma StopsFollowPlayback(states: seq<State>, moves: seq<Move>, k: nat, ack: Ack)
    requires Run(states, moves, true) && k < |states| && ack in states[k].acks
    requires !ack.running && !ack.recovery && !Runs(ack.generation)
    ensures AllPlayed(ack.run, ack.watermark)
  {
    RunKeepsInv(states, moves, true, k);
    var i :| 0 <= i < |states[k].acks| && states[k].acks[i] == ack;
    assert PlayedBeforeAck(states[k].acks[i], true);
  }

  /** Every callback belongs to the running generation that acquired its block, and
      that is newer than any stop acknowledged before. */
  lemma CallbacksAreFresh(states: seq<State>, moves: seq<Move>, hasPlayback: bool, k: nat, callback: Callback)
    requires Run(states, moves, hasPlayback) && k < |states| && callback in states[k].callbacks
    ensures Runs(callback.generation) && callback.acquired == callback.generation
    ensures callback.stopped.Some? && !Runs(callback.stopped.value) ==> callback.stopped.value < callback.generation
  {
    RunKeepsInv(states, moves, hasPlayback, k);
  }

  /** A run never plays a block twice, and none behind another. */
  lemma BlocksRise(states: seq<State>, moves: seq<Move>, hasPlayback: bool, k: nat, i: nat, j: nat)
    requires Run(states, moves, hasPlayback) && k < |states| && i < j < |states[k].run|
    ensures states[k].run[i] < states[k].run[j]
  {
    RunKeepsInv(states, moves, hasPlayback, k);
  }

  /** The host clears the position only while the worker cannot be publishing one. */
  lemma HostAndWorkerNeverPublishTogether(states: seq<State>, moves: seq<Move>, hasPlayback: bool, k: nat)
    requires Run(states, moves, hasPlayback) && k < |states| && states[k].zeroing
    ensures !Busy(states[k].worker.pc)
  {
    RunKeepsInv(states, moves, hasPlayback, k);
  }

  // -------------------------------------------------------- what does come about

  /** The host may clear the position, and is done with it in one more step. */
  predicate Zeroes(s: State, hasPlayback: bool) {
    && Enabled(s, HostZero)
    && var t := Step(s, HostZero, hasPlayback);
       t == s.(zeroing := true) && Enabled(t, HostZeroed) && Step(t, HostZeroed, hasPlayback) == s
  }

  /** The host can start whenever it is not running, stop whenever it is, and start again
      once its stop is acknowledged; each start after the first and each stop is a new
      command, the starts running and the stops not. */
  lemma HostGoesOn(states: seq<State>, moves: seq<Move>, hasPlayback: bool, k: nat)
    requires Run(states, moves, hasPlayback) && k < |states| && !states[k].zeroing
    ensures var s := states[k];
            match s.mode
            case First =>
              && Enabled(s, HostRun) && Zeroes(s, hasPlayback)
              && var t := Step(s, HostRun, hasPlayback);
                 t == s.(mode := Running, worker := IDLE.(pc := Top)) && t.command == 0
            case Prepared =>
              && Enabled(s, HostRun) && Zeroes(s, hasPlayback)
              && var t := Step(s, HostRun, hasPlayback);
                 t == s.(mode := Running, command := s.command + 1) && Runs(t.command)
            case Running =>
              && Enabled(s, HostStop)
              && var t := Step(s, HostStop, hasPlayback);
                 t == s.(mode := Stopping, command := s.command + 1) && !Runs(t.command)
            case Stopping =>
              s.stopped == Some(s.command) ==>
                Enabled(s, HostStopped) && Step(s, HostStopped, hasPlayback) == s.(mode := Prepared)
  {
    RunKeepsInv(states, moves, hasPlayback, k);
  }

  /** An adopted stop of a run without a block is acknowledged, or about to be. */
  predicate StopInv(s: State) {
    s.mode.Stopping? && s.worker.runGeneration == Some(s.command) && s.run == [] ==>
      || s.stopped == Some(s.command) || s.worker.pc.Exited?
      || (s.worker.pc.Acknowledging? && s.worker.pc.generation == s.command && !s.worker.pc.running)
  }

  lemma KeepsStop(s: State, move: Move, hasPlayback: bool)
    requires HostInv(s) && GenerationInv(s) && RunInv(s) && StopInv(s) && Enabled(s, move)
    ensures StopInv(Step(s, move, hasPlayback))
  {
    hide Rising;
  }

  lemma {:induction false} RunKeepsStop(states: seq<State>, moves: seq<Move>, hasPlayback: bool, k: nat)
    requires Run(states, moves, hasPlayback) && k < |states|
    ensures StopInv(states[k])
  {
    if k > 0 {
      hide StopInv, Step;
      RunKeepsStop(states, moves, hasPlayback, k - 1);
      RunKeepsInv(states, moves, hasPlayback, k - 1);
      KeepsStop(states[k - 1], moves[k - 1], hasPlayback);
    } else {
      assert StopInv(START);
    }
  }

  /** What only the worker, or a block for it, brings about. */
  predicate WorkerMove(move: Move) {
    !HostMove(move) && !move.Exit? && !move.Discontinuity?
  }

  /** The moves lead from one state to the other. */
  predicate Leads(s: State, moves: seq<Move>, t: State, hasPlayback: bool)
    decreases |moves|
  {
    if moves == [] then s == t
    else
      && Enabled(s, moves[0]) && WorkerMove(moves[0])
      && Leads(Step(s, moves[0], hasPlayback), moves[1..], t, hasPlayback)
  }

  lemma LeadsByTwo(s: State, first: Move, second: Move, hasPlayback: bool)
    requires Enabled(s, first) && WorkerMove(first)
    requires Enabled(Step(s, first, hasPlayback), second) && WorkerMove(second)
    ensures Leads(s, [first, second], Step(Step(s, first, hasPlayback), second, hasPlayback), hasPlayback)
  {
    hide Step, Enabled;
    var t := Step(Step(s, first, hasPlayback), second, hasPlayback);
    assert [first, second][1..] == [second] && [second][1..] == [];
    assert Leads(t, [], t, hasPlayback);
    assert Leads(Step(s, first, hasPlayback), [second], t, hasPlayback);
  }

  /** An adopted stop whose run has been played out is acknowledged by the next look at
      the playback watermark, and the host's wait ends. */
  lemma PlayedStopIsAcknowledged(states: seq<State>, moves: seq<Move>, k: nat)
    requires Run(states, moves, true) && k < |states|
    requires states[k].mode.Stopping? && states[k].worker.runGeneration == Some(states[k].command)
    requires states[k].worker.pc.Drain? && states[k].run != [] && AllPlayed(states[k].run, states[k].watermark)
    ensures var s := states[k];
            var t := s.(worker := s.worker.(pc := Top), stopped := Some(s.command),
                        acks := s.acks + [Ack(s.command, false, false, s.run, s.watermark)]);
            Leads(s, [Drained, Store], t, true) && Enabled(t, HostStopped)
  {
    RunKeepsInv(states, moves, true, k);
    LeadsByTwo(states[k], Drained, Store, true);
  }

  /** A stop adopted with nothing submitted is acknowledged at once. */
  lemma EmptyStopIsAcknowledged(states: seq<State>, moves: seq<Move>, hasPlayback: bool, k: nat)
    requires Run(states, moves, hasPlayback) && k < |states|
    requires states[k].mode.Stopping? && states[k].worker.runGeneration != Some(states[k].command)
    requires states[k].worker.pc.Top? && states[k].run == []
    ensures var s := states[k];
            var t := s.(worker := s.worker.(pc := Poll, runGeneration := Some(s.command), stoppingAfter := None),
                        stopped := Some(s.command), acks := s.acks + [Ack(s.command, false, false, [], s.watermark)]);
            Leads(s, [ReadGate, Store], t, hasPlayback) && Enabled(t, HostStopped)
  {
    RunKeepsInv(states, moves, hasPlayback, k);
    LeadsByTwo(states[k], ReadGate, Store, hasPlayback);
  }

  /** A worker without playback acknowledges a stop it has adopted before it waits. */
  lemma IdleStopIsAcknowledged(states: seq<State>, moves: seq<Move>, k: nat)
    requires Run(states, moves, false) && k < |states|
    requires states[k].mode.Stopping? && states[k].worker.runGeneration == Some(states[k].command)
    requires states[k].worker.pc.Poll? || states[k].worker.pc.Drain?
    ensures var s := states[k];
            var polls := s.worker.pc.Poll?;
            var t := s.(worker := s.worker.(pc := if polls then Wait else Top), stopped := Some(s.command),
                        acks := s.acks + [Ack(s.command, false, false, s.run, s.watermark)]);
            Leads(s, [if polls then PollGate else Drained, Store], t, false) && Enabled(t, HostStopped)
  {
    RunKeepsInv(states, moves, false, k);
    LeadsByTwo(states[k], if states[k].worker.pc.Poll? then PollGate else Drained, Store, false);
  }

  /** How far the worker is from adopting a command, or then from draining. */
  function Distance(pc: Pc, adopted: bool): nat {
    match pc
    case Publishing(_) => 10
    case Calling(_) => 8
    case Submitting(_) => 6
    case Top => if adopted then 10 else 4
    case Poll => 8
    case Wait => 6
    case Decide(_) => if adopted then 4 else 2
    case Drain => if adopted then 2 else 6
    case Recovering => 12
    case _ => 0
  }

  function Remaining(s: State): nat {
    var pc := s.worker.pc;
    var adopted := s.worker.runGeneration == Some(s.command);
    (if adopted then 0 else 20) +
    if !pc.Acknowledging? then Distance(pc, adopted)
    else if adopted && !pc.running then 1
    else Distance(pc.next, adopted) + 1
  }

  /** The worker's next move on the way to acknowledging a stop. */
  function Onward(s: State): Move {
    match s.worker.pc
    case Acknowledging(_, _, _, _) => Store
    case Publishing(_) => Published
    case Calling(_) => Called
    case Submitting(_) => Submitted(false)
    case Top => ReadGate
    case Poll => PollGate
    case Wait => if s.worker.runGeneration == Some(s.command) then Arrive(0) else Woken
    case Decide(_) => Dispatch
    case Drain => Drained
    case Recovering => Recovered
    case _ => Exit
  }

  /** The host goes on waiting for the same stop, and the run stays played. */
  lemma OnwardKeepsStopping(s: State, hasPlayback: bool)
    requires HostInv(s) && GenerationInv(s) && s.mode.Stopping? && !s.worker.pc.Exited?
    requires hasPlayback ==> AllPlayed(s.run, s.watermark)
    ensures Enabled(s, Onward(s)) && WorkerMove(Onward(s))
    ensures var t := Step(s, Onward(s), hasPlayback);
            && t.mode == s.mode && t.command == s.command && !t.worker.pc.Exited?
            && (hasPlayback ==> AllPlayed(t.run, t.watermark))
  {
  }

  /** A look at the gate comes closer, and adopts the stop. */
  lemma OnwardTowardsGate(s: State, hasPlayback: bool)
    requires HostInv(s) && GenerationInv(s) && s.mode.Stopping? && !s.worker.pc.Exited?
    requires s.worker.runGeneration != Some(s.command)
    ensures Remaining(Step(s, Onward(s), hasPlayback)) < Remaining(s)
  {
  }

  /** Once adopted, draining comes closer, and with everything played its end. */
  lemma OnwardTowardsStop(s: State, hasPlayback: bool)
    requires HostInv(s) && GenerationInv(s) && RunInv(s) && StopInv(s) && s.mode.Stopping? && !s.worker.pc.Exited?
    requires s.worker.runGeneration == Some(s.command) && s.stopped != Some(s.command)
    requires hasPlayback ==> AllPlayed(s.run, s.watermark)
    ensures var t := Step(s, Onward(s), hasPlayback);
            t.stopped == Some(t.command) || Remaining(t) < Remaining(s)
  {
    hide Rising;
  }

  /** A stop never gets stuck: from any reachable state in which the host waits for one,
      and the daemon has played what was submitted, the worker's own moves and a block to
      look at lead to its acknowledgement. */
  lemma {:induction false} StopCanBeAcknowledged(s: State, hasPlayback: bool) returns (moves: seq<Move>, t: State)
    requires Inv(s, hasPlayback) && StopInv(s)
    requires s.mode.Stopping? && !s.worker.pc.Exited? && (hasPlayback ==> AllPlayed(s.run, s.watermark))
    ensures Leads(s, moves, t, hasPlayback) && t.command == s.command
    ensures t.stopped == Some(t.command) && Enabled(t, HostStopped)
    decreases Remaining(s)
  {
    if s.stopped == Some(s.command) {
      return [], s;
    }
    hide Step, HostInv, GenerationInv, RunInv, AckInv, CallbackInv, StopInv, Remaining, Onward, WorkerMove, AllPlayed;
    OnwardKeepsStopping(s, hasPlayback);
    if s.worker.runGeneration == Some(s.command) {
      OnwardTowardsStop(s, hasPlayback);
    } else {
      OnwardTowardsGate(s, hasPlayback);
    }
    StepKeepsInv(s, Onward(s), hasPlayback);
    KeepsStop(s, Onward(s), hasPlayback);
    var next := Step(s, Onward(s), hasPlayback);
    var more := [];
    if next.stopped == Some(next.command) {
      t := next;
    } else {
      more, t := StopCanBeAcknowledged(next, hasPlayback);
    }
    moves := [Onward(s)] + more;
    assert moves[1..] == more;
  }

  /** In particular so in every run. */
  lemma StopsCanComplete(states: seq<State>, moves: seq<Move>, hasPlayback: bool, k: nat)
    requires Run(states, moves, hasPlayback) && k < |states|
    requires states[k].mode.Stopping? && !states[k].worker.pc.Exited?
    requires hasPlayback ==> AllPlayed(states[k].run, states[k].watermark)
    ensures exists more, t :: Leads(states[k], more, t, hasPlayback) && Enabled(t, HostStopped)
  {
    RunKeepsInv(states, moves, hasPlayback, k);
    RunKeepsStop(states, moves, hasPlayback, k);
    var more, t := StopCanBeAcknowledged(states[k], hasPlayback);
  }

  /** While the generation runs, a block newer than the one before is decided to be played,
      a repeated one is dropped, and a backward one starts a recovery. */
  lemma RunningDecision(s: State, hasPlayback: bool, block: int)
    requires Runs(s.command) && s.worker.runGeneration == Some(s.command) && s.worker.pc.Wait?
    ensures var w := s.worker.(acquired := Some(s.command));
            var arrived := Step(s, Arrive(block), hasPlayback);
            && Enabled(arrived, Dispatch)
            && Step(arrived, Dispatch, hasPlayback) == s.(worker :=
                 if w.previous.None? || w.previous.value < block
                 then w.(previous := Some(block), pc := Publishing(block))
                 else if w.previous.value == block then w.(pc := Top)
                 else w.(pc := Recovering))
  {
  }

  /** A running worker comes back to waiting for a block, and changes nothing on the way. */
  lemma RunningWaits(s: State, hasPlayback: bool)
    requires Runs(s.command) && s.worker.runGeneration == Some(s.command) && s.worker.pc.Top?
    ensures Leads(s, [ReadGate, PollGate], s.(worker := s.worker.(pc := Wait)), hasPlayback)
  {
    LeadsByTwo(s, ReadGate, PollGate, hasPlayback);
  }

  /** Once decided on, it is published, handed to the host and submitted. */
  lemma DecidedBlockIsPlayed(s: State, hasPlayback: bool, block: int, accepted: bool) returns (t: State)
    requires s.worker.pc == Publishing(block) && s.worker.runGeneration == s.worker.acquired == Some(s.command)
    ensures Leads(s, [Published, Called, Submitted(accepted)], t, hasPlayback) && t.worker.pc.Top?
    ensures t.callbacks == s.callbacks + [Callback(s.command, s.command, block, s.stopped)]
    ensures t.run == if accepted || !hasPlayback then s.run + [block] else s.run
  {
    var published := s.(worker := s.worker.(pc := Calling(block)));
    assert Step(s, Published, hasPlayback) == published;
    var called := published.(worker := s.worker.(pc := Submitting(block)),
                             callbacks := s.callbacks + [Callback(s.command, s.command, block, s.stopped)]);
    assert Step(published, Called, hasPlayback) == called;
    t := Step(called, Submitted(accepted), hasPlayback);
    assert t.worker.pc.Top? && t.callbacks == called.callbacks;
    LeadsByTwo(published, Called, Submitted(accepted), hasPlayback);
    assert [Published, Called, Submitted(accepted)][1..] == [Called, Submitted(accepted)];
  }

  /** A new block of the running generation is played: one callback for it begins, and
      once the daemon takes it the run ends with it. */
  lemma NewBlockIsPlayed(states: seq<State>, moves: seq<Move>, hasPlayback: bool, k: nat, block: int, accepted: bool)
    returns (t: State)
    requires Run(states, moves, hasPlayback) && k < |states|
    requires Runs(states[k].command) && states[k].worker.runGeneration == Some(states[k].command)
    requires states[k].worker.pc.Wait?
    requires states[k].worker.previous.Some? ==> states[k].worker.previous.value < block
    ensures Leads(states[k], [Arrive(block), Dispatch, Published, Called, Submitted(accepted)], t, hasPlayback)
    ensures t.worker.pc.Top?
    ensures t.callbacks ==
            states[k].callbacks + [Callback(states[k].command, states[k].command, block, states[k].stopped)]
    ensures t.run == if accepted || !hasPlayback then states[k].run + [block] else states[k].run
  {
    RunKeepsInv(states, moves, hasPlayback, k);
    RunningDecision(states[k], hasPlayback, block);
    var arrived := Step(states[k], Arrive(block), hasPlayback);
    var decided := Step(arrived, Dispatch, hasPlayback);
    t := DecidedBlockIsPlayed(decided, hasPlayback, block, accepted);
    hide Dispatched, Transition, HostInv, GenerationInv, RunInv, AckInv, CallbackInv, Step;
    var period := [Arrive(block), Dispatch, Published, Called, Submitted(accepted)];
    assert period[1..][1..] == [Published, Called, Submitted(accepted)];
    assert Leads(arrived, period[1..], t, hasPlayback);
  }

  /** A run that the host has ordered is acknowledged as running before anything of it is
      played. */
  lemma RunIsAcknowledged(s: State, hasPlayback: bool)
    requires s.worker.pc.Top? && Runs(s.command) && s.worker.runGeneration != Some(s.command)
    ensures var t := s.(worker := Worker(Poll, Some(s.command), s.worker.acquired, None, None, None), run := [],
                        acks := s.acks + [Ack(s.command, true, false, [], s.watermark)]);
            Leads(s, [ReadGate, Store], t, hasPlayback)
  {
    LeadsByTwo(s, ReadGate, Store, hasPlayback);
  }

  /** A recovery forgets the run, adopts the command of the moment and acknowledges it,
      whichever it is. */
  lemma RecoveryIsAcknowledged(s: State, hasPlayback: bool)
    requires s.worker.pc.Recovering?
    ensures var t := s.(worker := Worker(Top, Some(s.command), s.worker.acquired, None, None, None), run := [],
                        stopped := if Runs(s.command) then s.stopped else Some(s.command),
                        acks := s.acks + [Ack(s.command, Runs(s.command), true, [], s.watermark)]);
            Leads(s, [Recovered, Store], t, hasPlayback)
  {
    LeadsByTwo(s, Recovered, Store, hasPlayback);
  }
}
