/** The C side of the playback adapter: libasound moves its own cursors without
    calling the plugin, which finds out from where they stand. */
module PlaybackCursors {
  import opened Sequences
  import opened PeriodMath
  import opened PlaybackPlan
  import opened PlaybackHistory
  import opened PlaybackStream
  import opened Cursors

  /** What the daemon shows while ALSA calls. */
  datatype Daemon = Daemon(watermark: u64, now: u64, activation: Option<u64>, script: seq<Cycle>)

  /** How far the application cursor has moved: forward, or back by a rewind. */
  function Moved(expected: nat, appl: nat, boundary: nat, bufferSize: nat): Option<int>
    requires expected < boundary && appl < boundary
  {
    var distance := WrapDistance(expected, appl, boundary);
    if distance <= bufferSize then Some(distance)
    else if boundary - distance <= bufferSize then Some(distance - boundary)
    else None
  }

  /** As long as the boundary holds more than two buffers, every move of at most
      one buffer is recognised for what it is. */
  lemma MoveIsRecognised(from: int, to: int, boundary: nat, bufferSize: nat)
    requires 2 * bufferSize < boundary && from - to <= bufferSize && to - from <= bufferSize
    ensures Cursor(from, boundary) < boundary && Cursor(to, boundary) < boundary
    ensures Moved(Cursor(from, boundary), Cursor(to, boundary), boundary, bufferSize) == Some(to - from)
  {
    if from <= to {
      DistanceOfCounts(from, to, boundary);
    } else {
      DistanceBack(from, to, boundary);
    }
  }

  /** Moving a count by what was recognised reaches the new cursor. */
  lemma MovedReaches(count: int, to: nat, boundary: nat, bufferSize: nat)
    requires to < boundary
    ensures Cursor(count, boundary) < boundary
    ensures var moved := Moved(Cursor(count, boundary), to, boundary, bufferSize);
            moved.Some? ==> Cursor(count + moved.value, boundary) == to
  {
    MoveReaches(count, to, boundary);
    var distance := WrapDistance(Cursor(count, boundary), to, boundary);
    CursorMoves(count + distance - boundary, 0, boundary);
    CursorIsPeriodic(count + distance, boundary);
  }

  lemma CursorIsPeriodic(count: int, boundary: nat)
    requires boundary > 0
    ensures Cursor(count - boundary, boundary) == Cursor(count, boundary)
  {
    var laps := count / boundary;
    assert (laps - 1) * boundary == laps * boundary - boundary;
    CursorIsUnique(count - boundary, laps - 1, Cursor(count, boundary), boundary);
  }

  class PlaybackPcm {
    const stream: Stream
    const boundary: nat
    const bufferSize: u64
    var expected: nat
    var reportedHw: nat
    /** Where ALSA's count stood when the stream's account began. */
    ghost var base: int
    /** The position that ALSA was last told. */
    ghost var shown: u64

    ghost predicate Valid()
      reads this, stream, stream.fifo
    {
      && stream.Valid() && 0 < boundary < RANGE && expected < boundary
      && expected == Cursor(base + stream.h.Accepted(), boundary) && reportedHw == Cursor(shown, boundary)
    }

    constructor (stream: Stream, boundary: nat, bufferSize: u64)
      requires stream.Valid() && stream.h.Accepted() == 0 && 0 < boundary < RANGE
      ensures Valid() && this.stream == stream && this.boundary == boundary && this.bufferSize == bufferSize
      ensures base == shown == 0
    {
      this.stream, this.boundary, this.bufferSize := stream, boundary, bufferSize;
      expected, reportedHw, base, shown := 0, 0, 0, 0;
      new;
      CursorIsUnique(0, 0, 0, boundary);
    }

    /** ALSA counts from zero, as after a prepare or a reset, and has less than a lap
        queued in front of the position it was told. */
    ghost predicate InStep()
      reads `base, `shown, stream
    {
      base == 0 && 0 <= stream.h.Accepted() - shown < boundary
    }

    /** Then what lies between the two cursors is what ALSA has queued. */
    lemma QueuedBetween()
      requires Valid() && InStep()
      ensures reportedHw < boundary
      ensures WrapDistance(reportedHw, expected, boundary) == stream.h.Accepted() - shown
    {
      hide Stream.Valid, Cursor, History.Accepted;
      DistanceOfCounts(shown, stream.h.Accepted(), boundary);
    }

    lemma HwIsCursor()
      requires Valid()
      ensures reportedHw < boundary
    {
      CursorRange(shown, boundary);
    }

    /** Finds the account's base again where a call has left the cursors apart. */
    ghost method Rebase(appl: nat)
      requires 0 < boundary && appl < boundary
      modifies `base
      ensures appl == Cursor(base + stream.h.Accepted(), boundary)
      ensures old(appl == Cursor(base + stream.h.Accepted(), boundary)) ==> base == old(base)
      ensures base == old(base) || base == appl - stream.h.Accepted()
    {
      if appl != Cursor(base + stream.h.Accepted(), boundary) {
        base := appl - stream.h.Accepted();
        CursorIsUnique(appl, 0, appl, boundary);
      }
    }

    /** ALSA's hardware pointer has been moved without asking: its pointers were reset. */
    method Reset(appl: nat, hw: nat, daemon: Daemon)
      requires Valid() && appl < boundary && hw < boundary
      modifies `expected, `reportedHw, `base, `shown, stream
      ensures Valid() && expected == appl && reportedHw == shown == hw && stream.running == old(stream.running)
      ensures stream.h.Accepted() == 0 && base == appl
      // What it hides is exact just when the pointer stands where ALSA was told it does.
      ensures old(InStep() && stream.running && stream.h.clean && |stream.h.stream| < RANGE) ==>
                var raw := old(stream.RawPosition(daemon.watermark, daemon.now, daemon.activation));
                stream.h.clean <==> raw == Min(old(stream.h.head), old(shown) + old(stream.hiddenFrames))
    {
      hide Stream.Valid, Cursor, ResetHidden, LabelsAgree, SentAgrees, FifoAgrees, CleanAgrees;
      HwIsCursor();
      ghost var raw := stream.RawPosition(daemon.watermark, daemon.now, daemon.activation);
      if InStep() {
        QueuedBetween();
        if stream.running && stream.h.clean && |stream.h.stream| < RANGE {
          stream.ResetFollowsShown(raw, shown);
        }
      }
      stream.Reset(WrapDistance(reportedHw, expected, boundary), daemon.watermark, daemon.now, daemon.activation);
      expected, reportedHw, base, shown := appl, hw, appl, hw;
      CursorIsUnique(appl, 0, appl, boundary);
      CursorIsUnique(hw, 0, hw, boundary);
    }

    /** Applies ALSA's own cursor moves to the FIFO. */
    method Sync(appl: nat, hw: nat, daemon: Daemon) returns (result: Result<()>)
      requires Valid() && appl < boundary && hw < boundary
      modifies `expected, `reportedHw, `base, `shown, stream, stream.fifo
      ensures Valid() && expected == appl && reportedHw == hw && stream.running == old(stream.running)
      ensures hw == old(reportedHw) ==>
                var moved := Moved(old(expected), appl, boundary, bufferSize);
                && shown == old(shown)
                && (result.Ok? ==>
                      moved.Some? && base == old(base) && stream.h.Accepted() == old(stream.h.Accepted()) + moved.value)
                && (result.Ok? && moved == Some(0) ==> stream.h == old(stream.h))
                && (result.Ok? <==> moved.Some? && old(stream.Takes(moved.value)))
                && (appl == old(expected) ==> result.Ok? && unchanged(stream) && unchanged(stream.fifo))
                && (result.Err? ==> result == Err(EPipe))
      ensures hw != old(reportedHw) ==> result.Ok? && stream.h.Accepted() == 0 && base == appl && shown == hw
      ensures hw != old(reportedHw) &&
              old(InStep() && stream.running && stream.h.clean && |stream.h.stream| < RANGE) ==>
                var raw := old(stream.RawPosition(daemon.watermark, daemon.now, daemon.activation));
                stream.h.clean <==> raw == Min(old(stream.h.head), old(shown) + old(stream.hiddenFrames))
    {
      hide Stream.Valid, GrewFrom, Cursor;
      result := Ok(());
      if hw != reportedHw {
        Reset(appl, hw, daemon);
        return;
      }
      if appl != expected {
        MovedReaches(base + stream.h.Accepted(), appl, boundary, bufferSize);
        var moved := WrapDistance(expected, appl, boundary);
        if moved <= bufferSize {
          result := stream.Forward(moved);
        } else if boundary - moved <= bufferSize {
          result := stream.Rewind(boundary - moved);
        } else {
          result := Err(EPipe);
        }
        Rebase(appl);
      }
      expected := appl;
    }

    /** A write: the moves first, then the frames. */
    method Transfer(appl: nat, hw: nat, frames: seq<Frame>, nonblock: bool, daemon: Daemon, ghost p: Promise)
      returns (outcome: Outcome)
      requires Valid() && appl < boundary && hw < boundary
      modifies `expected, `reportedHw, `base, `shown, stream, stream.fifo
      ensures Valid() && reportedHw == hw && shown == if hw == old(reportedHw) then old(shown) else hw
      ensures hw == old(reportedHw) && outcome.Done? && outcome.frames > 0 ==>
                var moved := Moved(old(expected), appl, boundary, bufferSize);
                && moved.Some? && base == old(base)
                && stream.h.Accepted() == old(stream.h.Accepted()) + moved.value + outcome.frames
                && expected == (appl + outcome.frames) % boundary
      ensures hw == old(reportedHw) ==>
                var moved := Moved(old(expected), appl, boundary, bufferSize);
                moved.None? || !old(stream.Takes(moved.value)) ==> outcome == Refused(EPipe)
      // Without a move the frames are taken as the stream takes them.
      ensures hw == old(reportedHw) && appl == old(expected) && !old(stream.running) ==>
                var accepted := Min(old(stream.bufferFrames - stream.fifoFrames), |frames|);
                outcome == if accepted == 0 then Refused(EAgain) else Done(accepted)
      ensures hw == old(reportedHw) && appl == old(expected) && old(stream.running) && frames != [] &&
              old(stream.TakesAll(|frames|, daemon.script, p)) ==>
                outcome == Done(|frames|)
    {
      hide Stream.Valid, GrewFrom, Cursor, Moved, Whole, AllSeen, Periods, Stream.TakesAll, Stream.NoCycleYet;
      var synced := Sync(appl, hw, daemon);
      if synced.Err? {
        return Refused(synced.error);
      }
      ghost var before := stream.h;
      if stream.running {
        var used;
        ghost var queued;
        outcome, used, queued := stream.Write(frames, nonblock, daemon.script, p);
      } else {
        outcome := stream.QueuePrepared(frames);
      }
      if outcome.Done? && outcome.frames > 0 {
        CursorAdds(base + before.Accepted(), outcome.frames, boundary);
        CursorRange(base + before.Accepted() + outcome.frames, boundary);
        expected := (appl + outcome.frames) % boundary;
      } else {
        Rebase(expected);
      }
    }

    /** Tells ALSA the position, unless it would have more queued than its buffer holds. */
    method Tell(appl: nat, pcmRunning: bool, later: Daemon) returns (outcome: Outcome)
      requires Valid() && expected == appl
      modifies `reportedHw, `shown
      ensures Valid()
      ensures var told := stream.Reported(later.watermark, later.now, later.activation);
              var hw := Cursor(told, boundary);
              && hw < boundary
              && outcome == (if pcmRunning && WrapDistance(hw, appl, boundary) > bufferSize then Refused(EPipe)
                             else Done(hw))
              && (if outcome.Done? then shown == told && reportedHw == hw
                  else shown == old(shown) && reportedHw == old(reportedHw))
      ensures outcome.Done? && pcmRunning && InStep() ==> stream.h.Accepted() - shown <= bufferSize
      ensures outcome.Done? && stream.KeepsUp(later.watermark) && stream.h.bounded && |stream.h.stream| < RANGE ==>
                shown <= if stream.h.Accepted() < stream.fifoFrames then 0
                         else stream.h.Accepted() - stream.fifoFrames
    {
      hide Stream.Valid, Cursor, Stream.RawPosition, Stream.KeepsUp, History.Accepted;
      var position := stream.Reported(later.watermark, later.now, later.activation);
      CursorRange(position, boundary);
      var hw := Cursor(position, boundary);
      if pcmRunning && WrapDistance(hw, appl, boundary) > bufferSize {
        return Refused(EPipe);
      }
      reportedHw, shown := hw, position;
      if InStep() {
        QueuedBetween();
      }
      return Done(hw);
    }

    /** ALSA asks how far the hardware is: its moves are applied, prepared PRO data is
        submitted, and the position is told. `later` is what the daemon shows then. */
    method Pointer(appl: nat, hw: nat, pcmRunning: bool, daemon: Daemon, later: Daemon, ghost p: Promise)
      returns (outcome: Outcome)
      requires Valid() && appl < boundary && hw < boundary
      modifies `expected, `reportedHw, `base, `shown, stream, stream.fifo
      ensures Valid() && expected == appl && stream.running == old(stream.running)
      ensures var told := stream.Reported(later.watermark, later.now, later.activation);
              outcome.Done? ==>
                && shown == told && outcome.frames == reportedHw == Cursor(told, boundary) < boundary
                && (pcmRunning ==> WrapDistance(reportedHw, appl, boundary) <= bufferSize)
                && (pcmRunning && InStep() ==> stream.h.Accepted() - shown <= bufferSize)
                && (stream.KeepsUp(later.watermark) && stream.h.bounded && |stream.h.stream| < RANGE ==>
                      shown <= if stream.h.Accepted() < stream.fifoFrames then 0
                               else stream.h.Accepted() - stream.fifoFrames)
      ensures !outcome.Done? ==> reportedHw == hw && shown == if hw == old(reportedHw) then old(shown) else hw
      ensures hw == old(reportedHw) ==>
                var moved := Moved(old(expected), appl, boundary, bufferSize);
                moved.None? || !old(stream.Takes(moved.value)) ==> outcome == Refused(EPipe)
      // Without a move, and with nothing to submit or all of it taken, only the position decides.
      ensures hw == old(reportedHw) && appl == old(expected) &&
              (!(stream.pro && stream.running) || old(stream.SendsAll(daemon.script, 0, p))) ==>
                var told := Cursor(stream.Reported(later.watermark, later.now, later.activation), boundary);
                && told < boundary
                && (if stream.pro && stream.running then stream.fifoFrames < stream.period
                    else stream.h == old(stream.h))
                && outcome == if pcmRunning && WrapDistance(told, appl, boundary) > bufferSize then Refused(EPipe)
                              else Done(told)
    {
      hide Stream.Valid, Cursor, Moved, AllSeen, KeptFrom, Stream.Reported, Stream.KeepsUp, History.Accepted, Periods;
      hide Stream.SendsAll, Served;
      var synced := Sync(appl, hw, daemon);
      CursorRange(stream.Reported(later.watermark, later.now, later.activation), boundary);
      if synced.Err? {
        return Refused(synced.error);
      }
      var pumped := stream.Pump(daemon.script, p);
      Rebase(appl);
      match pumped {
        case FlushFailed(error) => return Refused(error);
        case Unfinished => return Pending;
        case Flushed(_) => outcome := Tell(appl, pcmRunning, later);
      }
    }

    /** A prepare starts the stream's account and both cursors again. */
    method Prepare(appl: nat, hw: nat, prepared: Result<()>) returns (result: Result<()>)
      requires Valid() && appl < boundary && hw < boundary
      modifies `expected, `reportedHw, `base, `shown, stream
      ensures Valid() && result == prepared
      ensures result.Ok? ==>
                expected == appl == base && reportedHw == hw == shown && stream.h == Cleared(stream.sent, true)
      ensures result.Err? ==> expected == old(expected) && reportedHw == old(reportedHw) && stream.h == old(stream.h)
    {
      hide Stream.Valid, Cursor;
      result := stream.Prepare(prepared);
      if result.Ok? {
        expected, reportedHw, base, shown := appl, hw, appl, hw;
        ClearedAccepts(stream.sent);
        CursorIsUnique(appl, 0, appl, boundary);
        CursorIsUnique(hw, 0, hw, boundary);
      }
    }
  }

  lemma ClearedAccepts(sent: seq<Sent>)
    ensures Cleared(sent, true).Accepted() == 0
  {
  }
}
