/** Buffered ALSA capture: partial reads and skips over the stream of published
    blocks, and the cursor the C side expects. */
module BufferedCapture {
  import opened Sequences
  import opened PeriodMath
  import opened PlaybackPlan
  import opened Cursors

  type Frame = int

  /** What happens around one call into the client: blocks the daemon publishes
      before it, and how the checks and the wait end. */
  datatype Event = Event(arrived: seq<seq<Frame>>, valid: Result<()>, wait: Result<()>, read: Result<()>)

  datatype Outcome = Copied(frames: nat) | Refused(error: Errno)

  function Flatten(blocks: seq<seq<Frame>>): seq<Frame> {
    if blocks == [] then [] else blocks[0] + Flatten(blocks[1..])
  }

  lemma Associates(a: seq<Frame>, b: seq<Frame>, c: seq<Frame>)
    ensures (a + b) + c == a + (b + c)
  {
  }

  lemma {:induction false} FlattenAppend(blocks: seq<seq<Frame>>, more: seq<seq<Frame>>)
    ensures Flatten(blocks + more) == Flatten(blocks) + Flatten(more)
  {
    if blocks == [] {
      assert blocks + more == more;
    } else {
      FlattenAppend(blocks[1..], more);
      assert (blocks + more)[0] == blocks[0] && (blocks + more)[1..] == blocks[1..] + more;
      Associates(blocks[0], Flatten(blocks[1..]), Flatten(more));
    }
  }

  lemma {:induction false} FlattenLength(blocks: seq<seq<Frame>>, period: nat)
    requires forall i :: 0 <= i < |blocks| ==> |blocks[i]| == period
    ensures |Flatten(blocks)| == Frames(|blocks|, period)
  {
    if blocks != [] {
      FlattenLength(blocks[1..], period);
    }
  }

  /** One stretch of the published stream: read by the application, or skipped by
      its cursor. */
  datatype Stretch = Read(frames: seq<Frame>) | Skipped(count: nat)
  {
    function Length(): nat {
      if Read? then |frames| else count
    }
  }

  function Walked(walk: seq<Stretch>): nat {
    if walk == [] then 0 else Walked(walk[..|walk| - 1]) + walk[|walk| - 1].Length()
  }

  /** The stretches lie end to end on the published stream from its first frame,
      and what was read is what was published there. */
  predicate Walks(walk: seq<Stretch>, published: seq<Frame>) {
    walk == [] ||
    (var last := walk[|walk| - 1];
     var before := walk[..|walk| - 1];
     && Walks(before, published)
     && Walked(walk) <= |published|
     && (last.Read? ==> last.frames == published[Walked(before)..Walked(walk)]))
  }

  lemma {:induction false} WalksOnLonger(walk: seq<Stretch>, published: seq<Frame>, more: seq<Frame>)
    requires Walks(walk, published)
    ensures Walks(walk, published + more)
  {
    if walk != [] {
      WalksOnLonger(walk[..|walk| - 1], published, more);
    }
  }

  lemma WalkOneMore(walk: seq<Stretch>, stretch: Stretch, published: seq<Frame>)
    requires Walks(walk, published) && Walked(walk) + stretch.Length() <= |published|
    requires stretch.Read? ==> stretch.frames == published[Walked(walk)..Walked(walk) + |stretch.frames|]
    ensures Walks(walk + [stretch], published) && Walked(walk + [stretch]) == Walked(walk) + stretch.Length()
  {
    assert (walk + [stretch])[..|walk|] == walk;
  }

  lemma JoinSlices(published: seq<Frame>, from: nat, to: nat, end: nat)
    requires from <= to <= end <= |published|
    ensures published[from..to] + published[to..end] == published[from..end]
  {
  }

  /** Behind the walked frames come the held ones, then the unread ones. */
  predicate StreamAgrees(published: seq<Frame>, walked: nat, held: seq<Frame>, rest: seq<Frame>) {
    walked <= |published| && published == published[..walked] + held + rest
  }

  /** Moving the first `chunk` held frames behind the walked ones. */
  lemma SplitHeld(published: seq<Frame>, walked: nat, held: seq<Frame>, rest: seq<Frame>, chunk: nat)
    requires StreamAgrees(published, walked, held, rest) && chunk <= |held|
    ensures StreamAgrees(published, walked + chunk, held[chunk..], rest)
    ensures walked + chunk <= |published| && published[walked..walked + chunk] == held[..chunk]
  {
  }

  /** The oldest unread block becomes the held one. */
  lemma HoldBlock(published: seq<Frame>, walked: nat, unread: seq<seq<Frame>>)
    requires StreamAgrees(published, walked, [], Flatten(unread)) && unread != []
    ensures StreamAgrees(published, walked, unread[0], Flatten(unread[1..]))
  {
  }

  lemma PublishBlock(published: seq<Frame>, walked: nat, held: seq<Frame>, unread: seq<seq<Frame>>, block: seq<Frame>)
    requires StreamAgrees(published, walked, held, Flatten(unread))
    ensures StreamAgrees(published + block, walked, held, Flatten(unread + [block]))
  {
    FlattenAppend(unread, [block]);
    assert Flatten([block]) == block + Flatten([]);
  }

  /** Where the daemon's production stands: what was retired, what is held in part
      and what waits unread. */
  function ProductionPosition(retired: u64, buffered: u64, ready: u64): u64 {
    WrapAdd(WrapAdd(retired, buffered), ready)
  }

  lemma DistanceIsPositive(from: nat, to: nat, boundary: nat)
    requires from < boundary && to < boundary
    ensures from != to ==> WrapDistance(from, to, boundary) > 0
  {
  }

  lemma NoFrames(period: nat)
    ensures Frames(0, period) == 0
  {
  }

  class CaptureStream {
    const period: nat
    const bufferFrames: nat
    const slots: nat
    const nonblock: bool
    /** The daemon's and the clock's whole behaviour, one event per call into the client. */
    const events: nat -> Event
    var tick: nat
    var unread: seq<seq<Frame>>
    const scratch: array<Frame>
    var captureFrames: nat
    var captureOffset: nat
    var retired: u64
    var captureError: Option<Errno>
    var running: bool

    /** Everything published since the start, and how the application walked it. */
    ghost var published: seq<Frame>
    ghost var walk: seq<Stretch>
    /** How many stretches there were when the stream was last found in order. */
    ghost var checked: nat

    ghost predicate Valid()
      reads `unread, `captureFrames, `captureOffset, `retired, `published, `walk, scratch
    {
      && 0 < period == scratch.Length && Frames(slots, period) < RANGE
      && |unread| <= slots && (forall i :: 0 <= i < |unread| ==> |unread[i]| == period)
      && captureOffset + captureFrames <= period && captureFrames < RANGE
      && Walks(walk, published) && Walked(walk) <= |published| && retired == Wrap(Walked(walk))
      && StreamAgrees(published, Walked(walk), scratch[captureOffset..captureOffset + captureFrames], Flatten(unread))
    }

    constructor (period: nat, bufferFrames: nat, slots: nat, nonblock: bool, events: nat -> Event)
      requires 0 < period < RANGE && Frames(slots, period) < RANGE
      ensures Valid() && published == [] && walk == [] && captureError == None && !running && tick == 0
      ensures this.period == period && this.bufferFrames == bufferFrames && this.slots == slots
      ensures this.nonblock == nonblock && this.events == events && unread == [] && captureFrames == 0
    {
      this.period, this.bufferFrames, this.slots := period, bufferFrames, slots;
      this.nonblock, this.events := nonblock, events;
      scratch := new Frame[period](_ => 0);
      tick, unread, captureFrames, captureOffset, retired := 0, [], 0, 0, 0;
      captureError, running, published, walk, checked := None, false, [], [], 0;
    }

    /** The stream may grow, and no more of it is walked. */
    twostate predicate OnlyGrew()
      reads this
    {
      && old(published) <= published && walk == old(walk) && running == old(running) && retired == old(retired)
    }

    /** No error is pending and none is to come. */
    ghost predicate Healthy()
      reads `captureError, `tick
    {
      captureError.None? && forall k :: k >= tick ==> events(k).valid.Ok? && events(k).wait.Ok? && events(k).read.Ok?
    }

    /** What the daemon published and the application has neither read nor skipped. */
    ghost function Unwalked(): int
      reads `published, `walk
    {
      |published| - Walked(walk)
    }

    lemma UnwalkedIsBuffered()
      requires Valid()
      ensures Unwalked() == captureFrames + Frames(|unread|, period)
    {
      FlattenLength(unread, period);
    }

    /** What is unread once these blocks have arrived: whole ones join while there is room. */
    function Joined(blocks: seq<seq<Frame>>, arrived: seq<seq<Frame>>): seq<seq<Frame>>
      decreases |arrived|
    {
      if arrived == [] then blocks
      else
        var before := Joined(blocks, arrived[..|arrived| - 1]);
        var block := arrived[|arrived| - 1];
        if |block| == period && |before| < slots then before + [block] else before
    }

    /** As long as there is room all whole blocks join, in order. */
    lemma {:induction false} WholeBlocksJoin(blocks: seq<seq<Frame>>, arrived: seq<seq<Frame>>)
      requires |blocks| + |arrived| <= slots && forall i :: 0 <= i < |arrived| ==> |arrived[i]| == period
      ensures Joined(blocks, arrived) == blocks + arrived
      decreases |arrived|
    {
      if arrived != [] {
        WholeBlocksJoin(blocks, arrived[..|arrived| - 1]);
      }
    }

    /** How an acquisition ends that begins at event `at`, while no error is pending. */
    function Acquires(at: nat, blocks: seq<seq<Frame>>): Result<()> {
      if events(at).valid.Err? then events(at).valid
      else if events(at + 1).read.Err? then events(at + 1).read
      else if Joined(Joined(blocks, events(at).arrived), events(at + 1).arrived) == [] then Err(EAgain)
      else events(at + 2).valid
    }

    /** The daemon publishes whole blocks while the ring has room for them. */
    method Arrive(block: seq<Frame>)
      requires Valid()
      modifies `unread, `published
      ensures Valid() && OnlyGrew()
      ensures published == old(published) + if |block| == period && |old(unread)| < slots then block else []
      ensures unread == old(unread) + if |block| == period && |old(unread)| < slots then [block] else []
    {
      if |block| == period && |unread| < slots {
        PublishBlock(published, Walked(walk), scratch[captureOffset..captureOffset + captureFrames], unread, block);
        WalksOnLonger(walk, published, block);
        unread := unread + [block];
        published := published + block;
      }
    }

    /** The next event: its blocks arrive. */
    method NextEvent() returns (event: Event)
      requires Valid()
      modifies `unread, `published, `tick
      ensures Valid() && OnlyGrew() && event == events(old(tick)) && tick == old(tick) + 1 && old(unread) <= unread
      ensures unread == Joined(old(unread), event.arrived)
    {
      hide Valid, Flatten;
      event := events(tick);
      tick := tick + 1;
      for i := 0 to |event.arrived|
        invariant Valid() && OnlyGrew() && tick == old(tick) + 1 && old(unread) <= unread
        invariant unread == Joined(old(unread), event.arrived[..i])
      {
        assert event.arrived[..i + 1][..i] == event.arrived[..i];
        Arrive(event.arrived[i]);
      }
      assert event.arrived[..|event.arrived|] == event.arrived;
    }

    method Validate() returns (result: Result<()>)
      requires Valid()
      modifies `unread, `published, `tick, `captureError, `checked
      ensures Valid() && OnlyGrew()
      ensures result == if old(captureError).Some? then Err(old(captureError).value) else events(old(tick)).valid
      ensures result.Err? ==> captureError == Some(result.error)
      ensures old(captureError).Some? ==> captureError == old(captureError)
      ensures result.Ok? ==> captureError == None && old(captureError).None?
      ensures old(unread) <= unread && (result.Ok? ==> checked == |walk|)
      ensures old(Healthy()) ==> result.Ok? && Healthy()
      ensures if old(captureError).Some? then unread == old(unread) && tick == old(tick)
              else unread == Joined(old(unread), events(old(tick)).arrived) && tick == old(tick) + 1
    {
      if captureError.Some? {
        return Err(captureError.value);
      }
      var event := NextEvent();
      if event.valid.Err? {
        captureError := Some(event.valid.error);
      } else {
        checked := |walk|;
      }
      return event.valid;
    }

    /** Reads the oldest unread block into the scratch buffer. */
    method Acquire() returns (result: Result<()>)
      requires Valid() && captureFrames == 0
      modifies `unread, `published, `tick, `captureError, `checked, `captureFrames, `captureOffset, scratch
      ensures Valid() && OnlyGrew()
      ensures result == if old(captureError).Some? then Err(old(captureError).value)
                        else Acquires(old(tick), old(unread))
      ensures result.Ok? ==> captureFrames == period && captureOffset == 0 && captureError == None
      ensures result.Err? ==> captureFrames == 0 || captureError.Some?
      ensures old(Healthy()) ==>
                Healthy() && (result.Err? ==> captureFrames == 0 && unread == [] && result.error == EAgain)
      ensures old(Healthy()) && old(unread) != [] ==> result.Ok?
    {
      hide Valid, Walked, Joined;
      result := Validate();
      if result.Err? {
        return;
      }
      var event := NextEvent();
      if event.read.Err? {
        return Err(event.read.error);
      }
      if unread == [] {
        return Err(EAgain);
      }
      Hold();
      result := Validate();
    }

    /** The oldest unread block becomes the held one. */
    method Hold()
      requires Valid() && captureFrames == 0 && unread != []
      modifies `unread, `captureFrames, `captureOffset, scratch
      ensures Valid() && captureFrames == period && captureOffset == 0 && unread == old(unread)[1..]
    {
      hide Walks, Walked, Flatten, StreamAgrees, Wrap;
      var block := unread[0];
      assert scratch[captureOffset..captureOffset + captureFrames] == [];
      HoldBlock(published, Walked(walk), unread);
      forall i | 0 <= i < period {
        scratch[i] := block[i];
      }
      assert scratch[..] == block && scratch[0..0 + period] == block;
      unread, captureFrames, captureOffset := unread[1..], period, 0;
    }

    /** The first `chunk` held frames are read or skipped. */
    method Retire(chunk: nat, read: bool) returns (frames: seq<Frame>)
      requires Valid() && chunk <= captureFrames
      modifies `captureFrames, `captureOffset, `retired, `walk
      ensures Valid() && |frames| == chunk && captureFrames == old(captureFrames) - chunk
      ensures walk == old(walk) + [if read then Read(frames) else Skipped(chunk)]
      ensures Walked(walk) == Walked(old(walk)) + chunk <= |published|
      ensures frames == published[Walked(old(walk))..Walked(walk)]
    {
      hide Walks, Walked, Flatten, StreamAgrees, Frames, Wrap, WrapAdd;
      frames := scratch[captureOffset..captureOffset + chunk];
      ghost var held := scratch[captureOffset..captureOffset + captureFrames];
      ghost var stretch := if read then Read(frames) else Skipped(chunk);
      assert frames == held[..chunk];
      SplitHeld(published, Walked(walk), held, Flatten(unread), chunk);
      WalkOneMore(walk, stretch, published);
      WrapShift(Walked(walk), chunk);
      assert held[chunk..] == scratch[captureOffset + chunk..captureOffset + captureFrames];
      captureOffset := captureOffset + chunk;
      captureFrames := captureFrames - chunk;
      retired := WrapAdd(retired, chunk);
      walk := walk + [stretch];
    }

    /** The reported pointer is all that has been published, however much of it has
        been read. */
    function Position(): (position: u64)
      requires Valid()
      reads this, scratch
      ensures position == Wrap(|published|)
    {
      FlattenLength(unread, period);
      FramesGrow(|unread|, slots, period);
      WrapShift(Walked(walk), captureFrames);
      WrapShift(Walked(walk) + captureFrames, Frames(|unread|, period));
      ProductionPosition(retired, captureFrames, Frames(|unread|, period))
    }

    lemma WalkIsWithin()
      requires Valid()
      ensures Walked(walk) <= |published| && period > 0
    {
    }

    /** No capture is delivered after this until the stream is prepared again. */
    method Poison(error: Errno)
      requires Valid()
      modifies `captureError
      ensures Valid() && captureError == Some(error)
    {
      captureError := Some(error);
    }

    /** How the next part of a read ends that begins at event `at`: it checks, and without a
        block in hand waits, unless it must not, and acquires one. */
    function Reads(at: nat, blocks: seq<seq<Frame>>, held: nat): Result<()> {
      if events(at).valid.Err? then events(at).valid
      else if held > 0 then Ok(())
      else if nonblock then Acquires(at + 1, Joined(blocks, events(at).arrived))
      else if events(at + 1).wait.Err? then events(at + 1).wait
      else Acquires(at + 2, Joined(Joined(blocks, events(at).arrived), events(at + 1).arrived))
    }

    /** The next frames from the block held, after one has been acquired. */
    method NextChunk(limit: nat) returns (result: Result<()>, copied: seq<Frame>)
      requires Valid() && limit > 0
      modifies this, scratch
      ensures Valid() && old(published) <= published && running == old(running)
      ensures Walked(walk) == Walked(old(walk)) + |copied| <= |published|
      ensures copied == published[Walked(old(walk))..Walked(walk)]
      ensures if result.Ok? then 0 < |copied| <= limit else copied == []
      ensures walk == old(walk) + if result.Ok? then [Read(copied)] else []
      ensures result == if old(captureError).Some? then Err(old(captureError).value)
                        else Reads(old(tick), old(unread), old(captureFrames))
      ensures result.Ok? ==> captureError == None
      ensures result.Err? ==> captureFrames == 0 || captureError.Some?
      ensures old(Healthy()) ==> Healthy() && (result.Err? ==> Unwalked() == 0 && result.error == EAgain)
    {
      hide Walks, Walked, Flatten, Valid, Frames, Acquires, Joined;
      copied := [];
      WalkIsWithin();
      result := Validate();
      if result.Ok? && captureFrames == 0 && !nonblock {
        var event := NextEvent();
        result := event.wait;
      }
      if result.Ok? {
        result, copied := TakeChunk(limit, true);
      }
    }

    /** The next frames from the block held; a new one is acquired when it is used up. */
    method TakeChunk(limit: nat, read: bool) returns (result: Result<()>, frames: seq<Frame>)
      requires Valid() && limit > 0
      modifies this, scratch
      ensures Valid() && old(published) <= published && running == old(running)
      ensures Walked(walk) == Walked(old(walk)) + |frames| <= |published|
      ensures frames == published[Walked(old(walk))..Walked(walk)]
      ensures if result.Ok? then 0 < |frames| <= limit else frames == []
      ensures walk == old(walk) + if result.Err? then [] else if read then [Read(frames)] else [Skipped(|frames|)]
      ensures result == if old(captureFrames) > 0 then Ok(())
                        else if old(captureError).Some? then Err(old(captureError).value)
                        else Acquires(old(tick), old(unread))
      ensures result.Ok? ==> captureError == if old(captureFrames) > 0 then old(captureError) else None
      ensures result.Err? ==> captureFrames == 0 || captureError.Some?
      ensures old(Healthy()) ==> Healthy() && (result.Err? ==> Unwalked() == 0 && result.error == EAgain)
    {
      hide Walks, Walked, Flatten, Valid, Frames, Acquires;
      result, frames := Ok(()), [];
      if captureFrames == 0 {
        result := Acquire();
      }
      WalkIsWithin();
      if result.Ok? {
        frames := Retire(Min(captureFrames, limit), read);
      } else {
        UnwalkedIsBuffered();
        NoFrames(period);
      }
    }

    /** Why a read may not begin: an error, now or before, or a stream that does not run. */
    function Stops(): Option<Errno>
      reads `captureError, `tick, `running
    {
      if captureError.Some? then captureError
      else if events(tick).valid.Err? then Some(events(tick).valid.error)
      else if !running then Some(EPipe)
      else None
    }

    /** How the first part of a read that may begin ends. */
    function FirstRead(): Result<()>
      reads `tick, `unread, `captureFrames
    {
      Reads(tick + 1, Joined(unread, events(tick).arrived), captureFrames)
    }

    /** Copies part by part, until all is there or an error ends it; checks before and after. */
    method CopyOut(frames: nat) returns (result: Result<()>, data: seq<Frame>)
      requires Valid() && 0 < frames
      modifies this, scratch
      ensures Valid() && old(published) <= published && |data| <= frames && running == old(running)
      ensures Walked(walk) == Walked(old(walk)) + |data| <= |published|
      ensures data == published[Walked(old(walk))..Walked(walk)]
      ensures old(walk) <= walk && forall k :: |old(walk)| <= k < |walk| ==> walk[k].Read?
      ensures if result.Ok? then |data| == frames && checked == |walk|
              else if |data| == frames then captureError == Some(result.error)
              else captureFrames == 0 || captureError.Some? || result.error != EAgain
      ensures old(captureError).Some? ==> captureError == old(captureError)
      ensures old(Stops().Some?) ==>
                && result == Err(old(Stops()).value) && data == []
                && (captureError == old(Stops()) || result.error != EAgain)
      ensures old(Stops().None?) ==>
                if old(FirstRead()).Err? then data == [] && result == old(FirstRead()) else data != []
      ensures old(Healthy() && running) ==>
                Healthy() && (result.Err? ==> result.error == EAgain && |data| >= old(Unwalked()))
    {
      hide Walks, Walked, Flatten, Valid, Reads, Joined;
      data := [];
      WalkIsWithin();
      ghost var stops, first := Stops(), FirstRead();
      result := Validate();
      if result.Ok? && !running {
        result := Err(EPipe);
      }
      while result.Ok? && |data| < frames
        invariant Valid() && old(published) <= published && |data| <= frames && running == old(running)
        invariant Walked(walk) == Walked(old(walk)) + |data| <= |published|
        invariant data == published[Walked(old(walk))..Walked(walk)]
        invariant old(walk) <= walk && forall k :: |old(walk)| <= k < |walk| ==> walk[k].Read?
        invariant result.Ok? ==> running && captureError == None && old(captureError).None?
        invariant result.Err? ==>
                    |data| < frames && (captureFrames == 0 || captureError.Some? || result.error != EAgain)
        invariant old(captureError).Some? ==> captureError == old(captureError)
        invariant stops.Some? ==>
                    result == Err(stops.value) && data == [] && (captureError == stops || stops.value != EAgain)
        invariant stops.None? ==>
                    if data != [] then first.Ok?
                    else if result.Ok? then Reads(tick, unread, captureFrames) == first else result == first
        invariant old(Healthy() && running) ==>
                    Healthy() && (result.Err? ==> result.error == EAgain && |data| >= old(Unwalked()))
        decreases result.Ok?, frames - |data|
      {
        ghost var from, to := Walked(old(walk)), Walked(walk);
        var copied;
        result, copied := NextChunk(frames - |data|);
        JoinSlices(published, from, to, Walked(walk));
        data := data + copied;
      }
      if result.Ok? {
        result := Validate();
      }
    }

    /** A read: the frames it returns are the published ones that follow those
        already walked. An error after some frames shows up at the next call. */
    method Transfer(frames: nat) returns (outcome: Outcome, data: seq<Frame>)
      requires Valid()
      modifies this, scratch
      ensures Valid() && old(published) <= published && |data| <= frames
      ensures Walked(walk) == Walked(old(walk)) + |data| <= |published|
      ensures data == published[Walked(old(walk))..Walked(walk)]
      ensures outcome.Copied? ==> outcome.frames == |data| > 0
      ensures outcome.Refused? ==> data == []
      ensures |data| < frames ==> captureFrames == 0 || captureError.Some?
      ensures old(captureError).Some? ==> outcome.Refused? && captureError == old(captureError)
      // What is taken is recorded as read, and the stream was found in order after it, or an error sticks.
      ensures old(walk) <= walk && forall k :: |old(walk)| <= k < |walk| ==> walk[k].Read?
      ensures outcome.Copied? && |data| == frames ==> checked == |walk| || captureError.Some?
      ensures outcome.Refused? && outcome.error != EAgain && 0 < frames ==> captureError == Some(outcome.error)
      // How it ends when it returns nothing.
      ensures frames == 0 ==> outcome == Refused(EInvalid)
      ensures 0 < frames && old(Stops().Some?) ==>
                outcome == Refused(old(Stops()).value) && captureError == old(Stops())
      ensures 0 < frames && old(Stops().None?) ==>
                if old(FirstRead()).Ok? then outcome.Copied? else outcome == Refused(old(FirstRead()).error)
      // A healthy running stream returns all that was there, up to what was asked for.
      ensures old(Healthy() && running) && 0 < frames ==>
                Healthy() && |data| >= Min(frames, old(Unwalked())) && (old(Unwalked()) > 0 ==> outcome.Copied?)
    {
      hide Walks, Walked, Flatten, Valid, Reads, Joined, FirstRead;
      WalkIsWithin();
      if frames == 0 {
        return Refused(EInvalid), [];
      }
      var result;
      result, data := CopyOut(frames);
      if result.Err? {
        if result.error != EAgain {
          Poison(result.error);
        }
        if data == [] {
          return Refused(result.error), data;
        }
      }
      return Copied(|data|), data;
    }

    /** The cursors make sense, and what lies between them can be skipped. */
    ghost predicate CanSkip(expected: nat, current: nat, boundary: nat, buffer: nat)
      reads `published, `walk
    {
      && 0 < buffer < boundary / 2 && expected < boundary && current < boundary
      && WrapDistance(expected, current, boundary) <= Min(buffer, bufferFrames)
      && WrapDistance(expected, current, boundary) <= Unwalked()
    }

    /** The cursors make sense, and what lies between them is there once the next event's
        blocks have arrived. */
    predicate SkipFits(expected: nat, current: nat, boundary: nat, buffer: nat)
      reads `tick, `unread, `captureFrames
    {
      && 0 < buffer < boundary / 2 && expected < boundary && current < boundary
      && WrapDistance(expected, current, boundary) <= Min(buffer, bufferFrames)
      && WrapDistance(expected, current, boundary) <=
         captureFrames + Frames(|Joined(unread, events(tick).arrived)|, period)
    }

    /** Skips the frames the application cursor has moved over. */
    method CaptureSync(expected: nat, current: nat, boundary: nat, buffer: nat) returns (result: Result<()>)
      requires Valid()
      modifies this, scratch
      ensures Valid() && old(published) <= published && running == old(running)
      ensures result.Ok? ==>
                && expected < boundary && current < boundary && WrapDistance(expected, current, boundary) <= buffer
                && Walked(walk) == Walked(old(walk)) + WrapDistance(expected, current, boundary)
      ensures result.Ok? ==> 0 < buffer < boundary / 2 && WrapDistance(expected, current, boundary) <= bufferFrames
      ensures result.Err? ==> captureError == Some(result.error) && result.error != EAgain
      ensures old(captureError).Some? || events(old(tick)).valid.Err? ==> result.Err?
      ensures old(Healthy() && CanSkip(expected, current, boundary, buffer)) ==> result.Ok? && Healthy()
      ensures old(captureError).None? && events(old(tick)).valid.Ok? &&
              !old(SkipFits(expected, current, boundary, buffer)) ==>
                result == Err(EPipe)
      ensures old(captureError).Some? && old(captureError).value != EAgain ==> result == Err(old(captureError).value)
      ensures old(walk) <= walk && forall k :: |old(walk)| <= k < |walk| ==> walk[k].Skipped?
      ensures result.Ok? ==> checked == |walk|
    {
      hide Walks, Walked, Flatten, SkipFits, Joined;
      result := Skip(expected, current, boundary, buffer);
      if result.Err? {
        var error := if result.error == EAgain then EPipe else result.error;
        Poison(error);
        return Err(error);
      }
    }

    method Skip(expected: nat, current: nat, boundary: nat, buffer: nat) returns (result: Result<()>)
      requires Valid()
      modifies this, scratch
      ensures Valid() && old(published) <= published && running == old(running)
      ensures result.Ok? ==>
                && expected < boundary && current < boundary && WrapDistance(expected, current, boundary) <= buffer
                && Walked(walk) == Walked(old(walk)) + WrapDistance(expected, current, boundary)
      ensures result.Ok? ==> 0 < buffer < boundary / 2 && WrapDistance(expected, current, boundary) <= bufferFrames
      ensures old(captureError).Some? || events(old(tick)).valid.Err? ==> result.Err?
      ensures old(Healthy() && CanSkip(expected, current, boundary, buffer)) ==> result.Ok? && Healthy()
      ensures old(captureError).None? && events(old(tick)).valid.Ok? &&
              !old(SkipFits(expected, current, boundary, buffer)) ==>
                result == Err(EPipe)
      ensures old(captureError).Some? ==> result == Err(old(captureError).value)
      // A skip from an empty hand ends with the error of its first acquisition, if it has one.
      ensures old(captureError).None? && events(old(tick)).valid.Ok? && old(captureFrames) == 0 &&
              expected != current && old(SkipFits(expected, current, boundary, buffer)) ==>
                var first := Acquires(old(tick) + 1, Joined(old(unread), events(old(tick)).arrived));
                first.Err? ==> result == first
      ensures old(walk) <= walk && forall k :: |old(walk)| <= k < |walk| ==> walk[k].Skipped?
      ensures result.Ok? ==> checked == |walk|
    {
      hide Walks, Walked, Flatten, Valid, Frames, WrapDistance, Joined, Acquires;
      result := Validate();
      if result.Err? {
        return;
      }
      UnwalkedIsBuffered();
      if boundary == 0 || buffer == 0 || buffer >= boundary / 2 || expected >= boundary || current >= boundary {
        return Err(EPipe);
      }
      var skip := WrapDistance(expected, current, boundary);
      ghost var first := Acquires(tick, unread);
      DistanceIsPositive(expected, current, boundary);
      if skip > buffer || skip > bufferFrames || skip > captureFrames + Frames(|unread|, period) {
        return Err(EPipe);
      }
      var remaining: nat := skip;
      while remaining > 0
        invariant Valid() && old(published) <= published && running == old(running)
        invariant Walked(walk) == Walked(old(walk)) + skip - remaining
        invariant old(Healthy() && CanSkip(expected, current, boundary, buffer)) ==>
                    Healthy() && remaining <= Unwalked()
        invariant old(walk) <= walk && forall k :: |old(walk)| <= k < |walk| ==> walk[k].Skipped?
        invariant old(captureFrames) == 0 && first.Err? ==>
                    remaining == skip && captureFrames == 0 && captureError == None && Acquires(tick, unread) == first
      {
        var skipped;
        result, skipped := TakeChunk(remaining, false);
        if result.Err? {
          return;
        }
        remaining := remaining - |skipped|;
      }
      result := Validate();
    }

    method Prepare(prepared: Result<()>) returns (result: Result<()>)
      requires Valid()
      modifies this
      ensures Valid() && result == prepared
      ensures result.Ok? ==> published == [] && walk == [] && captureError == None && !running
      ensures result.Ok? ==> unread == [] && captureFrames == captureOffset == 0
      ensures result.Err? ==> published == old(published) && walk == old(walk) && captureError == old(captureError)
    {
      if prepared.Err? {
        return prepared;
      }
      unread, captureFrames, captureOffset, retired := [], 0, 0, 0;
      captureError, running, published, walk, checked := None, false, [], [], 0;
      return prepared;
    }

    method Start(started: Result<()>) returns (result: Result<()>)
      requires Valid()
      modifies `running
      ensures Valid() && result == started && running == (old(running) || result.Ok?)
    {
      running := running || started.Ok?;
      return started;
    }
  }

  /** The C side: libasound forwards a capture cursor by moving it. */
  class CapturePcm {
    const stream: CaptureStream
    const boundary: nat
    const bufferSize: nat
    var expected: nat
    /** Where ALSA's count stood when the stream was prepared. */
    ghost var base: int

    ghost predicate Valid()
      reads this, stream, stream.scratch
    {
      && stream.Valid() && 0 < boundary && expected < boundary
      && (stream.captureError.None? ==> expected == Cursor(base + Walked(stream.walk), boundary))
    }

    constructor (stream: CaptureStream, boundary: nat, bufferSize: nat)
      requires stream.Valid() && stream.walk == [] && boundary > 0
      ensures Valid() && fresh(this) && this.stream == stream && this.boundary == boundary &&
              this.bufferSize == bufferSize
    {
      this.stream, this.boundary, this.bufferSize, expected, base := stream, boundary, bufferSize, 0, 0;
      new;
      CursorIsUnique(0, 0, 0, boundary);
    }

    /** Only a running PCM is synchronised. */
    method Sync(appl: nat, pcmRunning: bool) returns (result: Result<()>)
      requires Valid() && appl < boundary
      modifies `expected, stream, stream.scratch
      ensures Valid() && base == old(base) && old(stream.published) <= stream.published
      ensures result.Ok? && pcmRunning ==>
                && expected == appl
                && Walked(stream.walk) == Walked(old(stream.walk)) + WrapDistance(old(expected), appl, boundary)
      ensures result.Err? ==> stream.captureError.Some?
      ensures old(stream.Healthy() && stream.CanSkip(expected, appl, boundary, bufferSize)) ==>
                result.Ok? && stream.Healthy()
      ensures stream.running == old(stream.running)
      ensures pcmRunning && old(stream.captureError).Some? && old(stream.captureError).value != EAgain ==>
                result == Err(old(stream.captureError).value)
      ensures pcmRunning && old(stream.captureError).None? && stream.events(old(stream.tick)).valid.Ok? &&
              !old(stream.SkipFits(expected, appl, boundary, bufferSize)) ==>
                result == Err(EPipe)
      ensures !pcmRunning ==> result.Ok? && expected == old(expected) && stream.walk == old(stream.walk)
    {
      hide Walks, Walked, Flatten, Cursor, WrapDistance, CaptureStream.Valid, CaptureStream.SkipFits;
      if !pcmRunning {
        return Ok(());
      }
      if stream.captureError.None? {
        MoveReaches(base + Walked(stream.walk), appl, boundary);
      }
      result := stream.CaptureSync(expected, appl, boundary, bufferSize);
      if result.Ok? {
        expected := appl;
      }
    }

    lemma Advance(walked: nat, appl: nat, frames: nat)
      requires boundary > 0 && Cursor(base + walked, boundary) == appl
      ensures (appl + frames) % boundary == Cursor(base + (walked + frames), boundary) < boundary
    {
      CursorAdds(base + walked, frames, boundary);
      CursorRange(base + walked + frames, boundary);
    }

    /** A read of a running PCM continues the published stream from where the
        application cursor stands, and leaves the expected cursor behind it. */
    method Transfer(appl: nat, frames: nat, pcmRunning: bool) returns (outcome: Outcome, data: seq<Frame>)
      requires Valid() && appl < boundary
      modifies `expected, `base, stream, stream.scratch
      ensures Valid() && old(stream.published) <= stream.published
      ensures pcmRunning || appl == old(expected) ==> base == old(base)
      ensures outcome.Copied? && (pcmRunning || appl == old(expected)) ==>
                var from := Walked(old(stream.walk)) + WrapDistance(old(expected), appl, boundary);
                && outcome.frames == |data| > 0 && expected == (appl + |data|) % boundary
                && Walked(stream.walk) == from + |data| <= |stream.published|
                && data == stream.published[from..from + |data|]
      ensures old(stream.Healthy() && stream.running && stream.CanSkip(expected, appl, boundary, bufferSize)) ==>
                var moved := if pcmRunning then WrapDistance(old(expected), appl, boundary) else 0;
                var left := old(stream.Unwalked()) - moved;
                && |data| >= Min(frames, left) && (0 < Min(frames, left) ==> outcome.Copied?)
      ensures pcmRunning && old(stream.captureError).Some? && old(stream.captureError).value != EAgain ==>
                outcome == Refused(old(stream.captureError).value)
      ensures pcmRunning && old(stream.captureError).None? && stream.events(old(stream.tick)).valid.Ok? &&
              !old(stream.SkipFits(expected, appl, boundary, bufferSize)) ==>
                outcome == Refused(EPipe)
    {
      hide Walks, Walked, Flatten, Cursor, CaptureStream.Valid, CaptureStream.SkipFits;
      var synced := Sync(appl, pcmRunning);
      if synced.Err? {
        return Refused(synced.error), [];
      }
      ghost var walked := Walked(stream.walk);
      outcome, data := stream.Transfer(frames);
      assert Walked(stream.walk) == walked + |data|;
      if outcome.Copied? {
        if appl != expected {
          base := appl - walked;
          CursorIsUnique(appl, 0, appl, boundary);
        }
        Advance(walked, appl, outcome.frames);
        expected := (appl + outcome.frames) % boundary;
      }
    }

    method Prepare(appl: nat, prepared: Result<()>) returns (result: Result<()>)
      requires Valid() && appl < boundary
      modifies this, stream, stream.scratch
      ensures Valid() && result == prepared
      ensures result.Ok? ==> base == appl && stream.walk == [] && stream.published == []
    {
      hide Walks, Flatten, CaptureStream.Valid;
      result := stream.Prepare(prepared);
      if result.Ok? {
        expected, base := appl, appl;
        CursorIsUnique(appl, 0, appl, boundary);
      }
    }
  }
}
