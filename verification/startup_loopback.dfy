/** Startup normalization: a probe measures the digital loopback delay, silence is
    inserted to reach the target, and a second probe must measure the target.
    Only the loopback channel is modelled. */
module StartupLoopback {

  import opened Sequences

  datatype Fault = Early | Repeated | Unstable | NotTarget | ExceedsTarget | NoReserve | SpendsReserve | Missing

  datatype Result<+T> = Ok(value: T) | Err(fault: Fault)

  const FIRST_MARKERS := [8192, -8192, 16384]
  const SECOND_MARKERS := [-16384, 24576, -24576]

  /** The first delay each marker was seen with. */
  type Delays = d: seq<Option<nat>> | |d| == 3 witness [None, None, None]

  type Markers = m: seq<int> | |m| == 3 && m[0] != m[1] && m[0] != m[2] && m[1] != m[2] && 0 !in m witness [1, 2, 3]

  /** The logical output frame that carries marker `index`. */
  function MarkerFrame(interval: nat, index: nat): nat
    requires index < 3
  {
    if index == 0 then interval else if index == 1 then 2 * interval else 3 * interval
  }

  /** Output frame `n` of a probe. */
  function ProbeFrame(markers: Markers, interval: nat, n: nat): int {
    if n == 3 * interval then markers[2] else if n == 2 * interval then markers[1]
    else if n == interval then markers[0] else 0
  }

  function MarkerIndex(markers: Markers, sample: int): (index: Option<nat>)
    ensures index.Some? ==> index.value < 3 && markers[index.value] == sample
    ensures index.None? ==> sample !in markers
  {
    if sample == markers[0] then Some(0) else if sample == markers[1] then Some(1)
    else if sample == markers[2] then Some(2) else None
  }

  /** What one captured sample adds to the delays; markers not yet committed to
      playback are not ours. */
  function ObserveOne(markers: Markers, interval: nat, delays: Delays, position: nat, outputEnd: nat, sample: int)
    : Result<Delays>
  {
    var index := MarkerIndex(markers, sample);
    if index.None? then Ok(delays)
    else
      var frame := MarkerFrame(interval, index.value);
      if frame >= outputEnd then Ok(delays)
      else if position < frame then Err(Early)
      else if delays[index.value].Some? then Err(Repeated)
      else Ok(delays[index.value := Some(position - frame)])
  }

  /** A block of samples, whatever the pieces it was read in. */
  function ObserveAll(markers: Markers, interval: nat, delays: Delays, position: nat, outputEnd: nat, samples: seq<int>)
    : Result<Delays>
  {
    if samples == [] then Ok(delays)
    else
      var last := |samples| - 1;
      var before := ObserveAll(markers, interval, delays, position, outputEnd, samples[..last]);
      if before.Err? then before
      else ObserveOne(markers, interval, before.value, position + last, outputEnd, samples[last])
  }

  lemma ObserveNothing(markers: Markers, interval: nat, delays: Delays, position: nat, outputEnd: nat)
    ensures ObserveAll(markers, interval, delays, position, outputEnd, []) == Ok(delays)
  {
  }

  lemma {:induction false} ObserveSplit(markers: Markers, interval: nat, delays: Delays, position: nat, outputEnd: nat,
                                        a: seq<int>, b: seq<int>)
    ensures ObserveAll(markers, interval, delays, position, outputEnd, a + b) ==
            var first := ObserveAll(markers, interval, delays, position, outputEnd, a);
            if first.Err? then first else ObserveAll(markers, interval, first.value, position + |a|, outputEnd, b)
  {
    if b == [] {
      assert a + b == a;
    } else {
      var last := |b| - 1;
      ObserveSplit(markers, interval, delays, position, outputEnd, a, b[..last]);
      assert (a + b)[..|a + b| - 1] == a + b[..last];
    }
  }

  /** What the delays must look like once every capture frame before `position` of a
      lossless loopback has been seen. */
  function DelaysAt(interval: nat, delay: nat, position: nat): Delays {
    [if interval + delay < position then Some(delay) else None,
     if 2 * interval + delay < position then Some(delay) else None,
     if 3 * interval + delay < position then Some(delay) else None]
  }

  /** What a loopback of this delay carries at capture frame `position`: the probe,
      behind frames that are none of its markers. */
  predicate Carries(markers: Markers, interval: nat, delay: nat, position: nat, sample: int) {
    if position < delay then sample !in markers else sample == ProbeFrame(markers, interval, position - delay)
  }

  /** A block no longer than the delay is observed just as it should. */
  lemma {:induction false} LosslessBlock(markers: Markers, interval: nat, delay: nat, position: nat, samples: seq<int>)
    requires 0 < interval && |samples| <= delay
    requires forall i :: 0 <= i < |samples| ==> Carries(markers, interval, delay, position + i, samples[i])
    ensures ObserveAll(markers, interval, DelaysAt(interval, delay, position), position, position, samples) ==
            Ok(DelaysAt(interval, delay, position + |samples|))
  {
    if samples != [] {
      var last := |samples| - 1;
      LosslessBlock(markers, interval, delay, position, samples[..last]);
      LosslessSample(markers, interval, delay, position + last, position, samples[last]);
    }
  }

  lemma LosslessSample(markers: Markers, interval: nat, delay: nat, position: nat, outputEnd: nat, sample: int)
    requires 0 < interval && position < outputEnd + delay && Carries(markers, interval, delay, position, sample)
    ensures ObserveOne(markers, interval, DelaysAt(interval, delay, position), position, outputEnd, sample) ==
            Ok(DelaysAt(interval, delay, position + 1))
  {
    var index := MarkerIndex(markers, sample);
    if index.None? {
      assert forall k :: 0 <= k < 3 ==> markers[k] in markers;
      assert DelaysAt(interval, delay, position + 1) == DelaysAt(interval, delay, position);
    } else {
      assert position == MarkerFrame(interval, index.value) + delay;
      assert DelaysAt(interval, delay, position)[index.value := Some(delay)] == DelaysAt(interval, delay, position + 1);
    }
  }

  function MeasuredDelay(delays: Delays, expected: Option<nat>): Result<Option<nat>> {
    if expected.Some? && exists i :: 0 <= i < 3 && delays[i].Some? && delays[i].value != expected.value
    then Err(NotTarget)
    else if delays[0].None? then Ok(None)
    else if exists i :: 0 <= i < 3 && delays[i].Some? && delays[i].value != delays[0].value then Err(Unstable)
    else Ok(if delays[1].Some? && delays[2].Some? then delays[0] else None)
  }

  predicate Differs(seen: Option<nat>, delay: nat) {
    seen.Some? && seen.value != delay
  }

  /** A delay is measured just when all three markers came back with it and it is the one
      expected; a marker at another delay is a fault, and otherwise the probe goes on. */
  lemma MeasuredMeaning(delays: Delays, expected: Option<nat>)
    ensures forall d: nat :: MeasuredDelay(delays, expected) == Ok(Some(d)) <==>
              delays == [Some(d), Some(d), Some(d)] && (expected.Some? ==> expected.value == d)
    ensures MeasuredDelay(delays, expected) == Err(NotTarget) <==>
              expected.Some? && (Differs(delays[0], expected.value) || Differs(delays[1], expected.value) ||
                                 Differs(delays[2], expected.value))
    ensures MeasuredDelay(delays, expected) == Err(Unstable) <==>
              MeasuredDelay(delays, expected) != Err(NotTarget) && delays[0].Some? &&
              (Differs(delays[1], delays[0].value) || Differs(delays[2], delays[0].value))
    ensures MeasuredDelay(delays, expected) == Ok(None) ==> None in delays
    ensures MeasuredDelay(delays, expected).Err? ==> MeasuredDelay(delays, expected).fault in {NotTarget, Unstable}
  {
    forall d: nat
      ensures MeasuredDelay(delays, expected) == Ok(Some(d)) <==>
                delays == [Some(d), Some(d), Some(d)] && (expected.Some? ==> expected.value == d)
    {
      if MeasuredDelay(delays, expected) == Ok(Some(d)) {
        assert delays[0] == Some(d);
        assert delays[1] == Some(d) && delays[2] == Some(d);
      }
    }
    if MeasuredDelay(delays, expected) == Ok(None) {
      assert delays[0] == None || delays[1] == None || delays[2] == None;
    }
  }

  lemma MeasuredOfLossless(interval: nat, delay: nat, position: nat, expected: Option<nat>)
    requires expected.Some? ==> expected.value == delay
    ensures MeasuredDelay(DelaysAt(interval, delay, position), expected) ==
            Ok(if 3 * interval + delay < position then Some(delay) else None)
  {
  }

  /** How much silence brings the measured delay to the target, unless that takes
      the reserve for one client block. */
  function Padding(measured: nat, target: nat, startFrames: nat, buffer: nat, period: nat): Result<nat> {
    if measured > target then Err(ExceedsTarget)
    else if startFrames + period > buffer then Err(NoReserve)
    else if target - measured > buffer - startFrames - period then Err(SpendsReserve)
    else Ok(target - measured)
  }

  /** Observing a block goes on piece by piece, and fails with its first failing piece. */
  lemma ObservePiece(markers: Markers, interval: nat, delays: Delays, position: nat, outputEnd: nat, block: seq<int>,
                     offset: nat, piece: nat)
    requires offset + piece <= |block| &&
             ObserveAll(markers, interval, delays, position, outputEnd, block[..offset]).Ok?
    ensures var before := ObserveAll(markers, interval, delays, position, outputEnd, block[..offset]).value;
            var after := ObserveAll(markers, interval, before, position + offset, outputEnd,
                                    block[offset..offset + piece]);
            && ObserveAll(markers, interval, delays, position, outputEnd, block[..offset + piece]) == after
            && (after.Err? ==> ObserveAll(markers, interval, delays, position, outputEnd, block) == after)
  {
    ObserveSplit(markers, interval, delays, position, outputEnd, block[..offset], block[offset..offset + piece]);
    assert block[..offset] + block[offset..offset + piece] == block[..offset + piece];
    if ObserveAll(markers, interval, delays, position, outputEnd, block[..offset + piece]).Err? {
      FailsAt(markers, interval, delays, position, outputEnd, block, offset + piece);
    }
  }

  class Probe {
    const markers: Markers
    const interval: nat
    var delays: Delays

    constructor (markers: Markers, interval: nat)
      ensures this.markers == markers && this.interval == interval && delays == [None, None, None]
    {
      this.markers, this.interval, delays := markers, interval, [None, None, None];
    }

    /** Writes one piece of the probe's output. */
    method Emit(position: nat, mapped: array<int>)
      requires interval > 0
      modifies mapped
      ensures forall i :: 0 <= i < mapped.Length ==> mapped[i] == ProbeFrame(markers, interval, position + i)
    {
      forall i | 0 <= i < mapped.Length {
        mapped[i] := 0;
      }
      for index := 0 to 3
        invariant forall i :: 0 <= i < mapped.Length ==>
                    mapped[i] == if index > 0 && position + i == interval then markers[0]
                                 else if index > 1 && position + i == 2 * interval then markers[1]
                                 else if index > 2 && position + i == 3 * interval then markers[2] else 0
      {
        var frame := MarkerFrame(interval, index);
        if position <= frame < position + mapped.Length {
          mapped[frame - position] := markers[index];
        }
      }
    }

    /** Looks for the markers in one piece of capture. */
    method Observe(position: nat, outputEnd: nat, mapped: seq<int>) returns (result: Result<()>)
      modifies this
      ensures var expected := ObserveAll(markers, interval, old(delays), position, outputEnd, mapped);
              if expected.Ok? then result.Ok? && delays == expected.value else result == Err(expected.fault)
    {
      for i := 0 to |mapped|
        invariant ObserveAll(markers, interval, old(delays), position, outputEnd, mapped[..i]) == Ok(delays)
      {
        assert mapped[..i + 1][..i] == mapped[..i];
        var index := MarkerIndex(markers, mapped[i]);
        if index.Some? {
          var frame := MarkerFrame(interval, index.value);
          if frame < outputEnd {
            if position + i < frame {
              FailsAt(markers, interval, old(delays), position, outputEnd, mapped, i + 1);
              return Err(Early);
            }
            if delays[index.value].Some? {
              FailsAt(markers, interval, old(delays), position, outputEnd, mapped, i + 1);
              return Err(Repeated);
            }
            delays := delays[index.value := Some(position + i - frame)];
          }
        }
      }
      assert mapped[..|mapped|] == mapped;
      return Ok(());
    }
  }

  /** A fault early in a block is the fault of the whole block. */
  lemma FailsAt(markers: Markers, interval: nat, delays: Delays, position: nat, outputEnd: nat, samples: seq<int>,
                length: nat)
    requires length <= |samples| && ObserveAll(markers, interval, delays, position, outputEnd, samples[..length]).Err?
    ensures ObserveAll(markers, interval, delays, position, outputEnd, samples) ==
            ObserveAll(markers, interval, delays, position, outputEnd, samples[..length])
  {
    ObserveSplit(markers, interval, delays, position, outputEnd, samples[..length], samples[length..]);
    assert samples[..length] + samples[length..] == samples;
  }

  /** `count` capture frames from `read` on: each is the output frame `delay` before it. */
  function Captured(tape: seq<int>, delay: nat, read: nat, count: nat): (r: seq<int>)
    requires read + count <= |tape| + delay
    ensures |r| == count
  {
    seq(count, i requires 0 <= i < count => if read + i < delay then 0 else tape[read + i - delay])
  }

  lemma CapturedPiece(tape: seq<int>, delay: nat, read: nat, count: nat, offset: nat, piece: nat)
    requires offset + piece <= count && read + count <= |tape| + delay
    ensures Captured(tape, delay, read + offset, piece) == Captured(tape, delay, read, count)[offset..offset + piece]
  {
  }

  /** From frame `origin` on the tape holds the probe's output. */
  predicate Plays(tape: seq<int>, origin: nat, markers: Markers, interval: nat) {
    forall x :: origin <= x < |tape| ==> tape[x] == ProbeFrame(markers, interval, x - origin)
  }

  predicate Quiet(tape: seq<int>, length: nat, markers: Markers) {
    forall x :: 0 <= x < length && x < |tape| ==> tape[x] !in markers
  }

  /** The loopback carries the probe behind its logical delay. */
  lemma CapturedCarries(tape: seq<int>, delay: nat, start: nat, origin: nat, markers: Markers, interval: nat,
                        position: nat, count: nat)
    requires Plays(tape, origin, markers, interval) && Quiet(tape, origin, markers)
    requires start <= origin + delay && start + position + count <= |tape| + delay
    ensures var block := Captured(tape, delay, start + position, count);
            forall i :: 0 <= i < count ==>
              Carries(markers, interval, origin + delay - start, position + i, block[i])
  {
    var block := Captured(tape, delay, start + position, count);
    forall i | 0 <= i < count
      ensures Carries(markers, interval, origin + delay - start, position + i, block[i])
    {
      var frame := start + position + i;
      if frame >= delay {
        assert block[i] == tape[frame - delay];
      }
    }
  }

  lemma FirstIsNotSecond(tape: seq<int>, interval: nat, origin: nat)
    requires Plays(tape, 0, FIRST_MARKERS, interval)
    ensures Quiet(tape, origin, SECOND_MARKERS)
  {
  }

  /** Playback wired to capture without loss: capture frame `c` is output frame
      `c - delay`. Transfers are split as `splits` says. */
  class Loopback {
    const delay: nat
    const splits: nat -> nat
    var tick: nat
    /** Everything played since qualification began, and how much has been captured. */
    var tape: seq<int>
    var read: nat

    constructor (delay: nat, splits: nat -> nat)
      ensures this.delay == delay && this.splits == splits && tape == [] && read == tick == 0
    {
      this.delay, this.splits, tick, tape, read := delay, splits, 0, [], 0;
    }

    method Piece(remaining: nat) returns (piece: nat)
      requires remaining > 0
      modifies `tick
      ensures piece == Min(splits(old(tick)) + 1, remaining) && tick == old(tick) + 1
    {
      piece := splits(tick) + 1;
      tick := tick + 1;
      if piece > remaining {
        piece := remaining;
      }
    }

    /** Reads one period and shows it to the probe piece by piece. */
    method Read(probe: Probe, position: nat, period: nat) returns (result: Result<()>)
      requires read + period <= |tape| + delay
      modifies `tick, `read, probe
      ensures var block := old(Captured(tape, delay, read, period));
              var expected := ObserveAll(probe.markers, probe.interval, old(probe.delays), position, position, block);
              if expected.Ok? then result.Ok? && probe.delays == expected.value && read == old(read) + period
              else result == Err(expected.fault)
    {
      hide ObserveAll, ObserveOne, Captured, MarkerIndex, MarkerFrame;
      ghost var block := Captured(tape, delay, read, period);
      var offset := 0;
      ObserveNothing(probe.markers, probe.interval, probe.delays, position, position);
      assert block[..0] == [];
      while offset < period
        invariant offset <= period && read == old(read) + offset
        invariant ObserveAll(probe.markers, probe.interval, old(probe.delays), position, position, block[..offset]) ==
                  Ok(probe.delays)
      {
        var piece := Piece(period - offset);
        var mapped := Captured(tape, delay, read, piece);
        CapturedPiece(tape, delay, old(read), period, offset, piece);
        ObservePiece(probe.markers, probe.interval, old(probe.delays), position, position, block, offset, piece);
        var observed := probe.Observe(position + offset, position, mapped);
        if observed.Err? {
          return observed;
        }
        read := read + piece;
        offset := offset + piece;
      }
      assert block[..period] == block;
      return Ok(());
    }

    /** Plays one period of the probe. */
    method Play(probe: Probe, position: nat, period: nat, ghost origin: nat)
      requires probe.interval > 0 && |tape| == origin + position && Plays(tape, origin, probe.markers, probe.interval)
      modifies `tick, `tape
      ensures old(tape) <= tape && |tape| == |old(tape)| + period && Plays(tape, origin, probe.markers, probe.interval)
    {
      var offset := 0;
      while offset < period
        invariant offset <= period && old(tape) <= tape && |tape| == |old(tape)| + offset
        invariant Plays(tape, origin, probe.markers, probe.interval)
      {
        var piece := Piece(period - offset);
        var mapped := new int[piece];
        probe.Emit(position + offset, mapped);
        tape := tape + mapped[..];
        offset := offset + piece;
      }
    }

    /** Measures the loopback from both current positions: reads before it plays,
        period by period, until all three markers have come back. */
    method Measure(markers: Markers, interval: nat, period: nat, expected: Option<nat>) returns (result: Result<nat>)
      requires 0 < period && 0 < interval && read + period <= |tape| + delay && Quiet(tape, |tape|, markers)
      requires expected.Some? ==> expected.value == |tape| + delay - read
      modifies this
      ensures old(tape) <= tape && |tape| - read == |old(tape)| - old(read) &&
              Plays(tape, |old(tape)|, markers, interval)
      ensures result.Ok? ==> result.value == |old(tape)| + delay - old(read)
      ensures |old(tape)| + delay - old(read) < interval ==> result.Ok?
      ensures result.Ok? ==> read - old(read) < 4 * interval + period
      ensures result.Err? ==> result == Err(Missing) && read - old(read) >= 4 * interval
    {
      var probe := new Probe(markers, interval);
      var position: nat := 0;
      ghost var origin, start := |tape|, read;
      ghost var logical := origin + delay - start;
      while true
        invariant old(tape) <= tape && |tape| == origin + position && read == start + position
        invariant probe.markers == markers && probe.interval == interval && fresh(probe)
        invariant probe.delays == DelaysAt(interval, logical, position)
        invariant Plays(tape, origin, markers, interval) && Quiet(tape, origin, markers)
        invariant position < 4 * interval
        decreases 4 * interval - position
      {
        CapturedCarries(tape, delay, start, origin, markers, interval, position, period);
        LosslessBlock(markers, interval, logical, position, Captured(tape, delay, read, period));
        var observed := Read(probe, position, period);
        assert observed.Ok?;
        Play(probe, position, period, origin);
        position := position + period;
        MeasuredOfLossless(interval, logical, position, expected);
        var measured := MeasuredDelay(probe.delays, expected);
        if measured.value.Some? {
          return Ok(measured.value.value);
        }
        if position >= 4 * interval {
          return Err(Missing);
        }
      }
    }

    /** Qualifies a start: it succeeds just when the delay is at most the target and
        the missing frames fit beside one client block, and then inserts exactly
        these and has measured the target itself. */
    method Normalize(period: nat, rate: nat, target: nat, startFrames: nat, buffer: nat)
      returns (result: Result<nat>, ghost first: nat)
      requires tape == [] && read == 0 && 0 < period <= delay
      modifies this
      ensures result.Ok? <==> delay <= target && startFrames + (target - delay) + period <= buffer
      ensures result.Ok? ==> result.value == target - delay == |tape| - read
      // The first probe has been played, then the silence inserted, then the second probe.
      ensures result.Ok? ==>
                && first + result.value <= |tape|
                && Plays(tape[..first], 0, FIRST_MARKERS, Max(target + 2 * period, rate / 12 + 1))
                && (forall i :: first <= i < first + result.value ==> tape[i] == 0)
                && Plays(tape, first + result.value, SECOND_MARKERS, Max(target + 2 * period, rate / 12 + 1))
      ensures delay > target ==> result == Err(ExceedsTarget) || result == Err(Missing)
      ensures target < delay < target + 2 * period || target < delay <= rate / 12 ==> result == Err(ExceedsTarget)
      ensures result == Err(NoReserve) <==> delay <= target && startFrames + period > buffer
      ensures result == Err(SpendsReserve) <==>
                delay <= target && startFrames + period <= buffer < startFrames + period + (target - delay)
    {
      var interval := if target + 2 * period > rate / 12 + 1 then target + 2 * period else rate / 12 + 1;
      var measured := Measure(FIRST_MARKERS, interval, period, None);
      first := |tape|;
      if measured.Err? {
        return measured, first;
      }
      var padding := Padding(measured.value, target, startFrames, buffer, period);
      if padding.Err? {
        return padding, first;
      }
      FirstIsNotSecond(tape, interval, |tape|);
      ghost var before := tape;
      tape := tape + seq(padding.value, _ => 0);
      var second := Measure(SECOND_MARKERS, interval, period, Some(target));
      if second.Err? {
        return second, first;
      }
      assert tape[..first] == before;
      return padding, first;
    }
  }
}
