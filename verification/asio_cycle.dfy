/** Buffer parity and sample position of the ASIO callback, over runs with gaps. */
module AsioCycle {
  import opened Sequences
  import opened PeriodMath

  datatype Advance = Ready(index: nat, position: u64) | Duplicate | Backward

  function SaturatingFrames(count: nat, period: nat): u64 {
    if Frames(count, period) < RANGE then Frames(count, period) else RANGE - 1
  }

  /** The other of two buffers, or the same one, by the parity of the periods passed. */
  function Flip(index: nat, periods: nat): nat {
    if periods % 2 == 0 then index else if index == 0 then 1 else 0
  }

  function AdvanceCycle(previous: Option<u64>, sequence: u64, period: nat, index: nat, position: u64): Advance {
    if previous.None? then Ready(index, position)
    else
      var elapsed := WrapSub(sequence, previous.value);
      if elapsed == 0 then Duplicate
      else if elapsed >= HALF_RANGE then Backward
      else Ready(Flip(index, elapsed), SaturatingAdd(position, SaturatingFrames(elapsed, period)))
  }

  /** What the callback of a run sees at ideal count `count`, when the run began at
      count `first` with buffer `index` and position `base`. */
  function Expected(first: int, count: int, period: nat, index: nat, base: u64): Advance
    requires first <= count
  {
    Ready(Flip(index, count - first),
          if base + Frames(count - first, period) < RANGE then base + Frames(count - first, period) else RANGE - 1)
  }

  /** That is the buffer of the same parity as the periods since, and the frames of these
      periods after the base, as far as 64 bits go. */
  lemma ExpectedMeans(first: int, count: int, period: nat, index: nat, base: u64)
    requires first <= count && index < 2
    ensures Expected(first, count, period, index, base) ==
            Ready((index + (count - first)) % 2,
                  if base + (count - first) * period < RANGE then base + (count - first) * period else RANGE - 1)
  {
    FramesIsProduct(count - first, period);
  }

  lemma FlipTwice(index: nat, a: nat, b: nat)
    requires index < 2
    ensures Flip(Flip(index, a), b) == Flip(index, a + b)
  {
  }

  lemma SaturatesOnce(base: u64, a: nat, b: nat, period: nat)
    ensures var first := if base + Frames(a, period) < RANGE then base + Frames(a, period) else RANGE - 1;
            SaturatingAdd(first, SaturatingFrames(b, period)) ==
            if base + Frames(a + b, period) < RANGE then base + Frames(a + b, period) else RANGE - 1
  {
    FramesAdd(a, b, period);
  }

  /** However many periods were missed, each step lands where counting every period
      would have. */
  lemma AdvanceIsExact(first: int, previous: int, count: int, period: nat, index: nat, base: u64)
    requires first <= previous < count && count - previous < HALF_RANGE && index < 2
    ensures var before := Expected(first, previous, period, index, base);
            AdvanceCycle(Some(Wrap(previous)), Wrap(count), period, before.index, before.position) ==
            Expected(first, count, period, index, base)
  {
    hide Frames, Flip;
    WrapDifference(count, previous);
    FlipTwice(index, previous - first, count - previous);
    SaturatesOnce(base, previous - first, count - previous, period);
    hide Wrap, SaturatingAdd, SaturatingFrames;
  }

  /** Exactly the repeated sequence is a duplicate, and exactly the earlier ones within
      half the range, and the one just half the range ahead, run backward. */
  lemma RejectedCycles(previous: int, count: int, period: nat, index: nat, position: u64)
    requires -HALF_RANGE <= count - previous <= HALF_RANGE
    ensures var advance := AdvanceCycle(Some(Wrap(previous)), Wrap(count), period, index, position);
            && (advance.Duplicate? <==> count == previous)
            && (advance.Backward? <==> count < previous || count - previous == HALF_RANGE)
  {
    if previous <= count {
      WrapDifference(count, previous);
    } else {
      WrapDifference(previous, count);
    }
  }

  /** The callbacks of one run; repeated blocks bring none. */
  function Play(previous: Option<u64>, sequences: seq<u64>, period: nat, index: nat, position: u64): seq<Advance>
    decreases |sequences|
  {
    if sequences == [] then []
    else
      var advance := AdvanceCycle(previous, sequences[0], period, index, position);
      match advance
      case Ready(next, now) => [advance] + Play(Some(sequences[0]), sequences[1..], period, next, now)
      case Duplicate => [advance] + Play(previous, sequences[1..], period, index, position)
      case Backward => [advance]
  }

  predicate Rises(counts: seq<int>) {
    forall k :: 0 < k < |counts| ==> counts[k - 1] < counts[k] && counts[k] - counts[k - 1] < HALF_RANGE
  }

  function WrapAll(counts: seq<int>): seq<u64> {
    seq(|counts|, k requires 0 <= k < |counts| => Wrap(counts[k]))
  }

  lemma {:induction false} RestOfRun(first: int, previous: int, counts: seq<int>, period: nat, index: nat, base: u64,
                                     k: nat)
    requires index < 2 && k < |counts| && first <= previous && Rises([previous] + counts)
    ensures first <= counts[k]
    ensures var before := Expected(first, previous, period, index, base);
            var played := Play(Some(Wrap(previous)), WrapAll(counts), period, before.index, before.position);
            |played| == |counts| && played[k] == Expected(first, counts[k], period, index, base)
    decreases |counts|
  {
    assert ([previous] + counts)[0] == previous && ([previous] + counts)[1] == counts[0];
    assert ([previous] + counts)[1 - 1] < ([previous] + counts)[1];
    AdvanceIsExact(first, previous, counts[0], period, index, base);
    assert WrapAll(counts)[1..] == WrapAll(counts[1..]);
    forall j | 0 < j < |[counts[0]] + counts[1..]|
      ensures ([counts[0]] + counts[1..])[j - 1] < ([counts[0]] + counts[1..])[j]
      ensures ([counts[0]] + counts[1..])[j] - ([counts[0]] + counts[1..])[j - 1] < HALF_RANGE
    {
      assert ([counts[0]] + counts[1..])[j - 1] == ([previous] + counts)[j];
      assert ([counts[0]] + counts[1..])[j] == ([previous] + counts)[j + 1];
    }
    if |counts| > 1 {
      RestOfRun(first, counts[0], counts[1..], period, index, base, if k > 0 then k - 1 else 0);
    }
  }

  lemma {:induction false} RunRises(counts: seq<int>, k: nat)
    requires Rises(counts) && k < |counts|
    ensures counts[0] <= counts[k]
  {
    if k > 0 {
      RunRises(counts, k - 1);
      assert counts[k - 1] < counts[k];
    }
  }

  lemma RunIsExpected(counts: seq<int>, period: nat, index: nat, base: u64, k: nat)
    requires index < 2 && k < |counts| && Rises(counts) && counts[0] <= counts[k]
    ensures var played := Play(None, WrapAll(counts), period, index, base);
            |played| == |counts| && played[k] == Expected(counts[0], counts[k], period, index, base)
  {
    assert WrapAll(counts)[1..] == WrapAll(counts[1..]);
    if |counts| > 1 {
      assert [counts[0]] + counts[1..] == counts;
      RestOfRun(counts[0], counts[0], counts[1..], period, index, base, if k > 0 then k - 1 else 0);
    }
  }

  /** Over a whole run with gaps, the k-th callback has buffer (count - first) mod 2
      from the start and position base + period * (count - first), saturating. */
  lemma RunIsExact(counts: seq<int>, period: nat, index: nat, base: u64, k: nat)
    requires index < 2 && k < |counts| && Rises(counts)
    ensures counts[0] <= counts[k]
    ensures var played := Play(None, WrapAll(counts), period, index, base);
            var passed := counts[k] - counts[0];
            && |played| == |counts|
            && played[k] == Ready((index + passed) % 2,
                                  if base + passed * period < RANGE then base + passed * period else RANGE - 1)
  {
    RunRises(counts, k);
    RunIsExpected(counts, period, index, base, k);
    ExpectedMeans(counts[0], counts[k], period, index, base);
  }
}
