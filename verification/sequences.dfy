/** Sequence numbers that wrap at 2^64, and the half-range order every ring,
    adapter and clock of the system compares them with. */
module Sequences {

  const RANGE := 0x1_0000_0000_0000_0000
  const HALF_RANGE := 0x8000_0000_0000_0000

  type u64 = x: int | 0 <= x < RANGE

  datatype Option<+T> = None | Some(value: T)

  datatype Order = Less | Equal | Greater

  function WrapAdd(a: u64, b: u64): u64 {
    if a + b < RANGE then a + b else a + b - RANGE
  }

  function WrapSub(a: u64, b: u64): u64 {
    if b <= a then a - b else a - b + RANGE
  }

  function SaturatingAdd(a: u64, b: u64): u64 {
    if a + b < RANGE then a + b else RANGE - 1
  }

  function SaturatingSub(a: u64, b: u64): u64 {
    if b <= a then a - b else 0
  }

  function SaturatingMul(a: nat, b: nat): u64 {
    if a * b < RANGE then a * b else RANGE - 1
  }

  function Min(a: nat, b: nat): (least: nat)
    ensures least <= a && least <= b && (least == a || least == b)
  {
    if a < b then a else b
  }

  function Max(a: int, b: int): (greatest: int)
    ensures a <= greatest && b <= greatest && (greatest == a || greatest == b)
  {
    if a < b then b else a
  }

  /** Undecided exactly at half the range. */
  function SequenceOrder(candidate: u64, reference: u64): Option<Order> {
    var distance := WrapSub(candidate, reference);
    if distance == 0 then Some(Equal)
    else if distance < HALF_RANGE then Some(Greater)
    else if distance == HALF_RANGE then None
    else Some(Less)
  }

  predicate IsAfter(candidate: u64, reference: u64) {
    SequenceOrder(candidate, reference) == Some(Greater)
  }

  predicate IsBefore(candidate: u64, reference: u64) {
    SequenceOrder(candidate, reference) == Some(Less)
  }

  /** The u64 counter that holds an ideal, unbounded count. */
  function Wrap(n: int): u64 {
    n % RANGE
  }

  lemma WrapShift(n: int, d: int)
    requires 0 <= d < RANGE
    ensures Wrap(n + d) == WrapAdd(Wrap(n), d)
    ensures Wrap(n - d) == WrapSub(Wrap(n), d)
  {
  }

  lemma WrapDifference(a: int, b: int)
    requires 0 <= a - b < RANGE
    ensures WrapSub(Wrap(a), Wrap(b)) == a - b
  {
    WrapShift(b, a - b);
  }

  /** The wrapping order is the order of the ideal counts as long as these are
      less than half the range apart, and it is undecided just at half. */
  lemma OrderOfNearCounts(a: int, b: int)
    requires -HALF_RANGE <= a - b <= HALF_RANGE
    ensures SequenceOrder(Wrap(a), Wrap(b)) ==
            if a - b == HALF_RANGE || b - a == HALF_RANGE then None
            else if a < b then Some(Less)
            else if a == b then Some(Equal)
            else Some(Greater)
  {
    if b <= a {
      WrapDifference(a, b);
    } else {
      WrapDifference(b, a);
    }
  }

  /** So the two tests are the two strict orders of near counts. */
  lemma TestsOfNearCounts(a: int, b: int)
    requires -HALF_RANGE < a - b < HALF_RANGE
    ensures IsBefore(Wrap(a), Wrap(b)) <==> a < b
    ensures IsAfter(Wrap(a), Wrap(b)) <==> a > b
  {
    OrderOfNearCounts(a, b);
  }

  /** Beyond that window the order can go around in a circle. */
  lemma OrderIsNotTransitive()
    ensures exists a: u64, b: u64, c: u64 :: IsBefore(a, b) && IsBefore(b, c) && IsBefore(c, a)
  {
    var a: u64, b: u64, c: u64 := 0, HALF_RANGE - 1, HALF_RANGE + 1;
    assert IsBefore(a, b) && IsBefore(b, c) && IsBefore(c, a);
  }
}
