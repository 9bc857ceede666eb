/** ALSA's cursors: counts of frames modulo a boundary. */
module Cursors {

  function Cursor(count: int, boundary: nat): nat
    requires boundary > 0
  {
    count % boundary
  }

  /** How far a cursor has moved forward. */
  function WrapDistance(from: nat, to: nat, boundary: nat): nat
    requires from < boundary && to < boundary
  {
    if to >= from then to - from else boundary - from + to
  }

  lemma ProductAtLeast(laps: int, boundary: nat)
    ensures laps >= 1 ==> laps * boundary >= boundary
  {
    if laps >= 1 {
      assert laps * boundary == (laps - 1) * boundary + boundary;
      assert (laps - 1) * boundary >= 0;
    }
  }

  lemma CursorIsUnique(count: int, laps: int, cursor: nat, boundary: nat)
    requires cursor < boundary && count == laps * boundary + cursor
    ensures Cursor(count, boundary) == cursor
  {
    var quotient, rest := count / boundary, count % boundary;
    Unique(laps, cursor, quotient, rest, boundary);
  }

  lemma Unique(laps: int, cursor: nat, quotient: int, rest: nat, boundary: nat)
    requires cursor < boundary && rest < boundary
    requires laps * boundary + cursor == quotient * boundary + rest
    ensures cursor == rest
  {
    ProductAtLeast(laps - quotient, boundary);
    ProductAtLeast(quotient - laps, boundary);
    assert (laps - quotient) * boundary == laps * boundary - quotient * boundary;
    assert (quotient - laps) * boundary == quotient * boundary - laps * boundary;
  }

  lemma CursorRange(count: int, boundary: nat)
    requires boundary > 0
    ensures Cursor(count, boundary) < boundary
  {
  }

  lemma CursorMoves(count: int, frames: int, boundary: nat)
    requires boundary > 0 && 0 <= frames < boundary
    ensures var from := Cursor(count, boundary);
            Cursor(count + frames, boundary) ==
              if from + frames < boundary then from + frames else from + frames - boundary
  {
    var laps := count / boundary;
    var from := Cursor(count, boundary);
    assert count == laps * boundary + from;
    if from + frames < boundary {
      CursorIsUnique(count + frames, laps, from + frames, boundary);
    } else {
      assert (laps + 1) * boundary == laps * boundary + boundary;
      CursorIsUnique(count + frames, laps + 1, from + frames - boundary, boundary);
    }
  }

  /** The distance between two cursors is the distance between their counts. */
  lemma DistanceOfCounts(from: int, to: int, boundary: nat)
    requires boundary > 0 && 0 <= to - from < boundary
    ensures Cursor(from, boundary) < boundary && Cursor(to, boundary) < boundary
    ensures WrapDistance(Cursor(from, boundary), Cursor(to, boundary), boundary) == to - from
  {
    CursorRange(from, boundary);
    CursorMoves(from, to - from, boundary);
  }

  lemma DistanceBack(from: int, to: int, boundary: nat)
    requires boundary > 0 && 0 < from - to < boundary
    ensures Cursor(from, boundary) < boundary && Cursor(to, boundary) < boundary
    ensures WrapDistance(Cursor(from, boundary), Cursor(to, boundary), boundary) == boundary - (from - to)
  {
    DistanceOfCounts(to, from, boundary);
  }

  /** Moving a count by the distance to another cursor reaches that cursor. */
  lemma MoveReaches(count: int, to: nat, boundary: nat)
    requires to < boundary
    ensures Cursor(count, boundary) < boundary
    ensures Cursor(count + WrapDistance(Cursor(count, boundary), to, boundary), boundary) == to
  {
    CursorRange(count, boundary);
    CursorMoves(count, WrapDistance(Cursor(count, boundary), to, boundary), boundary);
  }

  lemma CursorAdds(count: int, frames: nat, boundary: nat)
    requires boundary > 0
    ensures Cursor(count + frames, boundary) == (Cursor(count, boundary) + frames) % boundary
  {
    var laps := count / boundary;
    var sum := Cursor(count, boundary) + frames;
    assert (laps + sum / boundary) * boundary == laps * boundary + (sum / boundary) * boundary;
    CursorIsUnique(count + frames, laps + sum / boundary, sum % boundary, boundary);
  }
}
