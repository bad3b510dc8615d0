/**
  Straight-line walks across the board, shared by the sliding pieces'
  move generation and by the attack detector. A walk starts at a square
  and repeats a unit step (dr, dc); `Scan` measures how far it runs over
  empty squares before it meets an occupied square or leaves the board.
 */
module Rays {

  import opened Occupants
  import opened Board

  predicate UnitDir(dr: int, dc: int) {
    -1 <= dr <= 1 && -1 <= dc <= 1 && (dr, dc) != (0, 0)
  }

  /** One coordinate after `k` unit steps of `d`. */
  function Step(x: int, d: int, k: int): int {
    if d == 1 then x + k else if d == -1 then x - k else x
  }

  /** The square `k` steps from (r, c) along (dr, dc). */
  function RaySquare(r: int, c: int, dr: int, dc: int, k: int): Square {
    (Step(r, dr, k), Step(c, dc, k))
  }

  /** Steps left before coordinate `x` leaves 0..7 moving by `d`. */
  function Reach(x: int, d: int): int {
    if d == 1 then 8 - x else if d == -1 then x + 1 else 0
  }

  /** The first `k` squares of the walk from (r, c) are on the board and empty. */
  ghost predicate ClearTo(b: ChessBoard, r: int, c: int, dr: int, dc: int, k: int)
    requires |b.cells| == 64
  {
    forall j | 0 <= j < k ::
      && OnBoard(RaySquare(r, c, dr, dc, j).0, RaySquare(r, c, dr, dc, j).1)
      && At(b, RaySquare(r, c, dr, dc, j).0, RaySquare(r, c, dr, dc, j).1) == Empty
  }

  /** The walk from (r, c) stops `k` steps out: off the board or on a piece. */
  ghost predicate StopsAt(b: ChessBoard, r: int, c: int, dr: int, dc: int, k: int)
    requires |b.cells| == 64
  {
    var (x, y) := RaySquare(r, c, dr, dc, k);
    !OnBoard(x, y) || At(b, x, y) != Empty
  }

  /** Number of empty squares met walking from (r, c) (inclusive) along
      (dr, dc) before the first occupied square or the board edge. */
  function Scan(b: ChessBoard, r: int, c: int, dr: int, dc: int): (k: nat)
    requires |b.cells| == 64 && UnitDir(dr, dc)
    ensures ClearTo(b, r, c, dr, dc, k)
    ensures StopsAt(b, r, c, dr, dc, k)
    decreases Reach(r, dr) + Reach(c, dc)
  {
    if !OnBoard(r, c) || At(b, r, c) != Empty then 0
    else
      var k := Scan(b, r + dr, c + dc, dr, dc);
      ScanStep(b, r, c, dr, dc, k);
      1 + k
  }

  /** A walk that is clear at its start and then clear for `k` more
      squares is clear for `k + 1` squares and stops where the rest stops. */
  lemma ScanStep(b: ChessBoard, r: int, c: int, dr: int, dc: int, k: nat)
    requires |b.cells| == 64 && UnitDir(dr, dc)
    requires OnBoard(r, c) && At(b, r, c) == Empty
    requires ClearTo(b, r + dr, c + dc, dr, dc, k) && StopsAt(b, r + dr, c + dc, dr, dc, k)
    ensures ClearTo(b, r, c, dr, dc, k + 1) && StopsAt(b, r, c, dr, dc, k + 1)
  {
    forall j | 0 <= j < k + 1
      ensures OnBoard(RaySquare(r, c, dr, dc, j).0, RaySquare(r, c, dr, dc, j).1)
      ensures At(b, RaySquare(r, c, dr, dc, j).0, RaySquare(r, c, dr, dc, j).1) == Empty
    {
      if j > 0 {
        assert RaySquare(r + dr, c + dc, dr, dc, j - 1) == RaySquare(r, c, dr, dc, j);
      }
    }
    assert RaySquare(r + dr, c + dc, dr, dc, k) == RaySquare(r, c, dr, dc, k + 1);
  }

  /** The stopping distance is the only one: a walk clear for `k` squares
      that stops at `k` has Scan value `k`. */
  lemma ScanUnique(b: ChessBoard, r: int, c: int, dr: int, dc: int, k: nat)
    requires |b.cells| == 64 && UnitDir(dr, dc)
    requires ClearTo(b, r, c, dr, dc, k) && StopsAt(b, r, c, dr, dc, k)
    ensures Scan(b, r, c, dr, dc) == k
  {
  }

  /** The squares 1..k steps after (r, c) are on the board and empty. */
  ghost predicate ClearAfter(b: ChessBoard, r: int, c: int, dr: int, dc: int, k: int)
    requires |b.cells| == 64
  {
    forall j | 1 <= j <= k ::
      && OnBoard(RaySquare(r, c, dr, dc, j).0, RaySquare(r, c, dr, dc, j).1)
      && At(b, RaySquare(r, c, dr, dc, j).0, RaySquare(r, c, dr, dc, j).1) == Empty
  }

  /** Starting one step further along is the same walk shifted by one. */
  lemma RayShift(r: int, c: int, dr: int, dc: int, j: int)
    requires UnitDir(dr, dc)
    ensures RaySquare(r + dr, c + dc, dr, dc, j) == RaySquare(r, c, dr, dc, j + 1)
  {
  }

  /** The number of empty squares between (r, c) and the first occupied
      square or the edge along (dr, dc); the walk stops one step further. */
  function Gap(b: ChessBoard, r: int, c: int, dr: int, dc: int): (k: nat)
    requires |b.cells| == 64 && UnitDir(dr, dc)
    ensures ClearAfter(b, r, c, dr, dc, k)
    ensures StopsAt(b, r, c, dr, dc, k + 1)
  {
    var k := Scan(b, r + dr, c + dc, dr, dc);
    forall j | 1 <= j <= k
      ensures OnBoard(RaySquare(r, c, dr, dc, j).0, RaySquare(r, c, dr, dc, j).1)
      ensures At(b, RaySquare(r, c, dr, dc, j).0, RaySquare(r, c, dr, dc, j).1) == Empty
    {
      RayShift(r, c, dr, dc, j - 1);
    }
    RayShift(r, c, dr, dc, k);
    k
  }

  /** The gap is the only distance that is clear and then stops. */
  lemma {:induction false} GapUnique(b: ChessBoard, r: int, c: int, dr: int, dc: int, k: nat)
    requires |b.cells| == 64 && UnitDir(dr, dc)
    requires ClearAfter(b, r, c, dr, dc, k) && StopsAt(b, r, c, dr, dc, k + 1)
    ensures Gap(b, r, c, dr, dc) == k
  {
    var (r1, c1) := (r + dr, c + dc);
    forall j | 0 <= j < k
      ensures OnBoard(RaySquare(r1, c1, dr, dc, j).0, RaySquare(r1, c1, dr, dc, j).1)
      ensures At(b, RaySquare(r1, c1, dr, dc, j).0, RaySquare(r1, c1, dr, dc, j).1) == Empty
    {
      RayShift(r, c, dr, dc, j);
    }
    RayShift(r, c, dr, dc, k);
    ScanUnique(b, r + dr, c + dc, dr, dc, k);
  }

  /** A clear stretch followed by one more empty square is one longer. */
  lemma ClearAfterExtend(b: ChessBoard, r: int, c: int, dr: int, dc: int, k: nat)
    requires |b.cells| == 64 && ClearAfter(b, r, c, dr, dc, k)
    requires OnBoard(RaySquare(r, c, dr, dc, k + 1).0, RaySquare(r, c, dr, dc, k + 1).1)
    requires At(b, RaySquare(r, c, dr, dc, k + 1).0, RaySquare(r, c, dr, dc, k + 1).1) == Empty
    ensures ClearAfter(b, r, c, dr, dc, k + 1)
  {
  }
}
