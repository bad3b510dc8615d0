/**
  Legal move generation for the side to move: every pseudo-legal move of
  every piece of that side, in a fixed order, minus the moves after which
  the mover's own king is attacked. A move is carried out by encoding its
  two squares as tokens and handing them to DoMove, as the original does
  with its "a1 b2" strings.
 */
module Legality {

  import opened Results
  import opened Occupants
  import opened Board
  import opened Attack
  import opened Pieces
  import Helper

  datatype Move = Move(from: Square, to: Square)

  /** The square with row-major index `k`. */
  function SquareOf(k: int): (sq: Square)
    requires 0 <= k < 64
    ensures OnBoard(sq.0, sq.1) && Index(sq.0, sq.1) == k
  {
    (k / 8, k % 8)
  }

  lemma SquareOfIndex(sq: Square)
    requires OnBoard(sq.0, sq.1)
    ensures SquareOf(Index(sq.0, sq.1)) == sq
  {
    var k := Index(sq.0, sq.1);
    assert k == 8 * (k / 8) + k % 8 && 0 <= k % 8 < 8;
  }

  /** The members of `s` whose row-major index is below `n`, in row-major
      order. The original walks a Python set here, whose order the model
      fixes to row-major. */
  function SquaresUpTo(s: set<Square>, n: nat): (q: seq<Square>)
    requires n <= 64
    ensures forall sq :: sq in q <==> sq in s && OnBoard(sq.0, sq.1) && Index(sq.0, sq.1) < n
    ensures forall i, j | 0 <= i < j < |q| :: Index(q[i].0, q[i].1) < Index(q[j].0, q[j].1)
  {
    if n == 0 then []
    else
      var q := SquaresUpTo(s, n - 1);
      forall sq | sq in s && OnBoard(sq.0, sq.1) && Index(sq.0, sq.1) == n - 1
        ensures sq == SquareOf(n - 1)
      {
        SquareOfIndex(sq);
      }
      q + (if SquareOf(n - 1) in s then [SquareOf(n - 1)] else [])
  }

  /** Moves from `from` to each square of `q`, in order. */
  function MovesTo(from: Square, q: seq<Square>): (ms: seq<Move>)
    ensures |ms| == |q|
    ensures forall i | 0 <= i < |q| :: ms[i] == Move(from, q[i])
  {
    if q == [] then [] else MovesTo(from, q[..|q| - 1]) + [Move(from, q[|q| - 1])]
  }

  /** The piece object the original builds for a square of the side to
      move: the square's kind, the square, and the side to move as owner. */
  function PieceAt(b: ChessBoard, sq: Square): ChessPiece
    requires |b.cells| == 64 && OnBoard(sq.0, sq.1) && At(b, sq.0, sq.1).Piece?
  {
    ChessPiece(At(b, sq.0, sq.1).kind, sq.0, sq.1, b.turn)
  }

  /** The destinations of the piece on `sq` when it belongs to the side to
      move; none for an empty square or an opposing piece, which the
      original skips. */
  function Destinations(b: ChessBoard, sq: Square): set<Square>
    requires |b.cells| == 64
  {
    if OnBoard(sq.0, sq.1) && Owned(At(b, sq.0, sq.1), b.turn) then CalcMoves(b, PieceAt(b, sq)).defender
    else {}
  }

  /** Moves are listed by origin square, then by destination square, both row-major. */
  predicate Before(m1: Move, m2: Move) {
    || Index(m1.from.0, m1.from.1) < Index(m2.from.0, m2.from.1)
    || (Index(m1.from.0, m1.from.1) == Index(m2.from.0, m2.from.1)
        && Index(m1.to.0, m1.to.1) < Index(m2.to.0, m2.to.1))
  }

  /** Strictly increasing in that order, hence free of repeats. */
  predicate Ordered(ms: seq<Move>) {
    forall i, j | 0 <= i < j < |ms| :: Before(ms[i], ms[j])
  }

  /** The moves from square `k` to each of `dests` of it, destinations in row-major order. */
  function MovesFrom(dests: Square -> set<Square>, k: int): (ms: seq<Move>)
    requires 0 <= k < 64
  {
    var sq := SquareOf(k);
    MovesTo(sq, SquaresUpTo(dests(sq), 64))
  }

  lemma MovesFromSpec(dests: Square -> set<Square>, k: int, m: Move)
    requires 0 <= k < 64
    ensures m in MovesFrom(dests, k) <==>
      m.from == SquareOf(k) && m.to in dests(m.from) && OnBoard(m.to.0, m.to.1)
  {
    var sq := SquareOf(k);
    var q := SquaresUpTo(dests(sq), 64);
    if m.from == sq && m.to in dests(sq) && OnBoard(m.to.0, m.to.1) {
      var i :| 0 <= i < |q| && q[i] == m.to;
      assert MovesFrom(dests, k)[i] == m;
    }
  }

  /** The moves from squares 0..n-1, square by square: the first loop of
      calc_possible_moves. */
  function CandidatesUpTo(dests: Square -> set<Square>, n: nat): (ms: seq<Move>)
    requires n <= 64
  {
    if n == 0 then [] else CandidatesUpTo(dests, n - 1) + MovesFrom(dests, n - 1)
  }

  /** One origin's moves are ordered by destination. */
  lemma MovesFromOrdered(dests: Square -> set<Square>, k: int)
    requires 0 <= k < 64
    ensures Ordered(MovesFrom(dests, k))
    ensures forall m | m in MovesFrom(dests, k) :: m.from == SquareOf(k)
  {
  }

  /** The candidates come origin by origin, so they are ordered. */
  lemma {:induction false} CandidatesOrdered(dests: Square -> set<Square>, n: nat)
    requires n <= 64
    ensures Ordered(CandidatesUpTo(dests, n))
  {
    if n > 0 {
      var prev := CandidatesUpTo(dests, n - 1);
      var here := MovesFrom(dests, n - 1);
      var ms := prev + here;
      CandidatesOrdered(dests, n - 1);
      MovesFromOrdered(dests, n - 1);
      forall i, j | 0 <= i < j < |ms|
        ensures Before(ms[i], ms[j])
      {
        if i < |prev| <= j {
          CandidatesUpToSpec(dests, n - 1, ms[i]);
          assert ms[j] in here;
        }
      }
    }
  }

  lemma {:induction false} CandidatesUpToSpec(dests: Square -> set<Square>, n: nat, m: Move)
    requires n <= 64
    ensures m in CandidatesUpTo(dests, n) <==>
      && OnBoard(m.from.0, m.from.1) && Index(m.from.0, m.from.1) < n
      && m.to in dests(m.from) && OnBoard(m.to.0, m.to.1)
  {
    if n > 0 {
      CandidatesUpToSpec(dests, n - 1, m);
      MovesFromSpec(dests, n - 1, m);
      if OnBoard(m.from.0, m.from.1) && Index(m.from.0, m.from.1) == n - 1 {
        SquareOfIndex(m.from);
      }
    }
  }

  /** Every pseudo-legal move of the side to move. */
  function Candidates(b: ChessBoard): seq<Move>
    requires |b.cells| == 64
  {
    CandidatesUpTo(sq => Destinations(b, sq), 64)
  }

  /** A move is generated exactly when its origin holds a piece of the side
      to move and its destination is one that piece's rule produces. */
  lemma CandidatesSpec(b: ChessBoard, m: Move)
    requires |b.cells| == 64
    ensures m in Candidates(b) <==>
      && OnBoard(m.from.0, m.from.1)
      && Owned(At(b, m.from.0, m.from.1), b.turn)
      && m.to in CalcMoves(b, PieceAt(b, m.from)).defender
  {
    CandidatesUpToSpec(sq => Destinations(b, sq), 64, m);
  }

  /** Carries out a move through its text tokens; a square off the board
      has no token do_move accepts. */
  function ApplyMove(b: ChessBoard, m: Move): (r: Result<ChessBoard, MoveError>)
    requires Valid(b)
    ensures r.Ok? ==> Valid(r.value) && Moved(b, m.from, m.to, r.value)
  {
    if OnBoard(m.from.0, m.from.1) && OnBoard(m.to.0, m.to.1) then
      Helper.EncodeOnBoard(m.from.0, m.from.1);
      Helper.EncodeOnBoard(m.to.0, m.to.1);
      DoMove(b, Helper.EncodeInpt(m.from.0, m.from.1), Helper.EncodeInpt(m.to.0, m.to.1))
    else Err(BadToken)
  }

  /** A move goes through exactly when its origin holds a piece of the side
      to move and its destination holds neither such a piece nor a king. */
  lemma ApplyMoveSucceeds(b: ChessBoard, m: Move)
    requires Valid(b)
    ensures ApplyMove(b, m).Ok? <==>
      && OnBoard(m.from.0, m.from.1) && OnBoard(m.to.0, m.to.1)
      && Owned(At(b, m.from.0, m.from.1), b.turn)
      && !Owned(At(b, m.to.0, m.to.1), b.turn)
      && !IsKing(At(b, m.to.0, m.to.1))
  {
    if OnBoard(m.from.0, m.from.1) && OnBoard(m.to.0, m.to.1) {
      Helper.EncodeOnBoard(m.from.0, m.from.1);
      Helper.EncodeOnBoard(m.to.0, m.to.1);
      DoMoveSucceeds(b, Helper.EncodeInpt(m.from.0, m.from.1), Helper.EncodeInpt(m.to.0, m.to.1));
    }
  }

  /** Every generated move can be carried out. */
  lemma CandidateApplies(b: ChessBoard, m: Move)
    requires Valid(b) && m in Candidates(b)
    ensures ApplyMove(b, m).Ok?
  {
    CandidatesSpec(b, m);
    ApplyMoveSucceeds(b, m);
  }

  /** The move goes through and afterwards the mover's king is not attacked
      (is_attacking_king on the resulting board, whose turn has passed). */
  predicate Survives(b: ChessBoard, m: Move) {
    && Valid(b)
    && match ApplyMove(b, m)
       case Ok(after) => !IsAttackingKing(after, false)
       case Err(_) => false
  }

  /** Surviving means the king of the side that moved stands unattacked. */
  lemma SurvivesSpec(b: ChessBoard, m: Move)
    requires Valid(b) && ApplyMove(b, m).Ok?
    ensures var after := ApplyMove(b, m).value;
            var (kr, kc) := KingSquare(after, b.turn);
            Survives(b, m) <==> !AttackedBy(after, kr, kc, b.turn)
  {
  }

  /** The moves of `ms` that `keep` accepts, in their original order: the
      pop loop of calc_possible_moves. */
  function Kept(keep: Move -> bool, ms: seq<Move>): (r: seq<Move>)
    ensures |r| <= |ms|
  {
    if ms == [] then []
    else
      var prev := Kept(keep, ms[..|ms| - 1]);
      var last := ms[|ms| - 1];
      if keep(last) then prev + [last] else prev
  }

  /** The filter keeps exactly the moves `keep` accepts. */
  lemma {:induction false} KeptSpec(keep: Move -> bool, ms: seq<Move>)
    ensures forall m :: m in Kept(keep, ms) <==> m in ms && keep(m)
  {
    if ms != [] {
      var init := ms[..|ms| - 1];
      KeptSpec(keep, init);
      assert ms == init + [ms[|ms| - 1]];
    }
  }

  /** Nothing is kept when `keep` accepts none of the moves. */
  lemma {:induction false} KeptNone(keep: Move -> bool, ms: seq<Move>)
    requires forall m | m in ms :: !keep(m)
    ensures Kept(keep, ms) == []
  {
    if ms != [] {
      assert ms == ms[..|ms| - 1] + [ms[|ms| - 1]];
      KeptNone(keep, ms[..|ms| - 1]);
    }
  }

  /** Filtering keeps the moves in their order. */
  lemma {:induction false} KeptOrdered(keep: Move -> bool, ms: seq<Move>)
    requires Ordered(ms)
    ensures Ordered(Kept(keep, ms))
  {
    if ms != [] {
      var init := ms[..|ms| - 1];
      var last := ms[|ms| - 1];
      KeptOrdered(keep, init);
      KeptSpec(keep, init);
      var prev := Kept(keep, init);
      forall m | m in prev
        ensures Before(m, last)
      {
        var i :| 0 <= i < |init| && init[i] == m;
        assert ms[i] == m;
      }
    }
  }

  /** calc_possible_moves as a value. */
  function LegalMoves(b: ChessBoard): seq<Move>
    requires Valid(b)
  {
    Kept(m => Survives(b, m), Candidates(b))
  }

  /** A move is legal exactly when the origin holds a piece of the side to
      move, the destination is one that piece's rule produces, and the
      mover's king is not attacked afterwards; the list is ordered by origin
      and then destination, so no move is listed twice. */
  lemma LegalMovesSpec(b: ChessBoard, m: Move)
    requires Valid(b)
    ensures m in LegalMoves(b) <==>
      && OnBoard(m.from.0, m.from.1)
      && Owned(At(b, m.from.0, m.from.1), b.turn)
      && m.to in CalcMoves(b, PieceAt(b, m.from)).defender
      && Survives(b, m)
    ensures Ordered(LegalMoves(b))
  {
    CandidatesSpec(b, m);
    KeptSpec(m => Survives(b, m), Candidates(b));
    CandidatesOrdered(sq => Destinations(b, sq), 64);
    KeptOrdered(m => Survives(b, m), Candidates(b));
  }

  /** Every legal move can be carried out and yields a valid board. */
  lemma LegalMoveApplies(b: ChessBoard, m: Move)
    requires Valid(b) && m in LegalMoves(b)
    ensures ApplyMove(b, m).Ok? && Valid(ApplyMove(b, m).value)
  {
    LegalMovesSpec(b, m);
  }

  lemma MovesToSnoc(from: Square, q: seq<Square>, x: Square)
    ensures MovesTo(from, q + [x]) == MovesTo(from, q) + [Move(from, x)]
  {
    assert (q + [x])[..|q|] == q;
  }

  lemma KeptSnoc(keep: Move -> bool, ms: seq<Move>, x: Move)
    ensures Kept(keep, ms + [x]) == Kept(keep, ms) + (if keep(x) then [x] else [])
  {
    assert (ms + [x])[..|ms|] == ms;
  }

  /** The moves of one piece, collected by walking the board's squares and
      keeping those the piece's rule produces (the inner loop of the
      original's collection). */
  method CollectFrom(dests: Square -> set<Square>, k: int) returns (here: seq<Move>)
    requires 0 <= k < 64
    ensures here == MovesFrom(dests, k)
  {
    var from := SquareOf(k);
    var ds := dests(from);
    here := [];
    var t := 0;
    while t < 64
      invariant 0 <= t <= 64
      invariant here == MovesTo(from, SquaresUpTo(ds, t))
    {
      ghost var q := SquaresUpTo(ds, t);
      if SquareOf(t) in ds {
        assert SquaresUpTo(ds, t + 1) == q + [SquareOf(t)];
        MovesToSnoc(from, q, SquareOf(t));
        here := here + [Move(from, SquareOf(t))];
      } else {
        assert SquaresUpTo(ds, t + 1) == q;
      }
      t := t + 1;
    }
  }

  /** One step of the filter loop: the move under the index is the next
      unexamined one, and removing it or stepping past it extends the
      filtered prefix by one examined move. */
  lemma RemoveStep(keep: Move -> bool, all: seq<Move>, t: int, done: seq<Move>, moves: seq<Move>)
    requires 0 <= t < |all| && done == Kept(keep, all[..t]) && moves == done + all[t..]
    ensures |done| < |moves| && moves[|done|] == all[t]
    ensures Kept(keep, all[..t + 1]) == done + (if keep(all[t]) then [all[t]] else [])
    ensures !keep(all[t]) ==> moves[..|done|] + moves[|done| + 1..] == done + all[t + 1..]
    ensures keep(all[t]) ==> moves == (done + [all[t]]) + all[t + 1..]
  {
    assert all[..t + 1] == all[..t] + [all[t]];
    KeptSnoc(keep, all[..t], all[t]);
    assert moves[..|done|] == done && moves[|done| + 1..] == all[t + 1..];
  }

  /** The original's filter: walk the list by index, removing a move in
      place when `keep` rejects it and stepping past it otherwise. */
  method RemoveRejected(keep: Move -> bool, all: seq<Move>) returns (moves: seq<Move>)
    ensures moves == Kept(keep, all)
  {
    moves := all;
    var i := 0;
    ghost var t := 0;
    ghost var done: seq<Move> := [];
    while i < |moves|
      invariant 0 <= t <= |all| && i == |done| && |moves| - i == |all| - t
      invariant done == Kept(keep, all[..t]) && moves == done + all[t..]
      decreases |moves| - i
    {
      RemoveStep(keep, all, t, done, moves);
      if !keep(moves[i]) {
        moves := moves[..i] + moves[i + 1..];
      } else {
        i := i + 1;
        done := done + [all[t]];
      }
      t := t + 1;
    }
    assert all[..t] == all;
  }

  /** calc_possible_moves: collect every piece's moves, then remove each
      move after which the mover's king is attacked. */
  method CalcPossibleMoves(b: ChessBoard) returns (moves: seq<Move>)
    requires Valid(b)
    ensures moves == LegalMoves(b)
  {
    var dests := sq => Destinations(b, sq);
    var all: seq<Move> := [];
    var k := 0;
    while k < 64
      invariant 0 <= k <= 64
      invariant all == CandidatesUpTo(dests, k)
    {
      var here := CollectFrom(dests, k);
      all := all + here;
      k := k + 1;
    }
    moves := RemoveRejected(m => Survives(b, m), all);
  }

  /** The inner search of has_no_moves: whether some move of the piece on
      square `k` is accepted by `keep`, stopping at the first. */
  method AnyKeptFrom(dests: Square -> set<Square>, keep: Move -> bool, k: int) returns (found: bool)
    requires 0 <= k < 64
    ensures found <==> exists m | m in MovesFrom(dests, k) :: keep(m)
  {
    var from := SquareOf(k);
    var ds := dests(from);
    var t := 0;
    while t < 64
      invariant 0 <= t <= 64
      invariant forall sq | sq in SquaresUpTo(ds, t) :: !keep(Move(from, sq))
    {
      var to := SquareOf(t);
      if to in ds && keep(Move(from, to)) {
        MovesFromSpec(dests, k, Move(from, to));
        return true;
      }
      assert SquaresUpTo(ds, t + 1) == SquaresUpTo(ds, t) + (if to in ds then [to] else []);
      t := t + 1;
    }
    found := false;
    forall m | m in MovesFrom(dests, k)
      ensures !keep(m)
    {
      MovesFromSpec(dests, k, m);
    }
  }

  /** The search of has_no_moves: walk the origins in order and stop at
      the first move `keep` accepts. */
  method NoneKept(dests: Square -> set<Square>, keep: Move -> bool) returns (none: bool)
    ensures none <==> Kept(keep, CandidatesUpTo(dests, 64)) == []
  {
    var k := 0;
    while k < 64
      invariant 0 <= k <= 64
      invariant forall m | m in CandidatesUpTo(dests, k) :: !keep(m)
    {
      var found := AnyKeptFrom(dests, keep, k);
      if found {
        var m :| m in MovesFrom(dests, k) && keep(m);
        MovesFromSpec(dests, k, m);
        CandidatesUpToSpec(dests, 64, m);
        KeptSpec(keep, CandidatesUpTo(dests, 64));
        assert m in Kept(keep, CandidatesUpTo(dests, 64));
        return false;
      }
      assert CandidatesUpTo(dests, k + 1) == CandidatesUpTo(dests, k) + MovesFrom(dests, k);
      k := k + 1;
    }
    none := true;
    KeptNone(keep, CandidatesUpTo(dests, 64));
  }

  /** has_no_moves: true exactly when the side to move has no legal move. */
  method HasNoMoves(b: ChessBoard) returns (none: bool)
    requires Valid(b)
    ensures none <==> LegalMoves(b) == []
  {
    none := NoneKept(sq => Destinations(b, sq), m => Survives(b, m));
  }
}
