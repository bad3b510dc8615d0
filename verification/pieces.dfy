/**
  Pseudo-legal move generation, one rule per piece kind. Every
  destination must pass `IsValidAttack`: on the board, not a king of
  either side, and not owned by the moving side. Moves that leave the
  mover's own king attacked are filtered later (module Legality).
 */
module Pieces {

  import opened Results
  import opened Occupants
  import opened Board
  import opened Rays
  import opened Attack

  /** A piece object: its kind, its square and its owner. */
  datatype ChessPiece = ChessPiece(kind: Kind, row: int, col: int, player: Side)

  /** The result of calc_moves: the piece's own square and its destinations. */
  datatype MoveMap = MoveMap(attacker: Square, defender: set<Square>)

  /** ChessPiece.__init__: the square must be on the board and the player '1' or '2'. */
  function NewPiece(kind: Kind, row: int, col: int, player: char): (p: Option<ChessPiece>)
    ensures p.Some? <==> OnBoard(row, col) && (player == '1' || player == '2')
    ensures p.Some? ==> p.value.kind == kind && p.value.row == row && p.value.col == col
    ensures p.Some? ==> SideChar(p.value.player) == player
  {
    if OnBoard(row, col) && ParseSide(player).Some? then Some(ChessPiece(kind, row, col, ParseSide(player).value))
    else None
  }

  /** get_char: the kind's letter, upper-cased for side 2. */
  function GetChar(p: ChessPiece): (ch: char)
    ensures p.player == One ==> 'a' <= ch <= 'z'
    ensures p.player == Two ==> 'A' <= ch <= 'Z'
    ensures Decode(ch) == Piece(p.player, p.kind)
  {
    DecodeOccupantChar(Piece(p.player, p.kind));
    PieceChar(p.player, p.kind)
  }

  /** is_valid_attack: the target is on the board, holds no king of either
      side, and holds no piece of the mover (an empty square is fine). */
  predicate IsValidAttack(b: ChessBoard, p: Side, r: int, c: int)
    requires |b.cells| == 64
  {
    OnBoard(r, c) && !IsKing(At(b, r, c)) && !Owned(At(b, r, c), p)
  }

  /** The character test the original performs on the target square: its
      lower-cased letter is not 'k', and it is not in the mover's case. */
  predicate CharAllowsAttack(ch: char, p: Side) {
    && ch != 'k' && ch != 'K'
    && (p == One ==> !('a' <= ch <= 'z'))
    && (p == Two ==> !('A' <= ch <= 'Z'))
  }

  /** The typed rule agrees with the original's test on the square's character. */
  lemma ValidAttackByCharacter(b: ChessBoard, p: Side, r: int, c: int)
    requires |b.cells| == 64
    ensures IsValidAttack(b, p, r, c) <==> OnBoard(r, c) && CharAllowsAttack(GetSquare(b, r, c), p)
  {
    if OnBoard(r, c) {
      var ch := GetSquare(b, r, c);
      DecodeCase(ch);
    }
  }

  /** Pawns of side 1 advance to higher rows, pawns of side 2 to lower rows. */
  function Forward(p: Side): int {
    if p == One then 1 else -1
  }

  /** Pawn.calc_moves: a diagonal step onto a piece, one step ahead, and
      two steps ahead from row 1 or row 6. The forward squares only need
      to pass IsValidAttack, so an enemy piece there may be taken, and the
      square jumped over by the double step is not examined. */
  function PawnMoves(b: ChessBoard, r: int, c: int, p: Side): (m: set<Square>)
    requires |b.cells| == 64
    ensures forall d | d in m :: IsValidAttack(b, p, d.0, d.1)
    ensures forall d | d in m && d.1 != c :: OnBoard(d.0, d.1) && Owned(At(b, d.0, d.1), Opponent(p))
  {
    var r2 := r + Forward(p);
    var left := if IsValidAttack(b, p, r2, c - 1) && At(b, r2, c - 1) != Empty then {(r2, c - 1)} else {};
    var right := if IsValidAttack(b, p, r2, c + 1) && At(b, r2, c + 1) != Empty then {(r2, c + 1)} else {};
    var ahead := if IsValidAttack(b, p, r2, c) then {(r2, c)} else {};
    var r3 := r + 2 * Forward(p);
    var double := if (r == 6 || r == 1) && IsValidAttack(b, p, r3, c) then {(r3, c)} else {};
    left + right + ahead + double
  }

  /** The pawn's destinations exactly: one row forward onto a target on
      either diagonal that holds a piece, or straight ahead one row, or two
      rows from a starting row; never sideways, backwards or further. */
  lemma PawnMovesSpec(b: ChessBoard, r: int, c: int, p: Side, d: Square)
    requires |b.cells| == 64
    ensures d in PawnMoves(b, r, c, p) <==>
      && IsValidAttack(b, p, d.0, d.1)
      && (|| (d.0 == r + Forward(p) && (d.1 == c - 1 || d.1 == c + 1) && At(b, d.0, d.1) != Empty)
          || (d.0 == r + Forward(p) && d.1 == c)
          || ((r == 1 || r == 6) && d.0 == r + 2 * Forward(p) && d.1 == c))
    ensures d in PawnMoves(b, r, c, p) ==> (d.0 - r) * Forward(p) > 0
  {
  }

  predicate IsKnightJump(i: int, j: int) {
    ((i == 1 || i == -1) && (j == 2 || j == -2)) || ((i == 2 || i == -2) && (j == 1 || j == -1))
  }

  /** Knight.calc_moves: the eight jumps that pass IsValidAttack. */
  function KnightMoves(b: ChessBoard, r: int, c: int, p: Side): (m: set<Square>)
    requires |b.cells| == 64
    ensures forall d | d in m :: IsValidAttack(b, p, d.0, d.1)
  {
    set t | 0 <= t < 8 && IsValidAttack(b, p, r + KnightOffsets[t].0, c + KnightOffsets[t].1)
      :: (r + KnightOffsets[t].0, c + KnightOffsets[t].1)
  }

  /** Where a given jump sits in the table of knight offsets. */
  function KnightSlot(i: int, j: int): (t: int)
    requires IsKnightJump(i, j)
    ensures 0 <= t < 8 && KnightOffsets[t] == (i, j)
  {
    if i == -2 then (if j == -1 then 0 else 1)
    else if i == -1 then (if j == -2 then 2 else 3)
    else if i == 1 then (if j == -2 then 4 else 5)
    else (if j == -1 then 6 else 7)
  }

  /** A square is a knight destination exactly when it is a knight's jump
      away and passes IsValidAttack. */
  lemma KnightMovesSpec(b: ChessBoard, r: int, c: int, p: Side, d: Square)
    requires |b.cells| == 64
    ensures d in KnightMoves(b, r, c, p) <==> IsKnightJump(d.0 - r, d.1 - c) && IsValidAttack(b, p, d.0, d.1)
  {
    if IsKnightJump(d.0 - r, d.1 - c) {
      var t := KnightSlot(d.0 - r, d.1 - c);
      assert d == (r + KnightOffsets[t].0, c + KnightOffsets[t].1);
    }
  }

  /** Distance along a coordinate moving by `d` from `x0` to `x`. */
  function Dist(x: int, x0: int, d: int): int {
    if d == 1 then x - x0 else if d == -1 then x0 - x else 0
  }

  /** How many steps from (r, c) along (dr, dc) a square would be, were it on the ray. */
  function RayIndex(r: int, c: int, dr: int, dc: int, d: Square): int {
    if dr != 0 then Dist(d.0, r, dr) else Dist(d.1, c, dc)
  }

  /** `d` lies on the ray from (r, c) along (dr, dc), strictly after (r, c). */
  predicate OnRay(r: int, c: int, dr: int, dc: int, d: Square) {
    RayIndex(r, c, dr, dc, d) >= 1 && d == RaySquare(r, c, dr, dc, RayIndex(r, c, dr, dc, d))
  }

  lemma RayIndexOf(r: int, c: int, dr: int, dc: int, j: int)
    requires UnitDir(dr, dc)
    ensures RayIndex(r, c, dr, dc, RaySquare(r, c, dr, dc, j)) == j
  {
  }

  /** The first `k` squares after (r, c) along (dr, dc). */
  function RayPrefix(r: int, c: int, dr: int, dc: int, k: int): set<Square> {
    set j | 1 <= j <= k :: RaySquare(r, c, dr, dc, j)
  }

  lemma RayPrefixSnoc(r: int, c: int, dr: int, dc: int, k: nat)
    ensures RayPrefix(r, c, dr, dc, k + 1) == RayPrefix(r, c, dr, dc, k) + {RaySquare(r, c, dr, dc, k + 1)}
  {
  }

  /** One sliding direction: the empty squares up to the first piece or
      the edge, plus that first piece's square when it passes IsValidAttack. */
  function RayMoves(b: ChessBoard, r: int, c: int, dr: int, dc: int, p: Side): (m: set<Square>)
    requires |b.cells| == 64 && UnitDir(dr, dc)
  {
    var k := Gap(b, r, c, dr, dc);
    var stop := RaySquare(r, c, dr, dc, k + 1);
    RayPrefix(r, c, dr, dc, k)
      + (if IsValidAttack(b, p, stop.0, stop.1) then {stop} else {})
  }

  /** A clear stretch never runs past the gap. */
  lemma ClearWithinGap(b: ChessBoard, r: int, c: int, dr: int, dc: int, n: int)
    requires |b.cells| == 64 && UnitDir(dr, dc) && ClearAfter(b, r, c, dr, dc, n)
    ensures n <= Gap(b, r, c, dr, dc)
  {
    var k := Gap(b, r, c, dr, dc);
    var stop := RaySquare(r, c, dr, dc, k + 1);
    assert StopsAt(b, r, c, dr, dc, k + 1);
  }

  /** Every ray destination lies on the ray past empty squares only. */
  lemma RayMovesSound(b: ChessBoard, r: int, c: int, dr: int, dc: int, p: Side, d: Square)
    requires |b.cells| == 64 && UnitDir(dr, dc) && d in RayMoves(b, r, c, dr, dc, p)
    ensures OnRay(r, c, dr, dc, d)
    ensures ClearAfter(b, r, c, dr, dc, RayIndex(r, c, dr, dc, d) - 1)
    ensures IsValidAttack(b, p, d.0, d.1)
  {
    var k := Gap(b, r, c, dr, dc);
    if d == RaySquare(r, c, dr, dc, k + 1) && IsValidAttack(b, p, d.0, d.1) {
      RayIndexOf(r, c, dr, dc, k + 1);
    } else {
      var j :| 1 <= j <= k && d == RaySquare(r, c, dr, dc, j);
      RayIndexOf(r, c, dr, dc, j);
    }
  }

  /** Every square on the ray reached over empty squares that passes
      IsValidAttack is a ray destination. */
  lemma RayMovesComplete(b: ChessBoard, r: int, c: int, dr: int, dc: int, p: Side, d: Square)
    requires |b.cells| == 64 && UnitDir(dr, dc)
    requires OnRay(r, c, dr, dc, d)
    requires ClearAfter(b, r, c, dr, dc, RayIndex(r, c, dr, dc, d) - 1)
    requires IsValidAttack(b, p, d.0, d.1)
    ensures d in RayMoves(b, r, c, dr, dc, p)
  {
    var k := Gap(b, r, c, dr, dc);
    var n := RayIndex(r, c, dr, dc, d);
    ClearWithinGap(b, r, c, dr, dc, n - 1);
    assert d == RaySquare(r, c, dr, dc, n);
    if n <= k {
      assert d in RayPrefix(r, c, dr, dc, k);
    } else {
      assert n == k + 1;
    }
  }

  /** A square is a destination along a ray exactly when it lies on the
      ray, every square before it is empty, and it passes IsValidAttack
      itself: empty squares, then at most one capture, then nothing. */
  lemma RayMovesSpec(b: ChessBoard, r: int, c: int, dr: int, dc: int, p: Side, d: Square)
    requires |b.cells| == 64 && UnitDir(dr, dc)
    ensures d in RayMoves(b, r, c, dr, dc, p) <==>
      && OnRay(r, c, dr, dc, d)
      && ClearAfter(b, r, c, dr, dc, RayIndex(r, c, dr, dc, d) - 1)
      && IsValidAttack(b, p, d.0, d.1)
  {
    if d in RayMoves(b, r, c, dr, dc, p) {
      RayMovesSound(b, r, c, dr, dc, p, d);
    } else if OnRay(r, c, dr, dc, d) && ClearAfter(b, r, c, dr, dc, RayIndex(r, c, dr, dc, d) - 1) {
      if IsValidAttack(b, p, d.0, d.1) {
        RayMovesComplete(b, r, c, dr, dc, p, d);
      }
    }
  }

  /** The source's `while True` walk along one direction. */
  method RayWalk(b: ChessBoard, r: int, c: int, dr: int, dc: int, p: Side) returns (moves: set<Square>)
    requires |b.cells| == 64 && UnitDir(dr, dc)
    ensures moves == RayMoves(b, r, c, dr, dc, p)
  {
    moves := {};
    var r2, c2 := r + dr, c + dc;
    ghost var k: nat := 0;
    while true
      invariant (r2, c2) == RaySquare(r, c, dr, dc, k + 1)
      invariant ClearAfter(b, r, c, dr, dc, k)
      invariant moves == RayPrefix(r, c, dr, dc, k)
      decreases Reach(r2, dr) + Reach(c2, dc)
    {
      if IsValidAttack(b, p, r2, c2) {
        if At(b, r2, c2) != Empty {
          GapUnique(b, r, c, dr, dc, k);
          moves := moves + {(r2, c2)};
          return;
        }
      } else {
        GapUnique(b, r, c, dr, dc, k);
        return;
      }
      ClearAfterExtend(b, r, c, dr, dc, k);
      RayPrefixSnoc(r, c, dr, dc, k);
      moves := moves + {(r2, c2)};
      r2, c2 := r2 + dr, c2 + dc;
      k := k + 1;
    }
  }

  /** Bishop.calc_moves: the four diagonal walks, in the source's order. */
  function BishopMoves(b: ChessBoard, r: int, c: int, p: Side): (m: set<Square>)
    requires |b.cells| == 64
  {
    RayMoves(b, r, c, -1, -1, p) + RayMoves(b, r, c, -1, 1, p)
      + RayMoves(b, r, c, 1, -1, p) + RayMoves(b, r, c, 1, 1, p)
  }

  /** Rook.calc_moves: for each sign, the column walk and then the row walk. */
  function RookMoves(b: ChessBoard, r: int, c: int, p: Side): (m: set<Square>)
    requires |b.cells| == 64
  {
    RayMoves(b, r, c, -1, 0, p) + RayMoves(b, r, c, 0, -1, p)
      + RayMoves(b, r, c, 1, 0, p) + RayMoves(b, r, c, 0, 1, p)
  }

  /** Queen.calc_moves: the rook's four walks, then the four diagonals;
      it reaches exactly what a rook and a bishop on its square would. */
  function QueenMoves(b: ChessBoard, r: int, c: int, p: Side): (m: set<Square>)
    requires |b.cells| == 64
    ensures m == RookMoves(b, r, c, p) + BishopMoves(b, r, c, p)
  {
    RayMoves(b, r, c, -1, 0, p) + RayMoves(b, r, c, 0, -1, p)
      + RayMoves(b, r, c, 1, 0, p) + RayMoves(b, r, c, 0, 1, p)
      + RayMoves(b, r, c, -1, -1, p) + RayMoves(b, r, c, -1, 1, p)
      + RayMoves(b, r, c, 1, -1, p) + RayMoves(b, r, c, 1, 1, p)
  }

  /** `d` is reached from (r, c) along (dr, dc): it lies on the ray, every
      square before it is empty, and it passes IsValidAttack itself. */
  ghost predicate SlideTarget(b: ChessBoard, r: int, c: int, dr: int, dc: int, p: Side, d: Square)
    requires |b.cells| == 64
  {
    && OnRay(r, c, dr, dc, d)
    && ClearAfter(b, r, c, dr, dc, RayIndex(r, c, dr, dc, d) - 1)
    && IsValidAttack(b, p, d.0, d.1)
  }

  /** RayMovesSpec in terms of SlideTarget. */
  lemma RaySlide(b: ChessBoard, r: int, c: int, dr: int, dc: int, p: Side, d: Square)
    requires |b.cells| == 64 && UnitDir(dr, dc)
    ensures d in RayMoves(b, r, c, dr, dc, p) <==> SlideTarget(b, r, c, dr, dc, p, d)
  {
    RayMovesSpec(b, r, c, dr, dc, p, d);
  }

  /** A square is a bishop destination exactly when the bishop reaches it
      along one of the four diagonals over empty squares and it passes
      IsValidAttack. */
  lemma BishopMovesSpec(b: ChessBoard, r: int, c: int, p: Side, d: Square)
    requires |b.cells| == 64
    ensures d in BishopMoves(b, r, c, p) <==>
      || SlideTarget(b, r, c, -1, -1, p, d) || SlideTarget(b, r, c, -1, 1, p, d)
      || SlideTarget(b, r, c, 1, -1, p, d) || SlideTarget(b, r, c, 1, 1, p, d)
  {
    RaySlide(b, r, c, -1, -1, p, d);
    RaySlide(b, r, c, -1, 1, p, d);
    RaySlide(b, r, c, 1, -1, p, d);
    RaySlide(b, r, c, 1, 1, p, d);
  }

  /** Every bishop destination passes IsValidAttack and lies on a diagonal
      through the bishop's square, other than that square. */
  lemma BishopMovesOnDiagonal(b: ChessBoard, r: int, c: int, p: Side, d: Square)
    requires |b.cells| == 64 && d in BishopMoves(b, r, c, p)
    ensures IsValidAttack(b, p, d.0, d.1)
    ensures d != (r, c) && (d.0 - r == d.1 - c || d.0 - r == c - d.1)
  {
    RayMovesSpec(b, r, c, -1, -1, p, d);
    RayMovesSpec(b, r, c, -1, 1, p, d);
    RayMovesSpec(b, r, c, 1, -1, p, d);
    RayMovesSpec(b, r, c, 1, 1, p, d);
  }

  /** A square is a rook destination exactly when the rook reaches it
      along its row or column over empty squares and it passes
      IsValidAttack. */
  lemma RookMovesSpec(b: ChessBoard, r: int, c: int, p: Side, d: Square)
    requires |b.cells| == 64
    ensures d in RookMoves(b, r, c, p) <==>
      || SlideTarget(b, r, c, -1, 0, p, d) || SlideTarget(b, r, c, 0, -1, p, d)
      || SlideTarget(b, r, c, 1, 0, p, d) || SlideTarget(b, r, c, 0, 1, p, d)
  {
    RaySlide(b, r, c, -1, 0, p, d);
    RaySlide(b, r, c, 0, -1, p, d);
    RaySlide(b, r, c, 1, 0, p, d);
    RaySlide(b, r, c, 0, 1, p, d);
  }

  /** Every rook destination passes IsValidAttack and shares the rook's
      row or column, other than its own square. */
  lemma RookMovesOnLine(b: ChessBoard, r: int, c: int, p: Side, d: Square)
    requires |b.cells| == 64 && d in RookMoves(b, r, c, p)
    ensures IsValidAttack(b, p, d.0, d.1)
    ensures d != (r, c) && (d.0 == r || d.1 == c)
  {
    RayMovesSpec(b, r, c, -1, 0, p, d);
    RayMovesSpec(b, r, c, 0, -1, p, d);
    RayMovesSpec(b, r, c, 1, 0, p, d);
    RayMovesSpec(b, r, c, 0, 1, p, d);
  }

  /** The nine offsets the source's King loop visits, its own square included. */
  const KingSteps: seq<(int, int)> :=
    [(-1, -1), (-1, 0), (-1, 1), (0, -1), (0, 0), (0, 1), (1, -1), (1, 0), (1, 1)]

  /** King.calc_moves: neighbouring squares that pass IsValidAttack and
      that are not attacked, judged from the side to move's perspective
      (the static_player query). */
  function KingMoves(b: ChessBoard, r: int, c: int, p: Side): (m: set<Square>)
    requires |b.cells| == 64
    ensures forall d | d in m :: IsValidAttack(b, p, d.0, d.1)
  {
    set t | 0 <= t < 9 && KingTarget(b, p, (r + KingSteps[t].0, c + KingSteps[t].1))
      :: (r + KingSteps[t].0, c + KingSteps[t].1)
  }

  /** A square the king may step onto: it passes IsValidAttack and is not attacked. */
  predicate KingTarget(b: ChessBoard, p: Side, d: Square)
    requires |b.cells| == 64
  {
    IsValidAttack(b, p, d.0, d.1) && !IsSquareAttacked(b, d.0, d.1, true)
  }

  /** A square is a king destination exactly when it is within one row
      and one column, passes IsValidAttack, and is not attacked. */
  lemma KingMovesSpec(b: ChessBoard, r: int, c: int, p: Side, d: Square)
    requires |b.cells| == 64
    ensures d in KingMoves(b, r, c, p) <==>
      && -1 <= d.0 - r <= 1 && -1 <= d.1 - c <= 1
      && IsValidAttack(b, p, d.0, d.1)
      && !IsSquareAttacked(b, d.0, d.1, true)
  {
    var (i, j) := (d.0 - r, d.1 - c);
    if -1 <= i <= 1 && -1 <= j <= 1 {
      var t := 3 * (i + 1) + (j + 1);
      assert KingSteps[t] == (i, j);
      assert d == (r + KingSteps[t].0, c + KingSteps[t].1);
    }
    assert d in KingMoves(b, r, c, p) <==> (-1 <= i <= 1 && -1 <= j <= 1 && KingTarget(b, p, d));
  }

  /** A king standing on its own square never lists that square, so the
      original's assertion holds whenever the king is the mover's piece. */
  lemma KingNeverStays(b: ChessBoard, r: int, c: int, p: Side)
    requires |b.cells| == 64 && OnBoard(r, c) && Owned(At(b, r, c), p)
    ensures (r, c) !in KingMoves(b, r, c, p)
  {
    KingMovesSpec(b, r, c, p, (r, c));
  }

  /** calc_moves dispatched on the piece's kind. The map's attacker is the
      piece's own square and every destination passes IsValidAttack, so
      no destination holds a king or a piece of the mover. */
  function CalcMoves(b: ChessBoard, pc: ChessPiece): (m: MoveMap)
    requires |b.cells| == 64 && OnBoard(pc.row, pc.col)
    ensures m.attacker == (pc.row, pc.col)
    ensures forall d | d in m.defender :: IsValidAttack(b, pc.player, d.0, d.1)
  {
    var (r, c, p) := (pc.row, pc.col, pc.player);
    var dests := match pc.kind
      case Pawn => PawnMoves(b, r, c, p)
      case Knight => KnightMoves(b, r, c, p)
      case Bishop =>
        (forall d | d in BishopMoves(b, r, c, p) ensures IsValidAttack(b, p, d.0, d.1) {
          BishopMovesSpec(b, r, c, p, d);
        }
        BishopMoves(b, r, c, p))
      case Rook =>
        (forall d | d in RookMoves(b, r, c, p) ensures IsValidAttack(b, p, d.0, d.1) {
          RookMovesSpec(b, r, c, p, d);
        }
        RookMoves(b, r, c, p))
      case Queen =>
        (forall d | d in QueenMoves(b, r, c, p) ensures IsValidAttack(b, p, d.0, d.1) {
          if d in RookMoves(b, r, c, p) { RookMovesSpec(b, r, c, p, d); }
          else { BishopMovesSpec(b, r, c, p, d); }
        }
        QueenMoves(b, r, c, p))
      case King => KingMoves(b, r, c, p);
    MoveMap((r, c), dests)
  }
}
