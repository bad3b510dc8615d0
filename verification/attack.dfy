/**
  The attack detector: whether a square is threatened by the side
  opposing its defender. The defender is the owner of the square when it
  is occupied and the query is not "static", and otherwise the side to
  move. The original flips the board's turn to the defender and back; here
  the defender is computed and passed explicitly, so nothing is mutated.
 */
module Attack {

  import opened Occupants
  import opened Board
  import opened Rays

  /** The square (r, c) exists and holds exactly `o`. */
  predicate HoldsAt(b: ChessBoard, r: int, c: int, o: Occupant)
    requires |b.cells| == 64
  {
    OnBoard(r, c) && At(b, r, c) == o
  }

  /** The eight neighbours, in the order the source's nested loops visit them. */
  const KingOffsets: seq<(int, int)> :=
    [(-1, -1), (-1, 0), (-1, 1), (0, -1), (0, 1), (1, -1), (1, 0), (1, 1)]

  /** The eight knight jumps, in the order the source's nested loops visit them. */
  const KnightOffsets: seq<(int, int)> :=
    [(-2, -1), (-2, 1), (-1, -2), (-1, 2), (1, -2), (1, 2), (2, -1), (2, 1)]

  const Orthogonal: seq<(int, int)> := [(-1, 0), (1, 0), (0, -1), (0, 1)]

  const Diagonal: seq<(int, int)> := [(-1, -1), (-1, 1), (1, -1), (1, 1)]

  function Defender(b: ChessBoard, r: int, c: int, staticPlayer: bool): Side
    requires |b.cells| == 64 && OnBoard(r, c)
  {
    if At(b, r, c).Piece? && !staticPlayer then At(b, r, c).side else b.turn
  }

  predicate KingAdjacent(b: ChessBoard, r: int, c: int, enemy: Side)
    requires |b.cells| == 64
  {
    exists t | 0 <= t < 8 :: HoldsAt(b, r + KingOffsets[t].0, c + KingOffsets[t].1, Piece(enemy, King))
  }

  /** The row an attacking pawn stands on: one row above a side-1 defender,
      one row below a side-2 defender. */
  function PawnRow(r: int, defender: Side): int {
    if defender == Two then r - 1 else r + 1
  }

  predicate PawnAttacks(b: ChessBoard, r: int, c: int, defender: Side)
    requires |b.cells| == 64
  {
    var pawn := Piece(Opponent(defender), Pawn);
    HoldsAt(b, PawnRow(r, defender), c - 1, pawn) || HoldsAt(b, PawnRow(r, defender), c + 1, pawn)
  }

  predicate KnightAttacks(b: ChessBoard, r: int, c: int, enemy: Side)
    requires |b.cells| == 64
  {
    exists t | 0 <= t < 8 :: HoldsAt(b, r + KnightOffsets[t].0, c + KnightOffsets[t].1, Piece(enemy, Knight))
  }

  /** The first square after (r, c) along (dr, dc) that is occupied or off the board. */
  function FirstHit(b: ChessBoard, r: int, c: int, dr: int, dc: int): Square
    requires |b.cells| == 64 && UnitDir(dr, dc)
  {
    RaySquare(r + dr, c + dc, dr, dc, Scan(b, r + dr, c + dc, dr, dc))
  }

  /** The first piece along the ray is an enemy of kind `kind` or an enemy queen. */
  predicate SliderAttacks(b: ChessBoard, r: int, c: int, dr: int, dc: int, enemy: Side, kind: Kind)
    requires |b.cells| == 64 && UnitDir(dr, dc)
  {
    var (x, y) := FirstHit(b, r, c, dr, dc);
    OnBoard(x, y) && (At(b, x, y) == Piece(enemy, kind) || At(b, x, y) == Piece(enemy, Queen))
  }

  /** (r, c) is attacked by the opponent of `defender`: an adjacent king,
      a pawn on the forward diagonals, a knight a jump away, or a rook,
      bishop or queen as the first piece along a line. */
  predicate AttackedBy(b: ChessBoard, r: int, c: int, defender: Side)
    requires |b.cells| == 64
  {
    var enemy := Opponent(defender);
    || KingAdjacent(b, r, c, enemy)
    || PawnAttacks(b, r, c, defender)
    || KnightAttacks(b, r, c, enemy)
    || (exists t | 0 <= t < 4 :: SliderAttacks(b, r, c, Orthogonal[t].0, Orthogonal[t].1, enemy, Rook))
    || (exists t | 0 <= t < 4 :: SliderAttacks(b, r, c, Diagonal[t].0, Diagonal[t].1, enemy, Bishop))
  }

  /** is_square_attacked as a pure function of the board. */
  predicate IsSquareAttacked(b: ChessBoard, r: int, c: int, staticPlayer: bool)
    requires |b.cells| == 64 && OnBoard(r, c)
    ensures At(b, r, c).Piece? && !staticPlayer ==>
      (IsSquareAttacked(b, r, c, staticPlayer) <==> AttackedBy(b, r, c, At(b, r, c).side))
    ensures At(b, r, c) == Empty || staticPlayer ==>
      (IsSquareAttacked(b, r, c, staticPlayer) <==> AttackedBy(b, r, c, b.turn))
  {
    AttackedBy(b, r, c, Defender(b, r, c, staticPlayer))
  }

  /** One ray of the source's rook/queen and bishop/queen scans: walk until
      the board edge, stop at the first piece, and report whether it is an
      enemy of kind `kind` or an enemy queen. */
  method SliderScan(b: ChessBoard, r: int, c: int, dr: int, dc: int, enemy: Side, kind: Kind)
    returns (hit: bool)
    requires |b.cells| == 64 && UnitDir(dr, dc)
    ensures hit == SliderAttacks(b, r, c, dr, dc, enemy, kind)
  {
    var ar, ac := r + dr, c + dc;
    ghost var k := 0;
    hit := false;
    while OnBoard(ar, ac)
      invariant (ar, ac) == RaySquare(r + dr, c + dc, dr, dc, k)
      invariant 0 <= k && ClearTo(b, r + dr, c + dc, dr, dc, k)
      decreases Reach(ar, dr) + Reach(ac, dc)
    {
      if At(b, ar, ac) == Piece(enemy, kind) || At(b, ar, ac) == Piece(enemy, Queen) {
        hit := true;
        break;
      }
      if At(b, ar, ac) != Empty {
        break;
      }
      ClearExtend(b, r + dr, c + dc, dr, dc, k);
      ar, ac := ar + dr, ac + dc;
      k := k + 1;
    }
    FirstHitAt(b, r, c, dr, dc, k);
  }

  /** A walk that is clear for `k` squares and stops there first hits its `k`-th square. */
  lemma FirstHitAt(b: ChessBoard, r: int, c: int, dr: int, dc: int, k: nat)
    requires |b.cells| == 64 && UnitDir(dr, dc)
    requires ClearTo(b, r + dr, c + dc, dr, dc, k) && StopsAt(b, r + dr, c + dc, dr, dc, k)
    ensures FirstHit(b, r, c, dr, dc) == RaySquare(r + dr, c + dc, dr, dc, k)
  {
    ScanUnique(b, r + dr, c + dc, dr, dc, k);
  }

  lemma ClearExtend(b: ChessBoard, r: int, c: int, dr: int, dc: int, k: nat)
    requires |b.cells| == 64 && UnitDir(dr, dc) && ClearTo(b, r, c, dr, dc, k)
    requires OnBoard(RaySquare(r, c, dr, dc, k).0, RaySquare(r, c, dr, dc, k).1)
    requires At(b, RaySquare(r, c, dr, dc, k).0, RaySquare(r, c, dr, dc, k).1) == Empty
    ensures ClearTo(b, r, c, dr, dc, k + 1)
    ensures RaySquare(r, c, dr, dc, k + 1) == (RaySquare(r, c, dr, dc, k).0 + dr, RaySquare(r, c, dr, dc, k).1 + dc)
  {
  }

  /** The source's neighbour loop looking for the enemy king. */
  method KingScan(b: ChessBoard, r: int, c: int, enemy: Side) returns (found: bool)
    requires |b.cells| == 64
    ensures found == KingAdjacent(b, r, c, enemy)
  {
    found := false;
    var t := 0;
    while t < 8
      invariant 0 <= t <= 8
      invariant found <==> exists u | 0 <= u < t :: HoldsAt(b, r + KingOffsets[u].0, c + KingOffsets[u].1, Piece(enemy, King))
    {
      var (i, j) := KingOffsets[t];
      if OnBoard(r + i, c + j) && At(b, r + i, c + j) == Piece(enemy, King) {
        found := true;
        break;
      }
      t := t + 1;
    }
  }

  /** The source's knight-jump loop looking for an enemy knight. */
  method KnightScan(b: ChessBoard, r: int, c: int, enemy: Side) returns (found: bool)
    requires |b.cells| == 64
    ensures found == KnightAttacks(b, r, c, enemy)
  {
    found := false;
    var t := 0;
    while t < 8
      invariant 0 <= t <= 8
      invariant found <==> exists u | 0 <= u < t :: HoldsAt(b, r + KnightOffsets[u].0, c + KnightOffsets[u].1, Piece(enemy, Knight))
    {
      var (i, j) := KnightOffsets[t];
      if OnBoard(r + i, c + j) && At(b, r + i, c + j) == Piece(enemy, Knight) {
        found := true;
        break;
      }
      t := t + 1;
    }
  }

  /** The source's four line walks (rooks and queens) or four diagonal
      walks (bishops and queens). */
  method LinesScan(b: ChessBoard, r: int, c: int, dirs: seq<(int, int)>, enemy: Side, kind: Kind)
    returns (found: bool)
    requires |b.cells| == 64
    requires forall u | 0 <= u < |dirs| :: UnitDir(dirs[u].0, dirs[u].1)
    ensures found <==> exists u | 0 <= u < |dirs| :: SliderAttacks(b, r, c, dirs[u].0, dirs[u].1, enemy, kind)
  {
    found := false;
    var t := 0;
    while t < |dirs|
      invariant 0 <= t <= |dirs|
      invariant found <==> exists u | 0 <= u < t :: SliderAttacks(b, r, c, dirs[u].0, dirs[u].1, enemy, kind)
    {
      var hit := SliderScan(b, r, c, dirs[t].0, dirs[t].1, enemy, kind);
      found := found || hit;
      t := t + 1;
    }
  }

  /** The defender as the source finds it from the square's letter case:
      lower case is side 1, upper case side 2, '.' leaves the turn. */
  method DefenderScan(b: ChessBoard, r: int, c: int, staticPlayer: bool) returns (defender: Side)
    requires |b.cells| == 64 && OnBoard(r, c)
    ensures defender == Defender(b, r, c, staticPlayer)
  {
    var ch := GetSquare(b, r, c);
    DecodeCase(ch);
    defender := b.turn;
    if !staticPlayer && 'a' <= ch <= 'z' {
      defender := One;
    } else if !staticPlayer && 'A' <= ch <= 'Z' {
      defender := Two;
    }
  }

  /** is_square_attacked step by step as the source runs it: establish the
      defender, look for an adjacent king, for pawns, for knights, then
      walk the lines for rooks and queens and the diagonals for bishops
      and queens. */
  method IsSquareAttackedScan(b: ChessBoard, r: int, c: int, staticPlayer: bool)
    returns (attacked: bool)
    requires |b.cells| == 64 && OnBoard(r, c)
    ensures attacked == IsSquareAttacked(b, r, c, staticPlayer)
  {
    var defender := DefenderScan(b, r, c, staticPlayer);
    var enemy := Opponent(defender);
    attacked := KingScan(b, r, c, enemy);
    var pr := PawnRow(r, defender);
    if OnBoard(pr, c - 1) && At(b, pr, c - 1) == Piece(enemy, Pawn) {
      attacked := true;
    } else if OnBoard(pr, c + 1) && At(b, pr, c + 1) == Piece(enemy, Pawn) {
      attacked := true;
    }
    var knight := KnightScan(b, r, c, enemy);
    var line := LinesScan(b, r, c, Orthogonal, enemy, Rook);
    var diagonal := LinesScan(b, r, c, Diagonal, enemy, Bishop);
    attacked := attacked || knight || line || diagonal;
  }

  lemma {:induction false} LastIndexFound(cells: seq<Occupant>, o: Occupant, n: nat)
    requires n <= |cells| && o in cells[..n]
    ensures 0 <= LastIndex(cells, o, n) < n && cells[LastIndex(cells, o, n)] == o
    decreases n
  {
    if cells[n - 1] != o {
      assert cells[..n] == cells[..n - 1] + [cells[n - 1]];
      LastIndexFound(cells, o, n - 1);
    }
  }

  /** The last index below `n` holding `o`: the source's king search keeps
      overwriting its answer, so the last match in row-major order wins. */
  function LastIndex(cells: seq<Occupant>, o: Occupant, n: nat): int
    requires n <= |cells|
    decreases n
  {
    if n == 0 then -1
    else if cells[n - 1] == o then n - 1
    else LastIndex(cells, o, n - 1)
  }

  /** Two distinct cells holding `o` make its count at least two. */
  lemma TwoCopies(cells: seq<Occupant>, i: int, j: int, o: Occupant)
    requires 0 <= i < |cells| && 0 <= j < |cells| && i != j
    requires cells[i] == o && cells[j] == o
    ensures multiset(cells)[o] >= 2
  {
    var other := if o == Empty then Piece(One, Pawn) else Empty;
    var u := cells[i := other];
    assert multiset(u) == multiset(cells) - multiset{o} + multiset{other};
    assert u[j] == o;
    assert o in multiset(u);
  }

  /** The square of the king of side `s`: it exists and is unique on a valid board. */
  function KingSquare(b: ChessBoard, s: Side): (sq: Square)
    requires Valid(b)
    ensures OnBoard(sq.0, sq.1) && At(b, sq.0, sq.1) == Piece(s, King)
    ensures forall i, j | OnBoard(i, j) && At(b, i, j) == Piece(s, King) :: (i, j) == sq
  {
    assert KingCount(b.cells, One) == 1 && KingCount(b.cells, Two) == 1;
    assert KingCount(b.cells, s) == 1 by { if s == One {} else {} }
    assert Piece(s, King) in multiset(b.cells);
    assert b.cells[..64] == b.cells;
    LastIndexFound(b.cells, Piece(s, King), 64);
    var k := LastIndex(b.cells, Piece(s, King), 64);
    var sq := (k / 8, k % 8);
    assert Index(sq.0, sq.1) == k;
    forall i, j | OnBoard(i, j) && At(b, i, j) == Piece(s, King)
      ensures (i, j) == sq
    {
      if Index(i, j) != k {
        TwoCopies(b.cells, Index(i, j), k, Piece(s, King));
      }
    }
    sq
  }

  /** is_attacking_king: with `flip` false, whether the side to move
      threatens the opponent's king; with `flip` true, whether the side to
      move's own king is threatened. */
  function IsAttackingKing(b: ChessBoard, flip: bool): (attacked: bool)
    requires Valid(b)
    ensures var s := if flip then b.turn else Opponent(b.turn);
            var (kr, kc) := KingSquare(b, s);
            attacked <==> AttackedBy(b, kr, kc, s)
  {
    var s := if flip then b.turn else Opponent(b.turn);
    var (kr, kc) := KingSquare(b, s);
    IsSquareAttacked(b, kr, kc, false)
  }
}
