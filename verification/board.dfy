/**
  The immutable board value: 64 occupants in row-major order (row 0 is
  the rank nearest side 1) and the side to move. A board is only ever
  built through Construct or DoMove, both of which re-check the
  invariant `Valid`.
 */
module Board {

  import opened Results
  import opened Occupants
  import Helper

  type Square = (int, int)

  datatype ChessBoard = ChessBoard(turn: Side, cells: seq<Occupant>)

  /** Why construction refuses a position, in the order the checks run. */
  datatype FormatError =
    | WrongRowCount
    | WrongRowLength
    | BadTurn
    | BadCharacter
    | PieceCountOutOfRange(side: Side)
    | KingCountNotOne(side: Side)

  /** Why do_move refuses a move. */
  datatype MoveError =
    | BadToken
    | NotMoversPiece
    | OwnPieceAtDestination
    | ResultInvalid(reason: FormatError)

  predicate OnBoard(r: int, c: int) {
    0 <= r < 8 && 0 <= c < 8
  }

  function Index(r: int, c: int): int {
    8 * r + c
  }

  /** Number of occupants owned by `s`, counted left to right as
      get_piece_count scans the text. */
  function CountOwned(cells: seq<Occupant>, s: Side): nat
    decreases |cells|
  {
    if cells == [] then 0
    else CountOwned(cells[..|cells| - 1], s) + (if Owned(cells[|cells| - 1], s) then 1 else 0)
  }

  function KingCount(cells: seq<Occupant>, s: Side): nat {
    multiset(cells)[Piece(s, King)]
  }

  /** The construction invariant: an 8x8 grid, each side owning between 1
      and 16 pieces, and exactly one king per side. */
  predicate Valid(b: ChessBoard) {
    && |b.cells| == 64
    && 0 < CountOwned(b.cells, One) <= 16
    && 0 < CountOwned(b.cells, Two) <= 16
    && KingCount(b.cells, One) == 1
    && KingCount(b.cells, Two) == 1
  }

  function At(b: ChessBoard, r: int, c: int): Occupant
    requires |b.cells| == 64 && OnBoard(r, c)
  {
    b.cells[Index(r, c)]
  }

  predicate Shaped(rows: seq<string>) {
    |rows| == 8 && forall r | 0 <= r < |rows| :: |rows[r]| == 8
  }

  predicate AllOccupantChars(rows: seq<string>)
    requires Shaped(rows)
  {
    forall r, c | 0 <= r < 8 && 0 <= c < 8 :: IsOccupantChar(rows[r][c])
  }

  function CellsOf(rows: seq<string>): (cells: seq<Occupant>)
    requires Shaped(rows)
    ensures |cells| == 64
    ensures forall r, c | 0 <= r < 8 && 0 <= c < 8 :: cells[Index(r, c)] == Decode(rows[r][c])
  {
    var cells := seq(64, k requires 0 <= k < 64 => Decode(rows[k / 8][k % 8]));
    assert forall r, c | 0 <= r < 8 && 0 <= c < 8 :: (Index(r, c)) / 8 == r && (Index(r, c)) % 8 == c;
    cells
  }

  /** The piece-count and king-count half of sanity_check, on a grid that
      is already 8x8 and made of valid characters. */
  function CheckCounts(b: ChessBoard): (r: Result<ChessBoard, FormatError>)
    requires |b.cells| == 64
    ensures r.Ok? <==> Valid(b)
    ensures r.Ok? ==> r.value == b
  {
    if !(0 < CountOwned(b.cells, One) <= 16) then Err(PieceCountOutOfRange(One))
    else if !(0 < CountOwned(b.cells, Two) <= 16) then Err(PieceCountOutOfRange(Two))
    else if KingCount(b.cells, One) != 1 then Err(KingCountNotOne(One))
    else if KingCount(b.cells, Two) != 1 then Err(KingCountNotOne(Two))
    else Ok(b)
  }

  /** ChessBoard.__init__ with sanity_check, on the turn character and the
      eight row tokens of the position text. */
  function Construct(turnChar: char, rows: seq<string>): (r: Result<ChessBoard, FormatError>)
    ensures r.Ok? <==>
      && Shaped(rows)
      && (turnChar == '1' || turnChar == '2')
      && AllOccupantChars(rows)
      && Valid(ChessBoard(ParseSide(turnChar).value, CellsOf(rows)))
    ensures r.Ok? ==> Valid(r.value) && SideChar(r.value.turn) == turnChar
    ensures r.Ok? ==> forall i, j | 0 <= i < 8 && 0 <= j < 8 :: At(r.value, i, j) == Decode(rows[i][j])
  {
    if |rows| != 8 then Err(WrongRowCount)
    else if exists r | 0 <= r < 8 :: |rows[r]| != 8 then Err(WrongRowLength)
    else if ParseSide(turnChar).None? then Err(BadTurn)
    else if !AllOccupantChars(rows) then Err(BadCharacter)
    else CheckCounts(ChessBoard(ParseSide(turnChar).value, CellsOf(rows)))
  }

  /** The row tokens of a board (its repr without the turn character). */
  function RowsOf(b: ChessBoard): (rows: seq<string>)
    requires |b.cells| == 64
    ensures Shaped(rows)
    ensures forall r, c | 0 <= r < 8 && 0 <= c < 8 :: rows[r][c] == OccupantChar(At(b, r, c))
  {
    seq(8, r requires 0 <= r < 8 => seq(8, c requires 0 <= c < 8 => OccupantChar(b.cells[Index(r, c)])))
  }

  lemma CellsEqual(x: seq<Occupant>, y: seq<Occupant>)
    requires |x| == 64 && |y| == 64
    requires forall r, c | 0 <= r < 8 && 0 <= c < 8 :: x[Index(r, c)] == y[Index(r, c)]
    ensures x == y
  {
    forall k | 0 <= k < 64
      ensures x[k] == y[k]
    {
      var r, c := k / 8, k % 8;
      assert Index(r, c) == k;
    }
  }

  /** Writing a valid board out and constructing it again gives the same board. */
  lemma ConstructRowsOf(b: ChessBoard)
    requires Valid(b)
    ensures Construct(SideChar(b.turn), RowsOf(b)) == Ok(b)
  {
    var rows := RowsOf(b);
    forall r, c | 0 <= r < 8 && 0 <= c < 8
      ensures IsOccupantChar(rows[r][c])
    {
      DecodeOccupantChar(At(b, r, c));
    }
    forall r, c | 0 <= r < 8 && 0 <= c < 8
      ensures CellsOf(rows)[Index(r, c)] == b.cells[Index(r, c)]
    {
      DecodeOccupantChar(At(b, r, c));
    }
    CellsEqual(CellsOf(rows), b.cells);
  }

  /** A constructed board writes back out as exactly its input. */
  lemma RowsOfConstruct(turnChar: char, rows: seq<string>)
    requires Construct(turnChar, rows).Ok?
    ensures SideChar(Construct(turnChar, rows).value.turn) == turnChar
    ensures RowsOf(Construct(turnChar, rows).value) == rows
  {
    var b := Construct(turnChar, rows).value;
    var back := RowsOf(b);
    forall r | 0 <= r < 8
      ensures back[r] == rows[r]
    {
      forall c | 0 <= c < 8
        ensures back[r][c] == rows[r][c]
      {
        OccupantCharDecode(rows[r][c]);
      }
    }
  }

  /** get_square: the character at a square. */
  function GetSquare(b: ChessBoard, r: int, c: int): (ch: char)
    requires |b.cells| == 64 && OnBoard(r, c)
    ensures IsOccupantChar(ch) && Decode(ch) == At(b, r, c)
  {
    DecodeOccupantChar(At(b, r, c));
    OccupantChar(At(b, r, c))
  }

  /** get_piece_count for a side. */
  function PieceCount(b: ChessBoard, s: Side): (n: nat)
    requires |b.cells| == 64
    ensures n == |set k | 0 <= k < 64 && Owned(b.cells[k], s)|
  {
    OwnedIndices(b.cells, s, 64);
    assert b.cells[..64] == b.cells;
    CountOwned(b.cells, s)
  }

  lemma {:induction false} OwnedIndices(cells: seq<Occupant>, s: Side, n: nat)
    requires n <= |cells|
    ensures CountOwned(cells[..n], s) == |set k | 0 <= k < n && Owned(cells[k], s)|
  {
    if n > 0 {
      OwnedIndices(cells, s, n - 1);
      assert cells[..n][..n - 1] == cells[..n - 1];
      var prev := set k | 0 <= k < n - 1 && Owned(cells[k], s);
      var now := set k | 0 <= k < n && Owned(cells[k], s);
      if Owned(cells[n - 1], s) {
        assert now == prev + {n - 1};
      } else {
        assert now == prev;
      }
    }
  }

  /** is_enemy: whether the piece at a square belongs to the side not to move.
      The source tests the character's case against the turn. */
  function IsEnemy(b: ChessBoard, r: int, c: int): (e: bool)
    requires |b.cells| == 64 && OnBoard(r, c)
    ensures e <==> Owned(At(b, r, c), Opponent(b.turn))
  {
    var ch := GetSquare(b, r, c);
    DecodeCase(ch);
    (b.turn == One && 'A' <= ch <= 'Z') || (b.turn == Two && 'a' <= ch <= 'z')
  }

  /** The occupant that lands on the destination: a side-1 pawn reaching
      row 7 or a side-2 pawn reaching row 0 becomes a queen. */
  function Promote(a: Occupant, r2: int): (o: Occupant)
    ensures o.Piece? <==> a.Piece?
    ensures a.Piece? ==> o.side == a.side
    ensures o != a <==> a.Piece? && a.kind == Pawn && r2 == (if a.side == One then 7 else 0)
    ensures o != a ==> o.kind == Queen
  {
    match a
    case Piece(One, Pawn) => if r2 == 7 then Piece(One, Queen) else a
    case Piece(Two, Pawn) => if r2 == 0 then Piece(Two, Queen) else a
    case _ => a
  }

  /** The cells after moving: the source emptied, `placed` on the destination. */
  function MovedCells(cells: seq<Occupant>, i1: int, i2: int, placed: Occupant): (m: seq<Occupant>)
    requires 0 <= i1 < |cells| && 0 <= i2 < |cells| && i1 != i2
    ensures |m| == |cells|
    ensures m[i1] == Empty && m[i2] == placed
    ensures forall k | 0 <= k < |cells| && k != i1 && k != i2 :: m[k] == cells[k]
  {
    cells[i1 := Empty][i2 := placed]
  }

  /** The square a token names (meaningful for accepted tokens). */
  function TokenSquare(t: string): Square
    requires Helper.IsSquareToken(t)
  {
    Helper.DecodeInpt(t)
  }

  /** do_move on the two square tokens of a move: checks the tokens and
      ownership, empties the source, places the (possibly promoted) piece
      on the destination, flips the turn and re-checks the invariant.
      Move geometry is not checked. */
  function DoMove(b: ChessBoard, frm: string, to: string): (r: Result<ChessBoard, MoveError>)
    requires Valid(b)
    ensures r.Ok? ==> Valid(r.value)
    ensures r.Ok? ==> Helper.IsSquareToken(frm) && Helper.IsSquareToken(to)
    ensures r.Ok? ==> Moved(b, TokenSquare(frm), TokenSquare(to), r.value)
  {
    if !(Helper.IsSquareToken(frm) && Helper.IsSquareToken(to)) then Err(BadToken)
    else
      Helper.DecodeEncode(frm);
      Helper.DecodeEncode(to);
      var (r1, c1) := TokenSquare(frm);
      var (r2, c2) := TokenSquare(to);
      var attacking := At(b, r1, c1);
      var defending := At(b, r2, c2);
      if !Owned(attacking, b.turn) then Err(NotMoversPiece)
      else if Owned(defending, b.turn) then Err(OwnPieceAtDestination)
      else
        var cells := MovedCells(b.cells, Index(r1, c1), Index(r2, c2), Promote(attacking, r2));
        MovedCellsMoved(b, (r1, c1), (r2, c2), ChessBoard(Opponent(b.turn), cells));
        match CheckCounts(ChessBoard(Opponent(b.turn), cells))
        case Ok(nb) => Ok(nb)
        case Err(e) => Err(ResultInvalid(e))
  }

  lemma MovedCellsMoved(b: ChessBoard, from: Square, to: Square, after: ChessBoard)
    requires |b.cells| == 64 && OnBoard(from.0, from.1) && OnBoard(to.0, to.1) && from != to
    requires Owned(At(b, from.0, from.1), b.turn)
    requires after.turn == Opponent(b.turn)
    requires after.cells == MovedCells(b.cells, Index(from.0, from.1), Index(to.0, to.1),
                                       Promote(At(b, from.0, from.1), to.0))
    ensures Moved(b, from, to, after)
  {
    forall i, j | OnBoard(i, j) && (i, j) != from && (i, j) != to
      ensures At(after, i, j) == At(b, i, j)
    {
      assert Index(i, j) != Index(from.0, from.1);
      assert Index(i, j) != Index(to.0, to.1);
    }
  }

  /** `after` is `b` with the mover's piece taken from `from` to `to`:
      the source is empty, the destination holds the piece (promoted where
      due), every other square is unchanged and the turn has passed. */
  ghost predicate Moved(b: ChessBoard, from: Square, to: Square, after: ChessBoard)
    requires |b.cells| == 64
  {
    && OnBoard(from.0, from.1) && OnBoard(to.0, to.1)
    && |after.cells| == 64
    && after.turn == Opponent(b.turn)
    && Owned(At(b, from.0, from.1), b.turn)
    && At(after, from.0, from.1) == Empty
    && At(after, to.0, to.1) == Promote(At(b, from.0, from.1), to.0)
    && forall i, j | OnBoard(i, j) && (i, j) != from && (i, j) != to :: At(after, i, j) == At(b, i, j)
  }

  /** Counting ownership distributes over concatenation. */
  lemma {:induction false} CountOwnedAppend(x: seq<Occupant>, y: seq<Occupant>, s: Side)
    ensures CountOwned(x + y, s) == CountOwned(x, s) + CountOwned(y, s)
    decreases |y|
  {
    if y == [] {
      assert x + y == x;
    } else {
      var n := |y|;
      assert (x + y)[..|x + y| - 1] == x + y[..n - 1];
      CountOwnedAppend(x, y[..n - 1], s);
    }
  }

  /** Cells all owned by `s` count once each; cells none of which it owns count nothing. */
  lemma {:induction false} CountOwnedUniform(cells: seq<Occupant>, s: Side, all: bool)
    requires forall i | 0 <= i < |cells| :: Owned(cells[i], s) == all
    ensures CountOwned(cells, s) == if all then |cells| else 0
    decreases |cells|
  {
    if cells != [] {
      CountOwnedUniform(cells[..|cells| - 1], s, all);
    }
  }

  /** The text a ChessBoard is built from when none is given: side 1 to
      move, side 1's pieces on rows 0 and 1, side 2's on rows 6 and 7, the
      kings on column 3. */
  const DefaultTurn: char := '1'

  const DefaultRows: seq<string> :=
    ["rnbkqbnr", "pppppppp", "........", "........", "........", "........", "PPPPPPPP", "RNBKQBNR"]

  /** The occupants one row token describes. */
  function RowCells(row: string): (cells: seq<Occupant>)
    requires |row| == 8
    ensures |cells| == 8
    ensures forall c | 0 <= c < 8 :: cells[c] == Decode(row[c])
  {
    seq(8, c requires 0 <= c < 8 => Decode(row[c]))
  }

  /** Row `r` of the grid is the eight occupants its token describes. */
  lemma RowSlice(rows: seq<string>, r: int)
    requires Shaped(rows) && 0 <= r < 8
    ensures CellsOf(rows)[8 * r .. 8 * r + 8] == RowCells(rows[r])
  {
    var cells := CellsOf(rows);
    forall c | 0 <= c < 8
      ensures cells[8 * r .. 8 * r + 8][c] == RowCells(rows[r])[c]
    {
      assert cells[8 * r .. 8 * r + 8][c] == cells[Index(r, c)];
    }
  }

  /** The grid is the eight rows laid end to end. */
  lemma CellsOfRows(rows: seq<string>)
    requires Shaped(rows)
    ensures CellsOf(rows) == RowCells(rows[0]) + RowCells(rows[1]) + RowCells(rows[2]) + RowCells(rows[3])
                           + RowCells(rows[4]) + RowCells(rows[5]) + RowCells(rows[6]) + RowCells(rows[7])
  {
    var cells := CellsOf(rows);
    RowSlice(rows, 0);
    RowSlice(rows, 1);
    RowSlice(rows, 2);
    RowSlice(rows, 3);
    RowSlice(rows, 4);
    RowSlice(rows, 5);
    RowSlice(rows, 6);
    RowSlice(rows, 7);
    assert cells == cells[0..8] + cells[8..16] + cells[16..24] + cells[24..32]
                  + cells[32..40] + cells[40..48] + cells[48..56] + cells[56..64];
  }

  /** A row token all of whose characters are, or none of which are, pieces of `s`. */
  lemma RowCount(row: string, s: Side, all: bool)
    requires |row| == 8 && forall c | 0 <= c < 8 :: Owned(Decode(row[c]), s) == all
    ensures CountOwned(RowCells(row), s) == if all then 8 else 0
  {
    CountOwnedUniform(RowCells(row), s, all);
  }

  /** Ownership counts of eight rows laid end to end add up. */
  lemma CountOwnedRows(a: seq<Occupant>, b: seq<Occupant>, c: seq<Occupant>, d: seq<Occupant>,
                       e: seq<Occupant>, f: seq<Occupant>, g: seq<Occupant>, h: seq<Occupant>, s: Side)
    ensures CountOwned(a + b + c + d + e + f + g + h, s)
         == CountOwned(a, s) + CountOwned(b, s) + CountOwned(c, s) + CountOwned(d, s)
          + CountOwned(e, s) + CountOwned(f, s) + CountOwned(g, s) + CountOwned(h, s)
  {
    CountOwnedAppend(a, b, s);
    CountOwnedAppend(a + b, c, s);
    CountOwnedAppend(a + b + c, d, s);
    CountOwnedAppend(a + b + c + d, e, s);
    CountOwnedAppend(a + b + c + d + e, f, s);
    CountOwnedAppend(a + b + c + d + e + f, g, s);
    CountOwnedAppend(a + b + c + d + e + f + g, h, s);
  }

  /** King counts of eight rows laid end to end add up. */
  lemma KingCountRows(a: seq<Occupant>, b: seq<Occupant>, c: seq<Occupant>, d: seq<Occupant>,
                      e: seq<Occupant>, f: seq<Occupant>, g: seq<Occupant>, h: seq<Occupant>, s: Side)
    ensures KingCount(a + b + c + d + e + f + g + h, s)
         == KingCount(a, s) + KingCount(b, s) + KingCount(c, s) + KingCount(d, s)
          + KingCount(e, s) + KingCount(f, s) + KingCount(g, s) + KingCount(h, s)
  {
  }

  /** An occupant at exactly one position occurs once. */
  lemma OccursOnce(cells: seq<Occupant>, k: int, x: Occupant)
    requires 0 <= k < |cells| && cells[k] == x
    requires forall i | 0 <= i < |cells| && i != k :: cells[i] != x
    ensures multiset(cells)[x] == 1
  {
    assert cells == cells[..k] + [x] + cells[k + 1..];
    assert x !in cells[..k];
    assert x !in cells[k + 1..];
  }

  /** Side 1's default back rank: eight of its pieces, its king on column 3. */
  lemma BackRankOne()
    ensures CountOwned(RowCells("rnbkqbnr"), One) == 8 && CountOwned(RowCells("rnbkqbnr"), Two) == 0
    ensures KingCount(RowCells("rnbkqbnr"), One) == 1 && KingCount(RowCells("rnbkqbnr"), Two) == 0
  {
    RowCount("rnbkqbnr", One, true);
    RowCount("rnbkqbnr", Two, false);
    OccursOnce(RowCells("rnbkqbnr"), 3, Piece(One, King));
  }

  /** Side 2's default back rank: eight of its pieces, its king on column 3. */
  lemma BackRankTwo()
    ensures CountOwned(RowCells("RNBKQBNR"), Two) == 8 && CountOwned(RowCells("RNBKQBNR"), One) == 0
    ensures KingCount(RowCells("RNBKQBNR"), Two) == 1 && KingCount(RowCells("RNBKQBNR"), One) == 0
  {
    RowCount("RNBKQBNR", Two, true);
    RowCount("RNBKQBNR", One, false);
    OccursOnce(RowCells("RNBKQBNR"), 3, Piece(Two, King));
  }

  /** A pawn row of the default position: eight pieces of its side, no king. */
  lemma PawnRowCounts(row: string, s: Side)
    requires row == (if s == One then "pppppppp" else "PPPPPPPP")
    ensures CountOwned(RowCells(row), s) == 8 && CountOwned(RowCells(row), Opponent(s)) == 0
    ensures KingCount(RowCells(row), s) == 0 && KingCount(RowCells(row), Opponent(s)) == 0
  {
    RowCount(row, s, true);
    RowCount(row, Opponent(s), false);
  }

  /** An empty row holds nothing. */
  lemma EmptyRowCounts(s: Side)
    ensures CountOwned(RowCells("........"), s) == 0 && KingCount(RowCells("........"), s) == 0
  {
    RowCount("........", s, false);
  }

  /** The default rows form an 8x8 grid, laid out as back rank, pawns,
      four empty rows, pawns, back rank. */
  lemma DefaultGrid()
    ensures Shaped(DefaultRows)
    ensures CellsOf(DefaultRows)
         == RowCells("rnbkqbnr") + RowCells("pppppppp") + RowCells("........") + RowCells("........")
          + RowCells("........") + RowCells("........") + RowCells("PPPPPPPP") + RowCells("RNBKQBNR")
  {
    assert Shaped(DefaultRows);
    CellsOfRows(DefaultRows);
  }

  /** Every character of the default rows is a board character. */
  lemma DefaultChars()
    ensures Shaped(DefaultRows) && AllOccupantChars(DefaultRows)
  {
    assert Shaped(DefaultRows);
  }

  /** The default grid has sixteen pieces per side. */
  lemma DefaultPieceCounts()
    ensures Shaped(DefaultRows)
    ensures CountOwned(CellsOf(DefaultRows), One) == 16 && CountOwned(CellsOf(DefaultRows), Two) == 16
  {
    DefaultGrid();
    var back1, pawns1, empty, pawns2, back2 :=
      RowCells("rnbkqbnr"), RowCells("pppppppp"), RowCells("........"), RowCells("PPPPPPPP"), RowCells("RNBKQBNR");
    BackRankOne();
    BackRankTwo();
    PawnRowCounts("pppppppp", One);
    PawnRowCounts("PPPPPPPP", Two);
    EmptyRowCounts(One);
    EmptyRowCounts(Two);
    CountOwnedRows(back1, pawns1, empty, empty, empty, empty, pawns2, back2, One);
    CountOwnedRows(back1, pawns1, empty, empty, empty, empty, pawns2, back2, Two);
  }

  /** The default grid has one king per side. */
  lemma DefaultKingCounts()
    ensures Shaped(DefaultRows)
    ensures KingCount(CellsOf(DefaultRows), One) == 1 && KingCount(CellsOf(DefaultRows), Two) == 1
  {
    DefaultGrid();
    var back1, pawns1, empty, pawns2, back2 :=
      RowCells("rnbkqbnr"), RowCells("pppppppp"), RowCells("........"), RowCells("PPPPPPPP"), RowCells("RNBKQBNR");
    BackRankOne();
    BackRankTwo();
    PawnRowCounts("pppppppp", One);
    PawnRowCounts("PPPPPPPP", Two);
    EmptyRowCounts(One);
    EmptyRowCounts(Two);
    KingCountRows(back1, pawns1, empty, empty, empty, empty, pawns2, back2, One);
    KingCountRows(back1, pawns1, empty, empty, empty, empty, pawns2, back2, Two);
  }

  /** The default grid passes the count checks. */
  lemma DefaultValid()
    ensures Shaped(DefaultRows) && Valid(ChessBoard(One, CellsOf(DefaultRows)))
    ensures CountOwned(CellsOf(DefaultRows), One) == 16 && CountOwned(CellsOf(DefaultRows), Two) == 16
  {
    DefaultPieceCounts();
    DefaultKingCounts();
  }

  /** In the default grid the kings stand on column 3 of rows 0 and 7. */
  lemma DefaultKings()
    ensures Shaped(DefaultRows)
    ensures CellsOf(DefaultRows)[Index(0, 3)] == Piece(One, King)
    ensures CellsOf(DefaultRows)[Index(7, 3)] == Piece(Two, King)
  {
    DefaultGrid();
    var back1, back2 := RowCells("rnbkqbnr"), RowCells("RNBKQBNR");
    assert back1[3] == Decode('k') && back2[3] == Decode('K');
  }

  /** The default position passes sanity_check: side 1 moves first, each
      side has sixteen pieces, and the two kings face each other on column 3. */
  lemma DefaultBoard()
    ensures Construct(DefaultTurn, DefaultRows).Ok?
    ensures var b := Construct(DefaultTurn, DefaultRows).value;
      && b.turn == One
      && PieceCount(b, One) == 16 && PieceCount(b, Two) == 16
      && At(b, 0, 3) == Piece(One, King) && At(b, 7, 3) == Piece(Two, King)
  {
    DefaultChars();
    DefaultValid();
    DefaultKings();
    assert Construct(DefaultTurn, DefaultRows) == Ok(ChessBoard(One, CellsOf(DefaultRows)));
  }

  lemma {:induction false} CountOwnedUpdate(cells: seq<Occupant>, i: int, x: Occupant, s: Side)
    requires 0 <= i < |cells|
    ensures CountOwned(cells[i := x], s) + (if Owned(cells[i], s) then 1 else 0)
         == CountOwned(cells, s) + (if Owned(x, s) then 1 else 0)
    decreases |cells|
  {
    var n := |cells|;
    var u := cells[i := x];
    if i == n - 1 {
      assert u[..n - 1] == cells[..n - 1];
    } else {
      assert u[..n - 1] == cells[..n - 1][i := x];
      CountOwnedUpdate(cells[..n - 1], i, x, s);
    }
  }

  lemma {:induction false} KingsAreOwned(cells: seq<Occupant>, s: Side)
    ensures KingCount(cells, s) <= CountOwned(cells, s)
    decreases |cells|
  {
    if cells != [] {
      var n := |cells|;
      assert cells == cells[..n - 1] + [cells[n - 1]];
      KingsAreOwned(cells[..n - 1], s);
    }
  }

  lemma KingCountUpdate(cells: seq<Occupant>, i: int, x: Occupant, s: Side)
    requires 0 <= i < |cells|
    ensures KingCount(cells[i := x], s) + (if cells[i] == Piece(s, King) then 1 else 0)
         == KingCount(cells, s) + (if x == Piece(s, King) then 1 else 0)
  {
    assert multiset(cells[i := x]) == multiset(cells) - multiset{cells[i]} + multiset{x};
  }

  /** The counts after moving a piece of the side to move onto a square it
      does not own: the board stays valid exactly when no king was taken. */
  lemma {:induction false} MovedCellsValid(b: ChessBoard, from: Square, to: Square)
    requires Valid(b) && OnBoard(from.0, from.1) && OnBoard(to.0, to.1)
    requires Owned(At(b, from.0, from.1), b.turn) && !Owned(At(b, to.0, to.1), b.turn)
    ensures Index(from.0, from.1) != Index(to.0, to.1)
    ensures Valid(ChessBoard(Opponent(b.turn), MovedCells(b.cells, Index(from.0, from.1), Index(to.0, to.1),
                                                          Promote(At(b, from.0, from.1), to.0))))
        <==> !IsKing(At(b, to.0, to.1))
  {
    var a := At(b, from.0, from.1);
    var d := At(b, to.0, to.1);
    var i1, i2 := Index(from.0, from.1), Index(to.0, to.1);
    var p := Promote(a, to.0);
    var mid := b.cells[i1 := Empty];
    var cells := MovedCells(b.cells, i1, i2, p);
    assert cells == mid[i2 := p];
    assert mid[i2] == d;
    var me, opp := b.turn, Opponent(b.turn);
    CountOwnedUpdate(b.cells, i1, Empty, me);
    CountOwnedUpdate(b.cells, i1, Empty, opp);
    CountOwnedUpdate(mid, i2, p, me);
    CountOwnedUpdate(mid, i2, p, opp);
    KingCountUpdate(b.cells, i1, Empty, me);
    KingCountUpdate(b.cells, i1, Empty, opp);
    KingCountUpdate(mid, i2, p, me);
    KingCountUpdate(mid, i2, p, opp);
    KingsAreOwned(cells, opp);
    assert KingCount(cells, me) == 1;
    assert CountOwned(cells, me) == CountOwned(b.cells, me);
    if IsKing(d) {
      assert KingCount(cells, opp) == 0;
    } else {
      assert KingCount(cells, opp) == 1;
    }
  }

  /** do_move succeeds exactly when both tokens are well formed, the source
      holds a piece of the side to move, and the destination holds neither
      a piece of that side nor a king: capturing a king leaves a board with
      no king for the captured side, which construction refuses. */
  lemma DoMoveSucceeds(b: ChessBoard, frm: string, to: string)
    requires Valid(b)
    ensures DoMove(b, frm, to).Ok? <==>
      && Helper.IsSquareToken(frm) && Helper.IsSquareToken(to)
      && var (r1, c1) := TokenSquare(frm);
      && var (r2, c2) := TokenSquare(to);
      && OnBoard(r1, c1) && OnBoard(r2, c2)
      && Owned(At(b, r1, c1), b.turn)
      && !Owned(At(b, r2, c2), b.turn)
      && !IsKing(At(b, r2, c2))
  {
    if Helper.IsSquareToken(frm) && Helper.IsSquareToken(to) {
      Helper.DecodeEncode(frm);
      Helper.DecodeEncode(to);
      var from, dest := TokenSquare(frm), TokenSquare(to);
      if Owned(At(b, from.0, from.1), b.turn) && !Owned(At(b, dest.0, dest.1), b.turn) {
        MovedCellsValid(b, from, dest);
      }
    }
  }
}
