/**
  Static evaluation: material balance from the side to move's point of
  view, with fixed scores for positions where the side to move has no
  legal move (checkmate or stalemate).
 */
module Evaluation {

  import opened Occupants
  import opened Board
  import opened Attack
  import opened Legality

  /** The score of a checkmate, and the magnitude of a stalemate's score. */
  const Terminal: int := 1000

  /** Piece weights: pawn 1, knight 3, bishop 3, rook 5, queen 9, king 0. */
  function Weight(k: Kind): nat {
    match k
    case Pawn => 1
    case Knight => 3
    case Bishop => 3
    case Rook => 5
    case Queen => 9
    case King => 0
  }

  /** The summed weight of the pieces `s` owns among `cells`. */
  function Material(cells: seq<Occupant>, s: Side): nat
    decreases |cells|
  {
    if cells == [] then 0
    else
      var last := cells[|cells| - 1];
      Material(cells[..|cells| - 1], s) + (if Owned(last, s) then Weight(last.kind) else 0)
  }

  /** A side's material is at most a queen's weight for each of its
      pieces other than its king. */
  lemma {:induction false} MaterialBound(cells: seq<Occupant>, s: Side)
    ensures Material(cells, s) <= 9 * (CountOwned(cells, s) - KingCount(cells, s))
    decreases |cells|
  {
    if cells != [] {
      var n := |cells|;
      assert cells == cells[..n - 1] + [cells[n - 1]];
      assert multiset(cells) == multiset(cells[..n - 1]) + multiset{cells[n - 1]};
      MaterialBound(cells[..n - 1], s);
    }
  }

  /** On a valid board each side holds at most 135 points: fifteen queens
      besides its king. */
  lemma MaterialOfValid(b: ChessBoard, s: Side)
    requires Valid(b)
    ensures Material(b.cells, s) <= 135
  {
    MaterialBound(b.cells, s);
    assert KingCount(b.cells, One) == 1 && KingCount(b.cells, Two) == 1;
    assert CountOwned(b.cells, s) <= 16 by { if s == One {} else {} }
    assert KingCount(b.cells, s) == 1 by { if s == One {} else {} }
  }

  /** The scoring rule on its inputs: the two material totals, the side
      to move, whether it has no legal move, and whether its king is
      attacked. Side 1's score, negated when side 2 is to move. */
  function Score(p1: int, p2: int, turn: Side, noMoves: bool, kingAttacked: bool): int {
    var s :=
      if !noMoves then p1 - p2
      else if kingAttacked then (if turn == One then -Terminal else Terminal)
      else if p1 - p2 > 0 then -Terminal
      else Terminal;
    if turn == One then s else -s
  }

  /** evaluate. */
  function Evaluate(b: ChessBoard): int
    requires Valid(b)
  {
    Score(Material(b.cells, One), Material(b.cells, Two), b.turn, LegalMoves(b) == [], IsAttackingKing(b, true))
  }

  /** The rule's cases as seen by the side to move: with a move available
      the score is its own material minus the opponent's; mated is the
      worst score; a stalemate is the worst score for side 1 exactly when
      side 1 leads on material, and the best score for side 2 exactly then. */
  lemma ScoreCases(p1: int, p2: int, turn: Side, noMoves: bool, kingAttacked: bool)
    ensures !noMoves ==> Score(p1, p2, turn, noMoves, kingAttacked) == (if turn == One then p1 - p2 else p2 - p1)
    ensures noMoves && kingAttacked ==> Score(p1, p2, turn, noMoves, kingAttacked) == -Terminal
    ensures noMoves && !kingAttacked && turn == One ==>
      (Score(p1, p2, turn, noMoves, kingAttacked) == Terminal <==> p1 <= p2)
    ensures noMoves && !kingAttacked && turn == Two ==>
      (Score(p1, p2, turn, noMoves, kingAttacked) == Terminal <==> p1 > p2)
    ensures noMoves ==> Score(p1, p2, turn, noMoves, kingAttacked) in {Terminal, -Terminal}
    ensures -135 <= p1 - p2 <= 135 && !noMoves ==> -Terminal < Score(p1, p2, turn, noMoves, kingAttacked) < Terminal
  {
  }

  /** While the side to move has a legal move, the score is its material
      lead over the opponent. */
  lemma EvaluateOngoing(b: ChessBoard)
    requires Valid(b) && LegalMoves(b) != []
    ensures Evaluate(b) == Material(b.cells, b.turn) - Material(b.cells, Opponent(b.turn))
  {
    ScoreCases(Material(b.cells, One), Material(b.cells, Two), b.turn, false, IsAttackingKing(b, true));
  }

  /** A side to move with no legal move whose king is attacked
      (is_attacking_king with the flip) is mated: the worst score,
      whichever side it is. */
  lemma EvaluateCheckmate(b: ChessBoard)
    requires Valid(b) && LegalMoves(b) == [] && IsAttackingKing(b, true)
    ensures Evaluate(b) == -Terminal
  {
    ScoreCases(Material(b.cells, One), Material(b.cells, Two), b.turn, true, true);
  }

  /** A stalemate is scored against whichever side is materially ahead, and
      when material is level it favours side 1: side 1 to move gets the
      best score unless it leads, side 2 to move gets the best score
      exactly when side 1 leads. */
  lemma EvaluateStalemate(b: ChessBoard)
    requires Valid(b) && LegalMoves(b) == [] && !IsAttackingKing(b, true)
    ensures b.turn == One ==>
      (Evaluate(b) == Terminal <==> Material(b.cells, One) <= Material(b.cells, Two))
    ensures b.turn == Two ==>
      (Evaluate(b) == Terminal <==> Material(b.cells, One) > Material(b.cells, Two))
    ensures Evaluate(b) == Terminal || Evaluate(b) == -Terminal
  {
    ScoreCases(Material(b.cells, One), Material(b.cells, Two), b.turn, true, false);
  }

  /** Terminal positions are recognisable from the score alone: material
      never reaches the terminal magnitude. */
  lemma EvaluateRange(b: ChessBoard)
    requires Valid(b)
    ensures -Terminal <= Evaluate(b) <= Terminal
    ensures (Evaluate(b) == Terminal || Evaluate(b) == -Terminal) <==> LegalMoves(b) == []
  {
    MaterialOfValid(b, One);
    MaterialOfValid(b, Two);
    ScoreCases(Material(b.cells, One), Material(b.cells, Two), b.turn, LegalMoves(b) == [], IsAttackingKing(b, true));
  }

  /** The material pass of evaluate: one walk over the squares summing
      each side's weights. */
  method MaterialScan(cells: seq<Occupant>) returns (p1: int, p2: int)
    ensures p1 == Material(cells, One) && p2 == Material(cells, Two)
  {
    p1, p2 := 0, 0;
    var k := 0;
    while k < |cells|
      invariant 0 <= k <= |cells|
      invariant p1 == Material(cells[..k], One) && p2 == Material(cells[..k], Two)
    {
      assert cells[..k + 1][..k] == cells[..k];
      var o := cells[k];
      if o.Piece? && o.side == One {
        p1 := p1 + Weight(o.kind);
      } else if o.Piece? && o.side == Two {
        p2 := p2 + Weight(o.kind);
      }
      k := k + 1;
    }
    assert cells[..k] == cells;
  }

  /** The terminal checks and the sign flip of evaluate, in the original's
      order of assignments. Seen from the side to move, the result is its
      material lead while it can move, the worst score when it is mated,
      and in stalemate the best score for side 1 unless it leads and for
      side 2 exactly when side 1 leads. */
  method ScoreSteps(p1: int, p2: int, turn: Side, none: bool, attacked: bool) returns (score: int)
    ensures !none ==> score == (if turn == One then p1 - p2 else p2 - p1)
    ensures none && attacked ==> score == -Terminal
    ensures none && !attacked ==> (score == Terminal <==> (if turn == One then p1 <= p2 else p1 > p2))
    ensures none ==> score == Terminal || score == -Terminal
    ensures score == Score(p1, p2, turn, none, attacked)
  {
    score := p1 - p2;
    if none {
      if attacked {
        score := if turn == One then -Terminal else Terminal;
      } else if score > 0 {
        score := -Terminal;
      } else {
        score := Terminal;
      }
    }
    if turn == Two {
      score := -score;
    }
  }

  /** evaluate as the original computes it: the material pass, then the
      terminal checks, then the sign. */
  method EvaluateScan(b: ChessBoard) returns (score: int)
    requires Valid(b)
    ensures score == Evaluate(b)
  {
    var p1, p2 := MaterialScan(b.cells);
    var none := HasNoMoves(b);
    var attacked := IsAttackingKing(b, true);
    score := ScoreSteps(p1, p2, b.turn, none, attacked);
  }
}
