/**
  The move-choosing policies: a fixed-depth negamax search, a one-ply
  scan of immediate evaluations, and a pick of any legal move. The
  policies only use three services of the board — its legal moves, the
  board a move leads to, and its evaluation — so they are written over a
  `Game` value holding those three and then applied to the chess rules
  (`Chess`). Random choices are modelled as arbitrary choices among the
  allowed candidates.
 */
module Search {

  import opened Results
  import opened Occupants
  import opened Board
  import opened Legality
  import opened Evaluation

  /** The services a policy asks of a position. */
  datatype Game = Game(
    moves: ChessBoard -> seq<Move>,
    play: (ChessBoard, Move) -> ChessBoard,
    score: ChessBoard -> int)

  /** The largest element of a non-empty list, found left to right. */
  function Max(s: seq<int>): int
    requires |s| > 0
  {
    if |s| == 1 then s[0]
    else
      var rest := Max(s[..|s| - 1]);
      if s[|s| - 1] > rest then s[|s| - 1] else rest
  }

  /** Max is an element of the list and no element exceeds it. */
  lemma {:induction false} MaxSpec(s: seq<int>)
    requires |s| > 0
    ensures Max(s) in s
    ensures forall i | 0 <= i < |s| :: s[i] <= Max(s)
  {
    if |s| > 1 {
      var t := s[..|s| - 1];
      MaxSpec(t);
      assert forall i | 0 <= i < |t| :: t[i] == s[i];
    }
  }

  /** Extending a list by one element keeps its maximum or replaces it by
      the new element when that is larger. */
  lemma MaxSnoc(s: seq<int>, i: int)
    requires 0 < i < |s|
    ensures Max(s[..i + 1]) == if s[i] > Max(s[..i]) then s[i] else Max(s[..i])
  {
    assert s[..i + 1][..i] == s[..i];
  }

  /** The negated search values, one level below `depth`, of the
      positions the moves lead to, in move order. */
  function ChildValues(g: Game, b: ChessBoard, depth: nat): (vs: seq<int>)
    requires depth > 0
    ensures |vs| == |g.moves(b)|
    decreases depth, 0
  {
    var ms := g.moves(b);
    seq(|ms|, i requires 0 <= i < |ms| => -Negamax(g, g.play(b, ms[i]), depth - 1))
  }

  /** negamax: the evaluation at depth 0 or when there is no move;
      otherwise the best negated value of the successors one level down. */
  function Negamax(g: Game, b: ChessBoard, depth: nat): int
    decreases depth, 1
  {
    if depth == 0 || g.moves(b) == [] then g.score(b)
    else Max(ChildValues(g, b, depth))
  }

  /** Why the search as written stops. */
  datatype SearchError = MissingSuccessors

  /** negamax as written: past the depth test it asks the board for
      get_possible_boards, which the board class does not define, so
      every call with a positive depth fails; only depth 0 returns. */
  function NegamaxAsWritten(g: Game, b: ChessBoard, depth: nat): (r: Result<int, SearchError>)
    ensures r.Ok? ==> r.value == Negamax(g, b, depth)
  {
    if depth == 0 then Ok(g.score(b)) else Err(MissingSuccessors)
  }

  /** The discrepancy: as written, the search fails for every positive
      depth, including the depth 1 that BasicMinimax.choose_move reaches
      with its default depth of 2, where the intended search has a value. */
  lemma NegamaxAsWrittenFails(g: Game, b: ChessBoard, depth: nat)
    requires depth > 0
    ensures NegamaxAsWritten(g, b, depth) != Ok(Negamax(g, b, depth))
  {
  }

  /** The value of a move at the root: the negated search value of the
      position it leads to. */
  function MoveValue(g: Game, b: ChessBoard, m: Move, depth: nat): int {
    -Negamax(g, g.play(b, m), depth)
  }

  /** The search value in terms of moves: the evaluation at a leaf, and
      otherwise a value some move reaches and no move beats. */
  lemma NegamaxSpec(g: Game, b: ChessBoard, depth: nat)
    ensures depth == 0 || g.moves(b) == [] ==> Negamax(g, b, depth) == g.score(b)
    ensures depth > 0 && g.moves(b) != [] ==>
      && (forall m | m in g.moves(b) :: MoveValue(g, b, m, depth - 1) <= Negamax(g, b, depth))
      && (exists m | m in g.moves(b) :: MoveValue(g, b, m, depth - 1) == Negamax(g, b, depth))
  {
    if depth > 0 && g.moves(b) != [] {
      var ms := g.moves(b);
      var vs := ChildValues(g, b, depth);
      MaxSpec(vs);
      forall m | m in ms
        ensures MoveValue(g, b, m, depth - 1) <= Negamax(g, b, depth)
      {
        var i :| 0 <= i < |ms| && ms[i] == m;
        assert vs[i] == MoveValue(g, b, m, depth - 1);
      }
      var i :| 0 <= i < |vs| && vs[i] == Max(vs);
      assert ms[i] in ms && MoveValue(g, b, ms[i], depth - 1) == Negamax(g, b, depth);
    }
  }

  /** Search values stay within any bound the evaluation keeps. */
  lemma {:induction false} NegamaxRange(g: Game, b: ChessBoard, depth: nat, bound: int)
    requires forall x :: -bound <= g.score(x) <= bound
    ensures -bound <= Negamax(g, b, depth) <= bound
    decreases depth
  {
    if depth > 0 && g.moves(b) != [] {
      var ms := g.moves(b);
      var vs := ChildValues(g, b, depth);
      forall i | 0 <= i < |vs|
        ensures -bound <= vs[i] <= bound
      {
        NegamaxRange(g, g.play(b, ms[i]), depth - 1, bound);
      }
      MaxSpec(vs);
    }
  }

  /** negamax as the original runs it: the evaluation at a leaf,
      otherwise the maximum the successor loop finds. */
  method NegamaxSearch(g: Game, b: ChessBoard, depth: nat) returns (score: int)
    ensures score == Negamax(g, b, depth)
    decreases depth, 1
  {
    if depth == 0 {
      return g.score(b);
    }
    var moves := g.moves(b);
    if |moves| == 0 {
      return g.score(b);
    }
    score := ChildSearch(g, b, depth);
  }

  /** The successor loop of negamax: recurse on each successor one level
      down, keeping the running maximum that starts below every score. */
  method ChildSearch(g: Game, b: ChessBoard, depth: nat) returns (score: int)
    requires depth > 0 && g.moves(b) != []
    ensures score == Max(ChildValues(g, b, depth))
    decreases depth, 0
  {
    var moves := g.moves(b);
    ghost var vs := ChildValues(g, b, depth);
    var maxScore: Option<int> := None;
    var i := 0;
    while i < |moves|
      invariant 0 <= i <= |moves|
      invariant i == 0 <==> maxScore == None
      invariant i > 0 ==> maxScore == Some(Max(vs[..i]))
    {
      var s := NegamaxSearch(g, g.play(b, moves[i]), depth - 1);
      s := -s;
      assert s == vs[i];
      if i > 0 {
        MaxSnoc(vs, i);
      } else {
        assert Max(vs[..1]) == vs[0];
      }
      if maxScore == None || s > maxScore.value {
        maxScore := Some(s);
      }
      i := i + 1;
    }
    assert vs[..|moves|] == vs;
    score := maxScore.value;
  }

  /** BasicMinimax.choose_move: score every move by the search one level
      down and return the first best one, as Python's max over the
      insertion-ordered score table does; with no move, max has nothing
      to choose from and the original raises. */
  method ChooseMoveSearch(g: Game, b: ChessBoard, depth: nat) returns (best: Option<Move>)
    requires depth >= 1
    ensures best.None? <==> g.moves(b) == []
    ensures best.Some? ==> best.value in g.moves(b)
    ensures best.Some? ==>
      forall m | m in g.moves(b) :: MoveValue(g, b, m, depth - 1) <= MoveValue(g, b, best.value, depth - 1)
    ensures best.Some? ==>
      exists i | 0 <= i < |g.moves(b)| && g.moves(b)[i] == best.value ::
        forall j | 0 <= j < i :: MoveValue(g, b, g.moves(b)[j], depth - 1) < MoveValue(g, b, best.value, depth - 1)
  {
    var moves := g.moves(b);
    if |moves| == 0 {
      return None;
    }
    var scores: seq<int> := [];
    var k := 0;
    while k < |moves|
      invariant 0 <= k <= |moves| && |scores| == k
      invariant forall j | 0 <= j < k :: scores[j] == MoveValue(g, b, moves[j], depth - 1)
    {
      var s := NegamaxSearch(g, g.play(b, moves[k]), depth - 1);
      scores := scores + [-s];
      k := k + 1;
    }
    var bi := 0;
    var i := 1;
    while i < |moves|
      invariant 1 <= i <= |moves| && 0 <= bi < i
      invariant forall j | 0 <= j < i :: scores[j] <= scores[bi]
      invariant forall j | 0 <= j < bi :: scores[j] < scores[bi]
    {
      if scores[i] > scores[bi] {
        bi := i;
      }
      i := i + 1;
    }
    var m0 := moves[bi];
    forall m | m in moves
      ensures MoveValue(g, b, m, depth - 1) <= MoveValue(g, b, m0, depth - 1)
    {
      var j :| 0 <= j < |moves| && moves[j] == m;
    }
    assert forall j | 0 <= j < bi :: MoveValue(g, b, moves[j], depth - 1) < MoveValue(g, b, m0, depth - 1);
    best := Some(m0);
  }

  /** The value the one-ply policy gives a move: the negated evaluation of
      the position it leads to, which is its value at search depth one. */
  lemma ImmediateIsDepthOne(g: Game, b: ChessBoard, m: Move)
    ensures MoveValue(g, b, m, 0) == -g.score(g.play(b, m))
  {
  }

  /** OldMinimax.choose_move: scan the moves keeping the best score and
      the list of moves that reach it, then pick any entry of that list.
      The list restarts with an improving move, which the equality test
      then appends again, so the first move to reach the final best score
      is listed twice and weighs double in the pick. With no move the
      original fails reading the first one. */
  method ChooseMoveOnePly(g: Game, b: ChessBoard) returns (choice: Option<Move>, ties: seq<Move>)
    ensures choice.None? <==> g.moves(b) == []
    ensures choice.Some? ==> choice.value in ties
    ensures forall m | m in ties :: m in g.moves(b)
    ensures choice.Some? ==>
      forall m | m in g.moves(b) :: MoveValue(g, b, m, 0) <= MoveValue(g, b, choice.value, 0)
    ensures choice.Some? ==>
      forall m | m in g.moves(b) :: (m in ties <==> MoveValue(g, b, m, 0) == MoveValue(g, b, choice.value, 0))
    ensures choice.Some? ==> |ties| >= 2 && ties[0] == ties[1]
    ensures |g.moves(b)| == 1 ==> ties == [g.moves(b)[0], g.moves(b)[0]]
  {
    var moves := g.moves(b);
    if |moves| == 0 {
      return None, [];
    }
    var bestScore := -g.score(g.play(b, moves[0]));
    ties := [moves[0]];
    var i := 0;
    while i < |moves|
      invariant 0 <= i <= |moves|
      invariant |ties| >= 1 && (i > 0 ==> |ties| >= 2 && ties[0] == ties[1])
      invariant i == 0 ==> ties == [moves[0]]
      invariant |moves| == 1 && i == 1 ==> ties == [moves[0], moves[0]]
      invariant forall m | m in ties :: m in moves && MoveValue(g, b, m, 0) == bestScore
      invariant forall j | 0 <= j < i :: MoveValue(g, b, moves[j], 0) <= bestScore
      invariant forall j | 0 <= j < i && MoveValue(g, b, moves[j], 0) == bestScore :: moves[j] in ties
    {
      var score := -g.score(g.play(b, moves[i]));
      if score > bestScore {
        bestScore := score;
        ties := [moves[i]];
      }
      if score == bestScore {
        ties := ties + [moves[i]];
      }
      i := i + 1;
    }
    var pick :| 0 <= pick < |ties|;
    choice := Some(ties[pick]);
    forall m | m in moves
      ensures MoveValue(g, b, m, 0) <= bestScore
      ensures MoveValue(g, b, m, 0) == bestScore ==> m in ties
    {
      var j :| 0 <= j < |moves| && moves[j] == m;
    }
  }

  /** The moves of `ms` whose one-ply value is `v`, each as often as it
      occurs in `ms`, in order. */
  function Tied(g: Game, b: ChessBoard, ms: seq<Move>, v: int): seq<Move> {
    if ms == [] then []
    else
      var last := ms[|ms| - 1];
      Tied(g, b, ms[..|ms| - 1], v) + (if MoveValue(g, b, last, 0) == v then [last] else [])
  }

  lemma TiedSnoc(g: Game, b: ChessBoard, ms: seq<Move>, x: Move, v: int)
    ensures Tied(g, b, ms + [x], v) == Tied(g, b, ms, v) + (if MoveValue(g, b, x, 0) == v then [x] else [])
  {
    assert (ms + [x])[..|ms|] == ms;
  }

  /** No move of a list all of whose values lie below `v` ties at `v`. */
  lemma {:induction false} TiedNone(g: Game, b: ChessBoard, ms: seq<Move>, v: int)
    requires forall j | 0 <= j < |ms| :: MoveValue(g, b, ms[j], 0) < v
    ensures Tied(g, b, ms, v) == []
  {
    if ms != [] {
      var init := ms[..|ms| - 1];
      assert forall j | 0 <= j < |init| :: init[j] == ms[j];
      TiedNone(g, b, init, v);
    }
  }

  /** OldMinimax.choose_move as evidently intended: the best list starts
      empty instead of holding the first move, the scan then lists every
      move itself, and the improving branch and the tie branch are
      exclusive. The list then holds each best-valued move once per
      listing, in move order, and the pick is uniform over them. */
  method ChooseMoveOnePlyTies(g: Game, b: ChessBoard) returns (choice: Option<Move>, ties: seq<Move>)
    ensures choice.None? <==> g.moves(b) == []
    ensures choice.Some? ==> choice.value in ties
    ensures choice.Some? ==> ties == Tied(g, b, g.moves(b), MoveValue(g, b, choice.value, 0))
    ensures choice.Some? ==>
      forall m | m in g.moves(b) :: MoveValue(g, b, m, 0) <= MoveValue(g, b, choice.value, 0)
  {
    var moves := g.moves(b);
    if |moves| == 0 {
      return None, [];
    }
    var bestScore := -g.score(g.play(b, moves[0]));
    ties := [];
    var i := 0;
    while i < |moves|
      invariant 0 <= i <= |moves|
      invariant i == 0 ==> bestScore == MoveValue(g, b, moves[0], 0)
      invariant i > 0 ==> ties != []
      invariant ties == Tied(g, b, moves[..i], bestScore)
      invariant forall j | 0 <= j < i :: MoveValue(g, b, moves[j], 0) <= bestScore
    {
      var score := -g.score(g.play(b, moves[i]));
      assert moves[..i + 1] == moves[..i] + [moves[i]];
      if score > bestScore {
        TiedNone(g, b, moves[..i], score);
        TiedSnoc(g, b, moves[..i], moves[i], score);
        bestScore := score;
        ties := [moves[i]];
      } else if score == bestScore {
        TiedSnoc(g, b, moves[..i], moves[i], bestScore);
        ties := ties + [moves[i]];
      } else {
        TiedSnoc(g, b, moves[..i], moves[i], bestScore);
      }
      i := i + 1;
    }
    assert moves[..i] == moves;
    TiedMembers(g, b, moves, bestScore);
    var pick :| 0 <= pick < |ties|;
    choice := Some(ties[pick]);
    forall m | m in moves
      ensures MoveValue(g, b, m, 0) <= bestScore
    {
      var j :| 0 <= j < |moves| && moves[j] == m;
    }
  }

  /** Every tied move has the value it is tied at. */
  lemma {:induction false} TiedMembers(g: Game, b: ChessBoard, ms: seq<Move>, v: int)
    ensures forall m | m in Tied(g, b, ms, v) :: m in ms && MoveValue(g, b, m, 0) == v
  {
    if ms != [] {
      TiedMembers(g, b, ms[..|ms| - 1], v);
    }
  }

  /** RandomComputer.choose_move: any one of the moves; random.choice
      raises on an empty list. */
  method ChooseMoveRandom(g: Game, b: ChessBoard) returns (choice: Option<Move>)
    ensures choice.None? <==> g.moves(b) == []
    ensures choice.Some? ==> choice.value in g.moves(b)
  {
    var moves := g.moves(b);
    if |moves| == 0 {
      return None;
    }
    var pick :| 0 <= pick < |moves|;
    choice := Some(moves[pick]);
  }

  /** The chess rules as a game: calc_possible_moves, do_move and
      evaluate. The original only ever calls them on valid boards; other
      boards get no moves and score 0 here. */
  const Chess: Game := Game(
    b => if Valid(b) then LegalMoves(b) else [],
    (b, m) => if Valid(b) && ApplyMove(b, m).Ok? then ApplyMove(b, m).value else b,
    b => if Valid(b) then Evaluate(b) else 0)

  /** On a valid board the game's services are the chess operations, and
      every legal move leads to a valid board. */
  lemma ChessServices(b: ChessBoard, m: Move)
    requires Valid(b)
    ensures Chess.moves(b) == LegalMoves(b)
    ensures Chess.score(b) == Evaluate(b)
    ensures m in LegalMoves(b) ==> ApplyMove(b, m) == Ok(Chess.play(b, m)) && Valid(Chess.play(b, m))
  {
    if m in LegalMoves(b) {
      LegalMoveApplies(b, m);
    }
  }

  /** Every chess search value lies within the evaluation's range. */
  lemma ChessNegamaxRange(b: ChessBoard, depth: nat)
    ensures -Terminal <= Negamax(Chess, b, depth) <= Terminal
  {
    forall x
      ensures -Terminal <= Chess.score(x) <= Terminal
    {
      if Valid(x) {
        EvaluateRange(x);
      }
    }
    NegamaxRange(Chess, b, depth, Terminal);
  }

  /** On a valid chess board the search stops at depth 0 and at a board
      with no legal move (checkmate or stalemate), returning evaluate. */
  lemma ChessNegamaxLeaf(b: ChessBoard, depth: nat)
    requires Valid(b) && (depth == 0 || LegalMoves(b) == [])
    ensures Negamax(Chess, b, depth) == Evaluate(b)
  {
    ChessServices(b, Move((0, 0), (0, 0)));
  }
}
