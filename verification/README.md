# A verified model of the ChessGame rules engine

This project models the rules engine of a small Python chess program in
Dafny and proves properties of the model. The engine plays a simplified
form of the piece-movement rules of article 3 of the FIDE Laws of Chess:
no castling, no en passant, pawns always promote to queens, and a pawn
may take a piece standing straight ahead of it. Where the program departs
from FIDE, the model follows the program.

The engine has four parts, and the model follows them module by module.

- `occupants.dfy` defines sides, piece kinds, square occupants and the
  one-character text encoding of an occupant. It also defines the
  `Option` and `Result` wrappers used for the operations that raise.
- `helper.dfy` is the square-token codec between `"a1"` and (row, column).
- `board.dfy` holds the immutable board: construction with the sanity
  check, `get_square`, `get_piece_count`, `is_enemy` and `do_move` with
  promotion.
- `rays.dfy` holds the straight-line walks shared by the sliding pieces
  and the attack detector.
- `attack.dfy` is `is_square_attacked` and `is_attacking_king`. The
  original flips and restores the board's turn; here the defending side
  is computed and passed explicitly, so nothing is mutated.
- `pieces.dfy` is the per-piece `calc_moves`, all gated by
  `is_valid_attack`.
- `legality.dfy` is `calc_possible_moves` and `has_no_moves`: collect
  every move of the side to move, carry each one out, and drop those that
  leave the mover's king attacked.
- `evaluate.dfy` is `evaluate`: material balance with fixed scores when
  the side to move has no legal move.
- `player.dfy` holds the three computer players. The policies are written
  over a `Game` value that supplies legal moves, the board a move leads to,
  and the evaluation. `Search.Chess` instantiates it with the chess rules.

Most operations come in two forms: a pure function that is the reference
definition, and a method that follows the original's loops and is proved
equal to it.

## Model

| member | source | states |
|---|---|---|
| Occupants.ParseSide | chess/board.py:89-91 | only '1' and '2' name a side, and each parses back to its own character |
| Occupants.DecodeOccupantChar | chess/board.py:93-97 | every occupant is written with one of the thirteen board characters, and that character reads back as the same occupant |
| Occupants.OccupantCharDecode | chess/board.py:93-97 | every board character is the encoding of what it reads as, so the character codec is a bijection |
| Occupants.DecodeCase | chess/board.py:372-377 | lower-case letters are side-1 pieces, upper-case letters are side-2 pieces, and '.' is empty |
| Helper.DecodeInpt | chess/helper.py:1-10 | a two-character token with a digit rank decodes to a row between -1 and 8; the square is on the board exactly when the token is one do_move accepts, and an on-board result encodes back to the same token |
| Helper.EncodeInpt | chess/helper.py:13-22 | the text is a token do_move accepts exactly when the square is on the board, and it is two characters long exactly while row + 1 is a single digit |
| Helper.EncodeInjective | chess/helper.py:13-22 | distinct on-board squares are written as distinct tokens |
| Helper.EncodeOnBoard | chess/helper.py:1-22 | every on-board square encodes as a two-character token that do_move accepts and that decodes back to the square |
| Helper.DecodeEncode | chess/helper.py:1-22 | every accepted token decodes to an on-board square whose encoding is the token again |
| Helper.DecodeInjective | chess/helper.py:1-10 | two accepted tokens that decode to the same square are equal |
| Helper.CodecExamples | chess/helper.py:1-22 | "e2" is row 1, column 4; row 3, column 4 is "e4"; "h8" is row 7, column 7 |
| Board.CheckCounts | chess/board.py:99-111 | the count checks succeed exactly on valid boards: 1 to 16 pieces per side and exactly one king each |
| Board.Construct | chess/board.py:84-113 | construction succeeds iff the grid is 8x8, the turn is '1' or '2', every character is a board character and the counts are valid; the board then holds the decoded characters |
| Board.ConstructRowsOf | chess/board.py:33-38 | writing a valid board out as its turn character and rows and constructing it again gives the same board |
| Board.RowsOfConstruct | chess/board.py:33-38 | a constructed board writes back out as exactly the input rows and turn character |
| Board.CellsOfRows | chess/board.py:36 | the 64 cells are the eight row tokens decoded and laid end to end |
| Board.DefaultBoard | chess/board.py:33-38 | the DEFAULT_BOARD text a ChessBoard is built from when none is given passes sanity_check: side 1 moves first, each side has sixteen pieces, and the kings stand on column 3 of rows 0 and 7 |
| Board.DefaultValid | chess/board.py:99-111 | the default grid passes the piece-count and king-count checks with sixteen pieces per side |
| Board.DefaultKings | chess/board.py:5 | in the default grid side 1's king is on row 0, column 3 and side 2's on row 7, column 3 |
| Board.OnBoard | chess/board.py:343-354 | on_board is 0 <= row < 8 and 0 <= col < 8; it has no contract of its own, and Legality.SquareOfIndex shows these squares correspond one-to-one to the 64 cell indices |
| Board.GetSquare | chess/board.py:123-131 | the character at a square is a board character that decodes to the square's occupant |
| Board.PieceCount | chess/board.py:133-146 | the piece count of a side is the number of squares that side owns |
| Board.IsEnemy | chess/board.py:513-525 | a square is an enemy exactly when it holds a piece of the side not to move |
| Board.MovedCells | chess/board.py:187-208 | the rebuilt grid has the source emptied, the placed piece on the destination and every other cell unchanged |
| Board.Promote | chess/board.py:198-205 | only a side-1 pawn landing on row 7 or a side-2 pawn landing on row 0 changes, and it becomes a queen of the same side; every other occupant lands unchanged |
| Board.DoMove | chess/board.py:148-218 | a successful move leaves a valid board in which the source is empty, the destination holds the piece, every other square is unchanged and the turn has passed |
| Board.DoMoveSucceeds | chess/board.py:157-185 | do_move succeeds iff both tokens are well formed, the source holds a piece of the side to move, and the destination holds neither such a piece nor a king |
| Board.MovedCellsValid | chess/board.py:199-218 | after moving onto a square the mover does not own, the board is valid exactly when no king was taken |
| Rays.Gap | chess/pieces.py:166-175 | the gap is a run of empty on-board squares followed by a square that is off the board or occupied |
| Rays.GapUnique | chess/pieces.py:166-175 | that run length is unique: any clear stretch that then stops has exactly the gap's length |
| Attack.AttackedBy | chess/board.py:389-468 | the reference attack predicate (an adjacent enemy king, an enemy pawn on the defender's forward diagonals, an enemy knight a jump away, or an enemy rook, bishop or queen as the first piece along a line); it has no contract of its own, and Attack.IsSquareAttackedScan proves the original's scans compute it |
| Attack.SliderScan | chess/board.py:429-440 | one line walk reports a hit iff the first occupied square on the ray is an enemy of the given kind or an enemy queen |
| Attack.KingScan | chess/board.py:392-402 | the neighbour loop finds an enemy king iff one stands on one of the eight neighbouring squares |
| Attack.KnightScan | chess/board.py:417-427 | the knight loop finds an enemy knight iff one stands a knight's jump away |
| Attack.LinesScan | chess/board.py:429-468 | the line walks find a hit iff one of the given directions has a matching first piece |
| Attack.DefenderScan | chess/board.py:370-387 | the defender found from the square's letter case is the owner, or the side to move for an empty square or a static query |
| Attack.IsSquareAttackedScan | chess/board.py:356-481 | the step-by-step detector returns the reference attack predicate: an adjacent king, a pawn on the forward diagonals, a knight, or a first piece on a line or diagonal |
| Attack.KingSquare | chess/board.py:504-509 | on a valid board each side's king stands on exactly one square |
| Attack.IsAttackingKing | chess/board.py:483-511 | the query is about the opponent's king, or the mover's own king with the flip, and is true iff that king's square is attacked by the side opposing it |
| Pieces.NewPiece | chess/pieces.py:9-16 | a piece exists iff its square is on the board and its player is '1' or '2' |
| Pieces.GetChar | chess/pieces.py:23-33 | the character is lower case for side 1, upper case for side 2, and reads back as the piece |
| Pieces.IsValidAttack | chess/pieces.py:45-65 | the typed target rule (on the board, no king of either side, no piece of the mover); it has no contract of its own, and Pieces.ValidAttackByCharacter proves it equals the original's character test |
| Pieces.ValidAttackByCharacter | chess/pieces.py:45-65 | the typed target rule agrees with the original's character test: on the board, not 'k' or 'K', and not in the mover's case |
| Pieces.PawnMovesSpec | chess/pieces.py:85-109 | a pawn destination is exactly a valid target that is a forward diagonal holding a piece, the square ahead, or two ahead from row 1 or 6, with the jumped square not examined; every destination is forward |
| Pieces.PawnMoves | chess/pieces.py:73-111 | every pawn destination passes is_valid_attack, and a sideways one holds an enemy piece |
| Pieces.KnightMovesSpec | chess/pieces.py:131-138 | a knight destination is exactly a valid target a (1,2) or (2,1) jump away |
| Pieces.KnightMoves | chess/pieces.py:119-140 | every knight destination passes is_valid_attack; Pieces.KnightMovesSpec gives the exact set |
| Pieces.RayMovesSpec | chess/pieces.py:160-176 | a ray destination is exactly a valid target on the ray with only empty squares before it |
| Pieces.RayMovesSound | chess/pieces.py:166-175 | every ray destination lies on the ray past empty squares and passes is_valid_attack |
| Pieces.RayMovesComplete | chess/pieces.py:166-175 | every valid target on the ray reached over empty squares is a destination |
| Pieces.RayWalk | chess/pieces.py:166-175 | the while-True walk collects exactly the ray's destinations |
| Pieces.RayMoves | chess/pieces.py:160-176 | one direction's destinations as a set; it has no contract of its own, and Pieces.RayMovesSpec characterises it exactly while Pieces.RayWalk proves the while-True walk computes it |
| Pieces.BishopMoves | chess/pieces.py:148-176 | the union of the four diagonal walks; it has no contract of its own, and Pieces.BishopMovesSpec characterises it exactly |
| Pieces.RookMoves | chess/pieces.py:184-227 | the union of the four row and column walks; it has no contract of its own, and Pieces.RookMovesSpec characterises it exactly |
| Pieces.BishopMovesSpec | chess/pieces.py:148-176 | a square is a bishop destination iff, along one of the four diagonals, it lies on the ray, every square before it is empty, and it passes is_valid_attack |
| Pieces.BishopMovesOnDiagonal | chess/pieces.py:148-176 | every bishop destination is a valid target on a diagonal through the bishop, other than its own square |
| Pieces.RookMovesSpec | chess/pieces.py:184-227 | a square is a rook destination iff, along the rook's row or column in one of the four directions, it lies on the ray, every square before it is empty, and it passes is_valid_attack |
| Pieces.RookMovesOnLine | chess/pieces.py:184-227 | every rook destination is a valid target sharing the rook's row or column, other than its own square |
| Pieces.QueenMoves | chess/pieces.py:235-291 | the queen's destinations are the union of a rook's and a bishop's on the same square |
| Pieces.KingMovesSpec | chess/pieces.py:311-318 | a king destination is exactly a neighbouring valid target that is not attacked from the side to move's view |
| Pieces.KingMoves | chess/pieces.py:299-320 | every king destination passes is_valid_attack; Pieces.KingMovesSpec gives the exact set |
| Pieces.KingNeverStays | chess/pieces.py:319 | a king never lists its own square, so the original's assertion holds |
| Pieces.CalcMoves | chess/board.py:284-288 | every piece's map names its own square as attacker, and every destination passes is_valid_attack, so none holds a king or a piece of the mover |
| Legality.SquaresUpTo | chess/board.py:275-276 | the listed squares are exactly the given squares below the bound, in strictly increasing row-major order |
| Legality.MovesFromSpec | chess/board.py:292-295 | the moves listed from one square are exactly those to its on-board destinations |
| Legality.CandidatesUpToSpec | chess/board.py:275-295 | a move is collected from the first n origins iff its origin is among them and its destination is one the origin produces |
| Legality.CandidatesOrdered | chess/board.py:275-295 | collected moves are strictly ordered by origin and then destination |
| Legality.CandidatesSpec | chess/board.py:275-295 | a move is collected iff its origin holds a piece of the side to move and its destination is produced by that piece's rule |
| Legality.ApplyMove | chess/board.py:293-300 | carrying out a move through its tokens yields a valid board with the move made |
| Legality.ApplyMoveSucceeds | chess/board.py:157-185 | a move goes through iff its origin holds a piece of the side to move and its destination holds neither such a piece nor a king |
| Legality.Survives | chess/board.py:297-304 | the filter's test on one move; it has no contract of its own, and Legality.SurvivesSpec states it |
| Legality.CandidateApplies | chess/board.py:297-300 | every collected move can be carried out, so the filter's do_move never fails |
| Legality.SurvivesSpec | chess/board.py:300-304 | a move is kept iff the mover's king is unattacked on the resulting board |
| Legality.KeptSpec | chess/board.py:297-304 | the filter keeps exactly the moves the test accepts |
| Legality.KeptOrdered | chess/board.py:297-304 | filtering a list ordered by origin and destination leaves it ordered, so the kept moves stay in collection order |
| Legality.KeptNone | chess/board.py:308-341 | when the test accepts no move, nothing is kept |
| Legality.LegalMoves | chess/board.py:266-306 | calc_possible_moves as a pure function; it has no contract of its own, and Legality.LegalMovesSpec characterises it exactly while Legality.CalcPossibleMoves proves the original's loops compute it |
| Legality.LegalMovesSpec | chess/board.py:266-306 | a move is legal iff it starts on a piece of the side to move, is produced by that piece's rule, and leaves the mover's king unattacked; the list is ordered, so no move repeats |
| Legality.LegalMoveApplies | chess/board.py:297-306 | every legal move yields a valid board |
| Legality.CollectFrom | chess/board.py:292-295 | the inner collection loop lists exactly one origin's moves |
| Legality.RemoveRejected | chess/board.py:297-304 | the index-and-pop loop leaves exactly the accepted moves, in order |
| Legality.CalcPossibleMoves | chess/board.py:266-306 | calc_possible_moves returns exactly the legal moves |
| Legality.AnyKeptFrom | chess/board.py:326-340 | the search over one origin finds an accepted move iff that origin has one |
| Legality.NoneKept | chess/board.py:314-341 | the early-exit search reports no move iff the filtered list is empty |
| Legality.HasNoMoves | chess/board.py:308-341 | has_no_moves is true iff calc_possible_moves is empty |
| Evaluation.MaterialBound | chess/board.py:228-241 | a side's material is at most 9 per piece other than its king |
| Evaluation.MaterialOfValid | chess/board.py:228-243 | on a valid board a side holds at most 135 points |
| Evaluation.Score | chess/board.py:243-264 | the scoring rule on the two material totals, the side to move and the two terminal tests; it has no contract of its own, and Evaluation.ScoreCases states its cases |
| Evaluation.Evaluate | chess/board.py:220-264 | evaluate as a pure function; it has no contract of its own, and Evaluation.EvaluateOngoing, EvaluateCheckmate, EvaluateStalemate and EvaluateRange state it |
| Evaluation.ScoreCases | chess/board.py:243-264 | for the side to move the score is its material lead while it has a move, -1000 when mated, and in stalemate +1000 for side 1 iff side 1 does not lead, +1000 for side 2 iff side 1 leads |
| Evaluation.EvaluateOngoing | chess/board.py:243-264 | with a legal move, evaluate is the mover's material minus the opponent's |
| Evaluation.EvaluateCheckmate | chess/board.py:245-251 | with no legal move and the own king attacked, evaluate is -1000 for either side |
| Evaluation.EvaluateStalemate | chess/board.py:252-264 | with no legal move and the king unattacked, side 1 scores +1000 iff its material does not exceed side 2's, and side 2 scores +1000 iff side 1's material exceeds its own |
| Evaluation.EvaluateRange | chess/board.py:220-264 | evaluate lies within ±1000 and reaches ±1000 iff the side to move has no legal move |
| Evaluation.MaterialScan | chess/board.py:234-241 | the grid walk sums each side's piece weights |
| Evaluation.ScoreSteps | chess/board.py:243-264 | seen from the side to move, the assignments yield its material lead while it can move, -1000 when it is mated, and in stalemate +1000 for side 1 unless it leads and for side 2 exactly when side 1 leads; always ±1000 with no move |
| Evaluation.EvaluateScan | chess/board.py:220-264 | evaluate as the original runs it equals the reference evaluation |
| Search.MaxSpec | chess/player.py:94-99 | the maximum is an element of the list and no element exceeds it |
| Search.Negamax | chess/player.py:77-99 | the intended negamax value; it has no contract of its own, and Search.NegamaxSpec states it |
| Search.NegamaxSpec | chess/player.py:77-99 | negamax is the evaluation at depth 0 or with no move; otherwise some move reaches its value and no move's negated child value exceeds it |
| Search.NegamaxRange | chess/player.py:77-99 | search values stay within any bound the evaluation keeps |
| Search.NegamaxSearch | chess/player.py:77-99 | the recursive procedure returns the reference search value |
| Search.ChildSearch | chess/player.py:94-99 | the loop with a running maximum, started below every score, returns the largest negated child value |
| Search.ChooseMoveSearch | chess/player.py:61-75 | BasicMinimax returns no move iff there is none; otherwise a move of maximal value that is the first such in list order |
| Search.ImmediateIsDepthOne | chess/player.py:38-42 | the one-ply score of a move is its search value at depth one |
| Search.ChooseMoveOnePly | chess/player.py:31-51 | OldMinimax returns a maximal move from a list holding exactly the maximal moves, with the first best move listed twice |
| Search.ChooseMoveOnePlyTies | chess/player.py:38-51 | with the best list started empty and the tie branch exclusive of the improving one, the list holds each best-valued move once per listing, in order, and the pick is maximal |
| Search.ChooseMoveRandom | chess/player.py:18-26 | RandomComputer returns no move iff there is none, and otherwise a legal move |
| Search.NegamaxAsWritten | chess/player.py:86-92 | as written, negamax returns the evaluation at depth 0 and fails at every positive depth |
| Search.NegamaxAsWrittenFails | chess/player.py:89 | at every positive depth the as-written search fails where the intended search has a value |
| Search.ChessServices | chess/player.py:68-72 | on a valid board the game's moves are calc_possible_moves, its score is evaluate, and every legal move leads to a valid board |
| Search.ChessNegamaxRange | chess/player.py:77-99 | every chess search value lies within ±1000 |
| Search.ChessNegamaxLeaf | chess/player.py:85-92 | on a valid chess board the search returns evaluate at depth 0 and when no legal move exists |

## Left out

- Reading the position text: splitting the string into a turn character and eight row tokens, and splitting a move string into two tokens. `Construct` takes the tokens and `DoMove` takes the two square tokens.
- Rendering (`__str__`) and the string representation; `RowsOf` stands for the row part of the representation.
- Human input, printing, sleeping, the game loop and the tournament: these are I/O and orchestration.
- Randomness: `random.choice` and `random.randrange` become an arbitrary choice (`:|`) among the allowed entries, so the contracts hold for every possible pick.
- The turn flip and restore inside `is_square_attacked`: the defender is computed and passed explicitly instead. The restored turn is therefore unchanged by construction.
- The redundant `sanity_check` at the start of `do_move`: boards are valid by construction.
- `is_moving` in pieces.py: nothing calls it.
- `Legality.Destinations`: the order of destinations within one origin comes from a Python set in the original and is unspecified. The model fixes it to row-major order; only the order of origins is determined by the original.
- `Legality.Survives`: a move that `do_move` refuses counts as not surviving. The original would raise there, but no collected move is ever refused (`Legality.CandidateApplies`).
- `Pieces.KingNeverStays`: the original's assertion that a king does not list its own square is proved only for a king standing on its owner's square. That is the only way calc_moves is called.
- `Helper.DecodeInpt`: tokens that Python rejects with an exception (wrong length, non-digit) are excluded by the precondition instead of being modelled as errors, because every caller checks the tokens first. Python's `int` also accepts non-ASCII decimal digits; those are not modelled.
- `Helper.EncodeInpt`: rows below -1 (whose text starts with '-') and columns outside Dafny's character range are excluded by the precondition.
- `Search.ChooseMoveSearch`: a depth below 1 is excluded. In the original the search then starts at a negative depth that never reaches 0.
- `Search.Chess`: the successors negamax explores are defined as `do_move` over `calc_possible_moves`, because the original calls a `get_possible_boards` that does not exist (see Findings). Boards that fail the construction invariant have no moves and score 0 in the `Game` value; the original never builds such boards.
- The concrete depth-3 search example of the player tests: it is a mechanical evaluation of thousands of positions, not a property.

## Findings

| source | as written | input that shows it | evidently intended | confidence | as-written member | corrected member |
|---|---|---|---|---|---|---|
| chess/player.py:89 | negamax asks the board for `get_possible_boards()`, which `ChessBoard` does not define, so every call with a positive depth raises | any board at depth 1, which `BasicMinimax.choose_move` reaches with its default depth 2 | the successors are the boards `do_move` gives for each move of `calc_possible_moves` | high; not executed | Search.NegamaxAsWritten (with Search.NegamaxAsWrittenFails) | Search.Negamax (with Search.NegamaxSpec) |
| chess/player.py:43-47 | after an improving move resets the best list to that move, the following `if score == best_score` appends it again; the first move is also listed before the scan and again by it | a position with a single legal move gives the list [m, m]; in general the move that last raised the best score, or the first move when none did, gets twice the weight in the random pick | `elif` together with an empty initial list (or the scan starting at the second move): each best-valued move listed once, for a uniform pick among them | medium; not executed | Search.ChooseMoveOnePly | Search.ChooseMoveOnePlyTies |
