# Chess engine, AI and game session in Dafny

This project models the core of a browser chess app. It has three parts:

- the rules engine: the starting position, a move generator for each piece type, a
  king-safety filter, making a move, check, checkmate, stalemate and move notation;
- the computer opponent: a static evaluator and a random pick among the three
  best-scoring legal moves;
- the game session: the seven state cells of the chess hook and its four handlers
  (square click, reset, undo, AI move).

The model has seven modules:

- `ChessTypes` (`types.dfy`): pieces, players, positions, the 8x8 board and move records.
- `ChessRules` (`rules.dfy`): the rules as pure functions over board values, with the lemmas
  that characterise them (check, legality, the king scan).
- `ChessLogic` (`logic.dfy`): the rules engine as the program runs it. The scans and
  generators keep the program's loops, `break`s and early returns. Each method is proved to
  compute the matching `ChessRules` function.
- `ChessProperties` (`properties.dfy`): properties of the rules, covering the initial layout,
  exact descriptions of each generator, game-end exclusivity and notation read-back.
- `ChessAI` (`ai.dfy`): the evaluator and move choice as functions, the program's loops as
  methods proved against them, and the ranking properties of the choice.
- `ChessGame` (`game.dfy`): the session state as the class `Game`, whose handler methods are
  proved against transition functions on a `GameState` value. The class keeps the invariant
  that the board is the replay of the move history and that White moves after an even
  number of moves.
- `ChessScenarios` (`scenarios.dfy`): three positions played through the rules. White's
  e2-e4 from the start, a rook capture, and fool's mate, which is proved checkmate.

Board squares hold `Option<Piece>`. Row 0 is Black's back rank and row 7 is White's.
Positions are unbounded integers, because the generators form off-board squares before they
filter them, as the program does. Scores are integers counted in half-points: the program's
evaluator adds 0.5 per centre square and subtracts 0.5 per row of king distance, so every
term is doubled (pawn 2, knight and bishop 6, rook 10, queen 18, mate 2000, check 10). That
doubling keeps every comparison the program makes. The random draw of the AI is a parameter
`pick: nat`. The index it selects among the top `n` entries is `pick % n`, and every index
below `n` is reachable.

The handlers of the hook read the state values of the render they were created in. Each
model handler therefore computes from the state before the call and installs the result.
`MakeAIMove` keeps the current selection and highlights, as the program does.

## Model

| member | source | states |
|---|---|---|
| ChessTypes.Opponent | src/utils/chessLogic.ts:233 | the enemy colour differs from the given colour |
| ChessRules.Ray | src/utils/chessLogic.ts:104-117 | every square of a sliding ray is on the board and empty or enemy-held |
| ChessRules.SlidingMoves | src/utils/chessLogic.ts:100-120 | every square a sliding piece reaches is on the board and empty or enemy-held |
| ChessRules.OffsetMoves | src/utils/chessLogic.ts:122-140 | a square is a knight/king-style target iff it is a table offset from the origin and on the board, empty or enemy-held |
| ChessRules.OnBoardOnly | src/utils/chessLogic.ts:55 | the filter keeps exactly the generated moves that lie on the board |
| ChessRules.Relocate | src/utils/chessLogic.ts:250-258 | after the copy-and-move, the origin is empty, the target holds the mover and every other square is unchanged |
| ChessRules.FindKingFrom | src/utils/chessLogic.ts:217-227 | a square the king scan returns is on the board |
| ChessRules.FindKingFromExactly | src/utils/chessLogic.ts:217-227 | the scan returns the first king of the colour in row-major order from its start, and nothing exactly when no such king remains |
| ChessRules.FindKingNone | src/utils/chessLogic.ts:217-227 | with no king of the colour on the board the scan returns null |
| ChessRules.FindKingFirst | src/utils/chessLogic.ts:217-227 | a king with no king of its colour before it in scan order is the one found |
| ChessRules.FoundBeforeExists | src/utils/chessLogic.ts:235-247 | the early-return square scan succeeds iff some square before the scan position satisfies the test |
| ChessRules.IsInCheckExactly | src/utils/chessLogic.ts:229-248 | a side is in check iff it has a king and some enemy piece's unfiltered move reaches that king |
| ChessRules.SafeMoves | src/utils/chessLogic.ts:64 | the king-safety filter keeps only moves from its input |
| ChessRules.SafeMovesExactly | src/utils/chessLogic.ts:59-65 | a move survives the filter iff it was in the input and the simulated move does not leave the mover in check |
| ChessRules.LegalMoves | src/utils/chessLogic.ts:59-65 | an empty square has no moves; every legal move lands on the board on an empty or enemy square |
| ChessRules.LegalMovesExactly | src/utils/chessLogic.ts:59-65 | a legal move is exactly a pseudo-legal move, onto a non-own square, after which the mover is not in check |
| ChessRules.PseudoLegalSound | src/utils/chessLogic.ts:28-56 | an empty square generates nothing; every unfiltered move of a piece lands on the board on a non-own square |
| ChessRules.PieceMovesLand | src/utils/chessLogic.ts:34-53 | every on-board square the type dispatch generates is empty or enemy-held |
| ChessRules.PawnMovesLand | src/utils/chessLogic.ts:67-98 | every on-board pawn target is empty or enemy-held |
| ChessRules.PawnCapturesEnemy | src/utils/chessLogic.ts:86-95 | every diagonal pawn target is on the board and holds an enemy piece |
| ChessRules.HasLegalMoveExactly | src/utils/chessLogic.ts:263-271 | the mate/stalemate scan finds a mover iff some square holds a piece of the colour with a legal move |
| ChessRules.MakeMove | src/utils/chessLogic.ts:194-215 | the move fails iff it is not a legal move; on success the target is on the board and differs from the origin, the record holds the mover, the captured piece and an empty notation, and the new board moves only that piece |
| ChessRules.MakeMoveSucceeds | src/utils/chessLogic.ts:194-215 | every legal destination is accepted, producing the relocated board and the full move record |
| ChessLogic.CreateInitialBoard | src/utils/chessLogic.ts:4-21 | the two fill loops produce the standard starting position |
| ChessLogic.GetPawnMoves | src/utils/chessLogic.ts:67-98 | the pawn generator computes the pawn rule (single, double, diagonal captures in order) |
| ChessLogic.PawnPushes | src/utils/chessLogic.ts:72-84 | the forward part yields the single step onto an empty square and the double step from the start row |
| ChessLogic.GetSlidingMoves | src/utils/chessLogic.ts:100-120 | the per-direction loop concatenates the rays of the directions in order |
| ChessLogic.WalkRay | src/utils/chessLogic.ts:105-116 | the inner loop with its two breaks yields exactly the ray of one direction |
| ChessLogic.GetOffsetMoves | src/utils/chessLogic.ts:122-140 | the offset loop keeps exactly the on-board, non-own table targets in table order |
| ChessLogic.GetRookMoves | src/utils/chessLogic.ts:100-120 | rook moves are the rays of the four orthogonal directions |
| ChessLogic.GetBishopMoves | src/utils/chessLogic.ts:142-162 | bishop moves are the rays of the four diagonal directions |
| ChessLogic.GetQueenMoves | src/utils/chessLogic.ts:164-166 | queen moves are rook moves followed by bishop moves |
| ChessLogic.GetKnightMoves | src/utils/chessLogic.ts:122-140 | knight moves follow the eight-entry knight table |
| ChessLogic.GetKingMoves | src/utils/chessLogic.ts:168-187 | king moves follow the eight neighbour offsets |
| ChessLogic.GetAllPossibleMovesUnsafe | src/utils/chessLogic.ts:28-56 | dispatch on the piece type then the on-board filter gives the pseudo-legal moves; an empty square gives none |
| ChessLogic.GetAllPossibleMoves | src/utils/chessLogic.ts:59-65 | the legal-move generator computes the legal moves |
| ChessLogic.FilterSafeMoves | src/utils/chessLogic.ts:64 | the filter keeps, in order, the moves whose simulation leaves the king unattacked |
| ChessLogic.MakeMove | src/utils/chessLogic.ts:194-215 | the copying move function returns the rules' move result |
| ChessLogic.FindKing | src/utils/chessLogic.ts:217-227 | the nested scan with early return finds the rules' king square |
| ChessLogic.IsInCheck | src/utils/chessLogic.ts:229-248 | the attacker scan decides the rules' check |
| ChessLogic.WouldBeInCheck | src/utils/chessLogic.ts:250-258 | simulating the move on a copy decides check after the move |
| ChessLogic.AnyLegalMove | src/utils/chessLogic.ts:263-271 | the square scan with early exit finds a legal move iff the colour has one |
| ChessLogic.PieceHasMoves | src/utils/chessLogic.ts:265-268 | one square of that scan reports a piece of the colour with a non-empty legal move list |
| ChessLogic.IsCheckmate | src/utils/chessLogic.ts:260-274 | checkmate is check with no legal move |
| ChessLogic.IsStalemate | src/utils/chessLogic.ts:276-290 | stalemate is no check and no legal move |
| ChessProperties.InitialPieceCount | src/utils/chessLogic.ts:4-21 | each side starts with sixteen pieces |
| ChessProperties.InitialLayout | src/utils/chessLogic.ts:4-21 | the back ranks read rook, knight, bishop, queen, king, bishop, knight, rook; pawns fill rows 1 and 6; rows 2-5 are empty |
| ChessProperties.InitialKings | src/utils/chessLogic.ts:4-21 | each side has exactly one king, on column 4 of its home row, and the king scan finds it |
| ChessProperties.RayExactly | src/utils/chessLogic.ts:104-117 | a square is on a ray iff it is a step of the direction, landable, with every earlier step on the board and empty |
| ChessProperties.EmptyRayLength | src/utils/chessLogic.ts:104-117 | on an otherwise empty board a rook ray runs to the edge of the board |
| ChessProperties.RookStep | src/utils/chessLogic.ts:106-107 | a rook step is on the board exactly up to the reach of its direction and never the origin |
| ChessProperties.RookOnEmptyBoard | src/utils/chessLogic.ts:100-120 | a rook on an otherwise empty board has fourteen moves from any square |
| ChessProperties.PawnMovesExactly | src/utils/chessLogic.ts:67-98 | a pawn target is exactly a free single step, a free double step from the start row through a free square, or a diagonal enemy square |
| ChessProperties.PawnCapturesBoth | src/utils/chessLogic.ts:86-95 | the capture loop contributes the left diagonal then the right one, each only onto an enemy |
| ChessProperties.PawnOnFarRank | src/utils/chessLogic.ts:67-98 | a pawn on the far rank has no move (no promotion) |
| ChessProperties.KnightMovesExactly | src/utils/chessLogic.ts:122-140 | knight targets are exactly the table offsets that land on an empty or enemy square |
| ChessProperties.KingMovesExactly | src/utils/chessLogic.ts:168-187 | king targets are exactly the eight neighbours that land on an empty or enemy square |
| ChessProperties.LegalSubsetOfPseudoLegal | src/utils/chessLogic.ts:59-65 | every legal move is a pseudo-legal move |
| ChessProperties.MakeMoveKeepsKingSafe | src/utils/chessLogic.ts:194-215 | a move the move function accepts never leaves the mover's king in check |
| ChessProperties.GameEndExclusive | src/utils/chessLogic.ts:260-290 | checkmate implies check, stalemate excludes check, the two never coincide, and both mean no piece of the side has a legal move |
| ChessProperties.CheckmateHasNoEscape | src/utils/chessLogic.ts:260-274 | in checkmate every unfiltered move of every piece of the mated side leaves its king in check |
| ChessProperties.ParseSquare | src/utils/chessLogic.ts:296-297 | a parsed square name denotes an on-board square |
| ChessProperties.SquareNameRoundTrip | src/utils/chessLogic.ts:296-297 | square names such as "e4" parse back to their square, so distinct squares get distinct names |
| ChessRules.MoveNotationAsWritten | src/utils/chessLogic.ts:292-310 | the text the program records ends with the target square's name and, for a piece other than a pawn, starts with that piece's letter as the program derives it |
| ChessProperties.NotationAsWrittenReadsBack | src/utils/chessLogic.ts:292-310 | the program's text ends with a square name that reads back to the target, contains "x" iff a piece was captured, and starts with a file for a pawn, the mover's own letter for king, queen, rook and bishop, and the king's letter for a knight |
| ChessProperties.LettersAsWritten | src/utils/chessLogic.ts:306 | the letters the program derives: 'K' for king, 'Q' for queen, 'R' for rook, 'B' for bishop and 'K' again for knight |
| ChessProperties.NotationReadsBack | src/utils/chessLogic.ts:292-310 | the corrected notation (knight 'N') reads back fully: target square, "x" iff capture, and the mover's own letter (a file for a pawn) |
| ChessProperties.PawnAdvanceNotation | src/utils/chessLogic.ts:299-303 | White's e2-e4 reads "e4", in the program's text and in the corrected notation |
| ChessProperties.RookCaptureNotation | src/utils/chessLogic.ts:306-309 | a rook taking on d7 reads "Rxd7", in the program's text and in the corrected notation |
| ChessProperties.KnightPrintsAsKingAsWritten | src/utils/chessLogic.ts:306 | as written, a knight move and a king move to the same square print the same text, with letter 'K' |
| ChessProperties.PieceLettersDistinct | src/utils/chessLogic.ts:306 | with algebraic letters, no two non-pawn types share a letter |
| ChessScenarios.PawnAdvanceScenario | src/utils/chessLogic.ts:194-215 | from the starting position the move function accepts e2-e4: e2 ends empty, e4 holds the white pawn, nothing is captured, and the program's text for it is "e4" |
| ChessScenarios.KingSafeAfterPawnAdvance | src/utils/chessLogic.ts:229-258 | after e2-e4 the white king on e1 is not in check, so the king-safety filter keeps the move |
| ChessScenarios.HomePiecesStayBack | src/utils/chessLogic.ts:28-57 | while Black's first two rows are untouched, no black piece on them has a move beyond row 3 |
| ChessScenarios.RookCaptureScenario | src/utils/chessLogic.ts:194-215 | with a white rook on d4 and a black pawn on d7, the move function accepts d4-d7: the rook stands on d7, d4 is empty, the pawn is recorded as captured, and the text is "Rxd7" |
| ChessScenarios.RookReachesPawn | src/utils/chessLogic.ts:100-120 | the rook's ray up the d-file crosses d5 and d6 and stops on the enemy pawn on d7 |
| ChessScenarios.NoKingAfterCapture | src/utils/chessLogic.ts:229-231 | with no king on the board, the side to move is never in check |
| ChessScenarios.FoolsMateScenario | src/utils/chessLogic.ts:260-290 | after 1. f3 e5 2. g4 Qh4, White is checkmated and not stalemated |
| ChessScenarios.CheckedOnDiagonal | src/utils/chessLogic.ts:229-248 | the queen on h4 checks a white king on f2, or on e1 behind an empty f2, when g3 is empty |
| ChessScenarios.StillInCheck | src/utils/chessLogic.ts:250-274 | in the fool's-mate position, every unfiltered move of every white piece leaves White in check |
| ChessScenarios.WhiteHasNoMove | src/utils/chessLogic.ts:260-274 | in the fool's-mate position no white piece has a legal move |
| ChessScenarios.KingOnlyToF2 | src/utils/chessLogic.ts:168-187 | a king on e1 whose neighbours d2, e2, d1 and f1 hold its own pieces can step only to f2 |
| ChessScenarios.AvoidsDiagonal | src/utils/chessLogic.ts:28-57 | in the fool's-mate position no white piece but the king can move onto h4, g3 or f2 |
| ChessAI.PieceValue | src/utils/chessAI.ts:5-12 | the doubled piece values: pawn 2, knight and bishop 6, rook 10, queen 18, only the king 0 |
| ChessAI.RowBalance | src/utils/chessAI.ts:52-64 | within a row, the material term is own value minus enemy value |
| ChessAI.RowsBalance | src/utils/chessAI.ts:52-64 | over the first rows, the material term is own value minus enemy value |
| ChessAI.MaterialIsBalance | src/utils/chessAI.ts:51-64 | the material term equals the mover's army value minus the enemy's |
| ChessAI.KingColumnFrom | src/utils/chessAI.ts:93-99 | the column scan finds the first king of the colour in the row, and none means no king from that column on |
| ChessAI.KingSeenInRows | src/utils/chessAI.ts:91-100 | a king the search holds lies in the rows already scanned |
| ChessAI.KingSeenInRowsExactly | src/utils/chessAI.ts:91-100 | because `break` leaves only the column loop, the search ends on the first king of the last row holding one, and on nothing when no row does |
| ChessAI.KingSafety | src/utils/chessAI.ts:87-109 | king safety lies between -7 and 0 half-points and is 0 without a king |
| ChessAI.Abs | src/utils/chessAI.ts:106 | the absolute value is non-negative and equals the argument or its negation |
| ChessAI.KingSafetyOfFoundKing | src/utils/chessAI.ts:87-109 | when no king stands in a later row than the rules' king, the term is minus the king's row distance to its back rank |
| ChessAI.EvaluateKingSafety | src/utils/chessAI.ts:87-109 | the scan computes the king-safety term |
| ChessAI.CenterCount | src/utils/chessAI.ts:118-123 | the count lies between 0 and the number of squares, is 0 iff none is own and full iff all are |
| ChessAI.CenterCountShared | src/utils/chessAI.ts:111-126 | the two sides' centre counts together never exceed the number of centre squares |
| ChessAI.EvaluateCenterControl | src/utils/chessAI.ts:111-126 | the loop computes the centre-control term |
| ChessAI.PositionalAntisymmetric | src/utils/chessAI.ts:51-68 | swapping sides negates material, king safety and centre control together |
| ChessAI.AdjustmentCases | src/utils/chessAI.ts:70-82 | the mate bonus applies iff the enemy is mated, the penalty iff only the mover is; the check penalty iff the mover is in check, the bonus iff only the enemy is |
| ChessAI.EvaluateMaterial | src/utils/chessAI.ts:51-64 | the material loop computes the material term |
| ChessAI.EvaluatePosition | src/utils/chessAI.ts:47-85 | the evaluator computes material, positional terms and both adjustments |
| ChessAI.EvaluateMate | src/utils/chessAI.ts:70-75 | the mate tests, stopping at the first that holds, give the mate adjustment |
| ChessAI.EvaluateCheck | src/utils/chessAI.ts:77-82 | the check tests, stopping at the first that holds, give the check adjustment |
| ChessAI.LegalTargetCandidate | src/utils/chessAI.ts:24-30 | a legal destination yields exactly one candidate, scored on the relocated board |
| ChessAI.Scored | src/utils/chessAI.ts:24-30 | scoring a destination list keeps its length and contains exactly the destinations, each with its score |
| ChessAI.TargetCandidatesScored | src/utils/chessAI.ts:24-30 | over legal destinations the move function never fails, so each destination is scored on the board it leads to |
| ChessAI.TargetCandidatesCount | src/utils/chessAI.ts:24-30 | over legal destinations one candidate is pushed per destination |
| ChessAI.TargetCandidatesExactly | src/utils/chessAI.ts:24-30 | the candidates of a piece are exactly its destinations, each scored by the evaluation after the move |
| ChessAI.SquareCandidatesExactly | src/utils/chessAI.ts:19-31 | the candidates of a square are exactly the candidate moves from it |
| ChessAI.RowCandidatesExactly | src/utils/chessAI.ts:18-32 | the candidates of a row prefix are exactly the candidate moves from its squares |
| ChessAI.CandidatesInRowsExactly | src/utils/chessAI.ts:17-33 | the candidates of the first rows are exactly the candidate moves from those rows |
| ChessAI.CandidatesExactly | src/utils/chessAI.ts:17-33 | the AI weighs every legal move of the colour and nothing else |
| ChessAI.SquareCandidatesCount | src/utils/chessAI.ts:19-30 | a square offers as many candidates as its piece of the colour has legal moves |
| ChessAI.RowCandidatesEmpty | src/utils/chessAI.ts:18-32 | a row prefix yields no candidate iff none of its squares has a legal mover |
| ChessAI.CandidatesInRowsEmpty | src/utils/chessAI.ts:17-33 | the first rows yield no candidate iff none of their squares has a legal mover |
| ChessAI.CandidatesEmptyExactly | src/utils/chessAI.ts:35 | the candidate list is empty iff the colour has no legal move |
| ChessAI.CandidatesOnBoard | src/utils/chessAI.ts:17-33 | every candidate moves between on-board squares |
| ChessAI.InsertByScore | src/utils/chessAI.ts:38 | inserting keeps the multiset plus the new entry, grows by one and heads with the new entry or the old head |
| ChessAI.InsertKeepsSorted | src/utils/chessAI.ts:38 | insertion keeps a best-first list best-first |
| ChessAI.SortByScore | src/utils/chessAI.ts:38 | the sort yields a best-first permutation of the candidates |
| ChessAI.CountAboveSorted | src/utils/chessAI.ts:38 | sorting does not change how many candidates beat a score |
| ChessAI.SortedCountAbove | src/utils/chessAI.ts:38-41 | in a best-first list at most `i` entries beat the entry at index `i` |
| ChessAI.NoneAboveHead | src/utils/chessAI.ts:38-41 | nothing in a best-first list beats its head |
| ChessAI.Min | src/utils/chessAI.ts:41 | the minimum is at most both arguments and equal to one of them |
| ChessAI.DrawIndex | src/utils/chessAI.ts:42 | the drawn index is below the count, and every index below the count is drawn by some pick |
| ChessAI.Chosen | src/utils/chessAI.ts:41-42 | the drawn entry is an entry of the ranking |
| ChessAI.AIMove | src/utils/chessAI.ts:14-45 | a chosen move goes between on-board squares |
| ChessAI.AIMoveNoneExactly | src/utils/chessAI.ts:35 | the AI returns null iff the colour has no legal move |
| ChessAI.ChosenIsCandidate | src/utils/chessAI.ts:41-44 | the drawn entry is a candidate of the unranked list |
| ChessAI.AIMoveIsLegal | src/utils/chessAI.ts:14-45 | the AI moves a piece of its own colour to one of that piece's legal destinations |
| ChessAI.AIMoveAmongTopThree | src/utils/chessAI.ts:38-44 | fewer than three weighed moves evaluate strictly better than the move played |
| ChessAI.AIMoveBeatsRest | src/utils/chessAI.ts:38-44 | the move played scores at least as much as every candidate ranked below the top three |
| ChessAI.AIMoveBestAtFirstPick | src/utils/chessAI.ts:38-44 | when the draw selects the first entry, no legal move evaluates better than the move played |
| ChessAI.ScoreMoves | src/utils/chessAI.ts:24-30 | the inner loop computes the candidates of one piece in destination order |
| ChessAI.ScoreMove | src/utils/chessAI.ts:25-29 | one iteration pushes the scored move exactly when the move function accepts it |
| ChessAI.CollectCandidates | src/utils/chessAI.ts:17-33 | the nested scan collects the candidates in row-major order |
| ChessAI.GetAIMove | src/utils/chessAI.ts:14-45 | the AI's procedure returns the chosen move of the draw |
| ChessGame.StatusOfExactly | src/hooks/useChessGame.ts:16-28 | the status is checkmate, check, stalemate or playing exactly in the corresponding situation of the side to move |
| ChessGame.ClickedCases | src/hooks/useChessGame.ts:30-57 | a finished game ignores clicks; with a selection the click clears selection and highlights and only a highlighted square can change the position; without one an own piece is selected with its legal moves, anything else is ignored |
| ChessGame.ClickPlaysMove | src/hooks/useChessGame.ts:37-50 | a click on a highlighted accepted square plays exactly that move: board relocated, history extended by the move carrying the program's notation text (`MoveNotationAsWritten`), turn passed, status recomputed, invariant kept |
| ChessGame.AIPlayedIgnoresFlag | src/hooks/useChessGame.ts:94-113 | the thinking flag plays no part in the move the AI makes |
| ChessGame.InitialConsistent | src/hooks/useChessGame.ts:8-14 | the initial state satisfies the session invariant |
| ChessGame.PlayedKeepsConsistent | src/hooks/useChessGame.ts:38-46 | playing an accepted move keeps the board the replay of the history and the turn its parity |
| ChessGame.PlayerAfterNext | src/hooks/useChessGame.ts:45 | each move passes the turn |
| ChessGame.ClickedKeepsConsistent | src/hooks/useChessGame.ts:30-57 | every click keeps the session invariant |
| ChessGame.ReplayStep | src/hooks/useChessGame.ts:76-81 | replaying one more move applies the move function once more, keeping the board when it fails |
| ChessGame.UndoneKeepsConsistent | src/hooks/useChessGame.ts:69-89 | undo keeps the session invariant |
| ChessGame.AIMovedKeepsConsistent | src/hooks/useChessGame.ts:91-114 | an AI turn keeps the session invariant |
| ChessGame.AIPlayedKeepsConsistent | src/hooks/useChessGame.ts:99-111 | playing the AI's choice keeps the session invariant |
| ChessGame.UndoneValue | src/hooks/useChessGame.ts:83-88 | undo of a non-empty history installs the replayed board, the shortened history, the parity player, a cleared selection and the recomputed status |
| ChessGame.UndoRevertsPlayed | src/hooks/useChessGame.ts:69-89 | undo right after a move restores the board, the history and the side to move |
| ChessGame.ReplayMoves | src/hooks/useChessGame.ts:73-81 | the replay loop rebuilds the board the history leads to from the initial board |
| ChessGame.Game.constructor | src/hooks/useChessGame.ts:8-14 | the session starts in the initial state, consistent |
| ChessGame.Game.UpdateGameStatus | src/hooks/useChessGame.ts:16-28 | only the status changes, to the status of the given side on the given board |
| ChessGame.Game.Commit | src/hooks/useChessGame.ts:40-46 | records an accepted move: board, history extended by the move with the program's notation text, turn, status |
| ChessGame.Game.MoveSelected | src/hooks/useChessGame.ts:35-50 | a click with a selection plays the selected piece there when highlighted and accepted, recording the program's notation text, and clears the selection |
| ChessGame.Game.OnSquareClick | src/hooks/useChessGame.ts:30-57 | the click handler performs the click transition (a played move records the program's notation text) and keeps the invariant |
| ChessGame.Game.SelectSquare | src/hooks/useChessGame.ts:51-56 | a click without a selection selects an own piece and highlights its legal moves |
| ChessGame.Game.ResetGame | src/hooks/useChessGame.ts:59-67 | reset restores the initial state, consistent |
| ChessGame.Game.Retract | src/hooks/useChessGame.ts:83-88 | installs the rebuilt board, shortened history and side to move, clears the selection and recomputes the status |
| ChessGame.Game.UndoMove | src/hooks/useChessGame.ts:69-89 | undo performs the undo transition (nothing on an empty history) and keeps the invariant |
| ChessGame.Game.PlayAIChoice | src/hooks/useChessGame.ts:99-111 | asks the AI and plays its move when there is one, recording the program's notation text |
| ChessGame.Game.MakeAIMove | src/hooks/useChessGame.ts:91-114 | an AI turn does nothing in a finished game, otherwise plays the AI's choice, recorded with the program's notation text, and ends with the thinking flag down; the invariant is kept |

## Left out

- Rendering, the React components and the hook's plumbing (`useState`, `useCallback`, the returned object) are not modelled. The state cells are the fields of `Game`.
- The one-second wait in `makeAIMove` is left out, and so is anything the user does during it. The model runs the handler's synchronous parts as one step.
- `Math.random` is replaced by the parameter `pick`.
- Floating-point scores are replaced by integer half-points. Every value the evaluator produces is a multiple of 0.5, so the doubling is exact.
- Castling, en passant, promotion and the `hasMoved` and `isPromotion`/`isCastling`/`isEnPassant` fields: the program never sets or reads them.
- The `board` parameter of `getMoveNotation` is not modelled, because the function never reads it.
- NotationReadsBack: the full letter read-back holds only for the corrected notation `MoveNotation`. In the text the program records, a knight reads back as a king; `NotationAsWrittenReadsBack` proves what does hold.
- `ChessLogic` methods and the rules functions require an on-board origin square. The program would fail on an off-board row, and every caller passes a board square.
- SortByScore: the sort is modelled as a stable insertion sort. The model states and proves that it is a best-first permutation, but not that it keeps ties in their original order. The choice properties (`AIMoveAmongTopThree`, `AIMoveBeatsRest`, `AIMoveBestAtFirstPick`) do not depend on tie order.
- KingSafetyOfFoundKing: it relates the term to the king the rules find only when no later row holds a king of that colour. `KingSeenInRowsExactly` states the general case.
- Some loop bodies are split into helper methods, each proved against its own function: `PawnPushes`, `WalkRay`, `FilterSafeMoves`, `PieceHasMoves`, `ScoreMove`, `ScoreMoves`, `CollectCandidates`, `EvaluateMate`, `EvaluateCheck`, `ReplayMoves`, `Commit`, `MoveSelected`, `SelectSquare`, `Retract` and `PlayAIChoice`. The board reads and state writes keep the program's order. `EvaluateMate` and `EvaluateCheck` short-circuit as the program's if/else chains do: the second side is tested only when the first test fails.

## Findings

| source | as written | input that shows it | evidently intended | confidence | as-written member | corrected member |
|---|---|---|---|---|---|---|
| src/utils/chessLogic.ts:306 | the piece letter is the upper-cased first letter of the type name, so a knight prints as 'K', the king's letter | a knight move from g1 to f3 and a king move from e2 to f3 both render as "Kf3" | algebraic notation, where the knight is 'N' and every non-pawn type has its own letter | not executed | ChessProperties.KnightPrintsAsKingAsWritten | ChessProperties.PieceLettersDistinct |

The session records the text the program produces: the move history holds
`MoveNotationAsWritten`, in which a knight's move carries the king's letter. The corrected
notation `MoveNotation` takes its letters from the table `PieceLetter`, which has 'N' for the
knight. `PieceLettersDistinct` is proved about that table and `NotationReadsBack` about the
corrected notation.
