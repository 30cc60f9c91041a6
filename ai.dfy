/** The move selector: a static evaluator and a pick among the best-scoring legal moves.
    Every score is counted in half-points, so the evaluator's constants (pawn 1, king-safety
    0.5 per row, centre 0.5 per square) are exact integers here. */
module ChessAI {
  import opened ChessTypes
  import Rules = ChessRules
  import Logic = ChessLogic

  // ---------------------------------------------------------------------------------------
  // Scores

  /** Material values in half-points: pawn 1, knight 3, bishop 3, rook 5, queen 9, king 0. */
  function PieceValue(kind: PieceType): (v: int)
    ensures 0 <= v <= 18
    ensures v == 0 <==> kind == King
    ensures kind == Pawn ==> v == 2
    ensures kind == Knight || kind == Bishop ==> v == 6
    ensures kind == Rook ==> v == 10
    ensures kind == Queen ==> v == 18
  {
    match kind
    case Pawn => 2
    case Knight => 6
    case Bishop => 6
    case Rook => 10
    case Queen => 18
    case King => 0
  }

  /** Twice the evaluator's bonus for mating the enemy (1000 points). */
  const MateScore: int := 2000

  /** Twice the evaluator's penalty for standing in check (5 points). */
  const CheckScore: int := 10

  // ---------------------------------------------------------------------------------------
  // Material

  /** What one square adds to the material count of `color`: its piece's value, counted for
      `color` when the piece is its own and against it otherwise. */
  function SquareMaterial(cell: Cell, color: Player): int {
    match cell
    case None => 0
    case Some(p) => if p.color == color then PieceValue(p.kind) else -PieceValue(p.kind)
  }

  /** The material count of `color` over the first `cols` squares of row `row`. */
  function MaterialInRow(b: Board, color: Player, row: int, cols: int): int
    requires 0 <= row < 8 && 0 <= cols <= 8
    decreases cols
  {
    if cols == 0 then 0 else MaterialInRow(b, color, row, cols - 1) + SquareMaterial(b[row][cols - 1], color)
  }

  /** The material count of `color` over the first `rows` rows, in the evaluator's scan order. */
  function MaterialInRows(b: Board, color: Player, rows: int): int
    requires 0 <= rows <= 8
    decreases rows
  {
    if rows == 0 then 0 else MaterialInRows(b, color, rows - 1) + MaterialInRow(b, color, rows - 1, 8)
  }

  function Material(b: Board, color: Player): int {
    MaterialInRows(b, color, 8)
  }

  /** The value one square adds to the army of `color`. */
  function SquareArmy(cell: Cell, color: Player): int {
    if Rules.IsColor(cell, color) then PieceValue(cell.value.kind) else 0
  }

  function ArmyInRow(b: Board, color: Player, row: int, cols: int): int
    requires 0 <= row < 8 && 0 <= cols <= 8
    decreases cols
  {
    if cols == 0 then 0 else ArmyInRow(b, color, row, cols - 1) + SquareArmy(b[row][cols - 1], color)
  }

  function ArmyInRows(b: Board, color: Player, rows: int): int
    requires 0 <= rows <= 8
    decreases rows
  {
    if rows == 0 then 0 else ArmyInRows(b, color, rows - 1) + ArmyInRow(b, color, rows - 1, 8)
  }

  /** The total value of the pieces of `color`. */
  function Army(b: Board, color: Player): int {
    ArmyInRows(b, color, 8)
  }

  lemma {:induction false} RowBalance(b: Board, color: Player, row: int, cols: int)
    requires 0 <= row < 8 && 0 <= cols <= 8
    ensures MaterialInRow(b, color, row, cols) == ArmyInRow(b, color, row, cols) - ArmyInRow(b, Opponent(color), row, cols)
    decreases cols
  {
    if cols > 0 {
      RowBalance(b, color, row, cols - 1);
      var cell := b[row][cols - 1];
      if cell.Some? && cell.value.color != color {
        assert cell.value.color == Opponent(color);
      }
    }
  }

  lemma {:induction false} RowsBalance(b: Board, color: Player, rows: int)
    requires 0 <= rows <= 8
    ensures MaterialInRows(b, color, rows) == ArmyInRows(b, color, rows) - ArmyInRows(b, Opponent(color), rows)
    decreases rows
  {
    if rows > 0 {
      RowsBalance(b, color, rows - 1);
      RowBalance(b, color, rows - 1, 8);
    }
  }

  /** The material term is the mover's army minus the enemy's army. */
  lemma MaterialIsBalance(b: Board, color: Player)
    ensures Material(b, color) == Army(b, color) - Army(b, Opponent(color))
  {
    RowsBalance(b, color, 8);
  }

  // ---------------------------------------------------------------------------------------
  // King safety

  /** The first column from `col` on in row `row` holding the king of `color`. */
  function KingColumnFrom(b: Board, color: Player, row: int, col: int): (r: Option<int>)
    requires 0 <= row < 8 && 0 <= col <= 8
    ensures r.Some? ==>
      && col <= r.value < 8 && Rules.IsKingOf(b[row][r.value], color)
      && forall c | col <= c < r.value :: !Rules.IsKingOf(b[row][c], color)
    ensures r.None? ==> forall c | col <= c < 8 :: !Rules.IsKingOf(b[row][c], color)
    decreases 8 - col
  {
    if col == 8 then None
    else if Rules.IsKingOf(b[row][col], color) then Some(col)
    else KingColumnFrom(b, color, row, col + 1)
  }

  /** No king of `color` stands in row `row`. */
  predicate NoKingInRow(b: Board, color: Player, row: int)
    requires 0 <= row < 8
  {
    forall c | 0 <= c < 8 :: !Rules.IsKingOf(b[row][c], color)
  }

  /** Where the evaluator's king search stands after `rows` rows. Its `break` only leaves the
      column loop, so a king found in a later row replaces one found in an earlier row. */
  function KingSeenInRows(b: Board, color: Player, rows: int): (r: Option<Position>)
    requires 0 <= rows <= 8
    ensures r.Some? ==> 0 <= r.value.row < rows && 0 <= r.value.col < 8
    decreases rows
  {
    if rows == 0 then None
    else match KingColumnFrom(b, color, rows - 1, 0)
      case Some(c) => Some(Pos(rows - 1, c))
      case None => KingSeenInRows(b, color, rows - 1)
  }

  /** The search ends on the first king of the last row that holds one, and finds nothing
      exactly when no row holds a king. */
  lemma {:induction false} KingSeenInRowsExactly(b: Board, color: Player, rows: int)
    requires 0 <= rows <= 8
    ensures var r := KingSeenInRows(b, color, rows);
      && (r.Some? ==>
        && Rules.IsKingOf(b[r.value.row][r.value.col], color)
        && (forall c | 0 <= c < r.value.col :: !Rules.IsKingOf(b[r.value.row][c], color))
        && forall rr | r.value.row < rr < rows :: NoKingInRow(b, color, rr))
      && (r.None? ==> forall rr | 0 <= rr < rows :: NoKingInRow(b, color, rr))
    decreases rows
  {
    if rows > 0 {
      KingSeenInRowsExactly(b, color, rows - 1);
      match KingColumnFrom(b, color, rows - 1, 0)
      case Some(c) =>
        assert KingSeenInRows(b, color, rows) == Some(Pos(rows - 1, c));
      case None =>
        assert NoKingInRow(b, color, rows - 1);
        var r := KingSeenInRows(b, color, rows - 1);
        assert KingSeenInRows(b, color, rows) == r;
        if r.Some? {
          forall rr | r.value.row < rr < rows
            ensures NoKingInRow(b, color, rr)
          {
            if rr < rows - 1 {
              assert r.value.row < rr < rows - 1;
            }
          }
        } else {
          forall rr | 0 <= rr < rows
            ensures NoKingInRow(b, color, rr)
          {
            if rr < rows - 1 {
              assert 0 <= rr < rows - 1;
            }
          }
        }
    }
  }

  /** Minus half a point per row between the king and its own back rank; 0 without a king. */
  function KingSafety(b: Board, color: Player): (s: int)
    ensures -7 <= s <= 0
    ensures (forall r | 0 <= r < 8 :: NoKingInRow(b, color, r)) ==> s == 0
  {
    match KingSeenInRows(b, color, 8)
    case None => 0
    case Some(k) =>
      KingSeenInRowsExactly(b, color, 8);
      assert !NoKingInRow(b, color, k.row);
      -Abs(k.row - Rules.HomeRow(color))
  }

  function Abs(x: int): (r: int)
    ensures r >= 0 && (r == x || r == -x)
  {
    if x < 0 then -x else x
  }

  /** With the kings of `color` all in one row, the evaluator measures the king the rules
      engine finds. */
  lemma KingSafetyOfFoundKing(b: Board, color: Player, k: Position)
    requires Rules.FindKing(b, color) == Some(k)
    requires forall r | k.row < r < 8 :: NoKingInRow(b, color, r)
    ensures KingSafety(b, color) == -Abs(k.row - Rules.HomeRow(color))
  {
    Rules.FindKingFromExactly(b, color, 0, 0);
    assert Rules.IsKingOf(b[k.row][k.col], color);
    assert !NoKingInRow(b, color, k.row);
    var seen := KingSeenInRows(b, color, 8);
    KingSeenInRowsExactly(b, color, 8);
    assert seen.Some?;
    assert !NoKingInRow(b, color, seen.value.row);
  }

  /** Scans the board for the king of `color` (the `break` leaves only the column loop) and
      scores its distance from the back rank. */
  method EvaluateKingSafety(b: Board, color: Player) returns (safety: int)
    ensures safety == KingSafety(b, color)
  {
    safety := 0;
    var kingPos: Option<Position> := None;
    for row := 0 to 8
      invariant kingPos == KingSeenInRows(b, color, row)
    {
      for col := 0 to 8
        invariant KingColumnFrom(b, color, row, 0) == KingColumnFrom(b, color, row, col)
      {
        var piece := b[row][col];
        if piece.Some? && piece.value.kind == King && piece.value.color == color {
          kingPos := Some(Pos(row, col));
          break;
        }
      }
    }
    if kingPos.None? {
      return 0;
    }
    var backRank := if color == White then 7 else 0;
    safety := safety + Abs(kingPos.value.row - backRank) * -1;
  }

  // ---------------------------------------------------------------------------------------
  // Centre control

  const CenterSquares: seq<Position> := [Pos(3, 3), Pos(3, 4), Pos(4, 3), Pos(4, 4)]

  /** Half a point for each of `squares` that holds a piece of `color`. */
  function CenterCount(b: Board, color: Player, squares: seq<Position>): (r: int)
    requires forall i | 0 <= i < |squares| :: Rules.IsValidPosition(squares[i])
    ensures 0 <= r <= |squares|
    ensures r == 0 <==> forall i | 0 <= i < |squares| :: !Rules.IsColor(Rules.At(b, squares[i]), color)
    ensures r == |squares| <==> forall i | 0 <= i < |squares| :: Rules.IsColor(Rules.At(b, squares[i]), color)
    decreases |squares|
  {
    if squares == [] then 0
    else
      var init := squares[..|squares| - 1];
      assert forall i | 0 <= i < |init| :: init[i] == squares[i];
      CenterCount(b, color, init) + if Rules.IsColor(Rules.At(b, squares[|squares| - 1]), color) then 1 else 0
  }

  function CenterControl(b: Board, color: Player): int {
    CenterCount(b, color, CenterSquares)
  }

  /** A centre square counts for at most one side, so the two counts share the four squares. */
  lemma {:induction false} CenterCountShared(b: Board, color: Player, squares: seq<Position>)
    requires forall i | 0 <= i < |squares| :: Rules.IsValidPosition(squares[i])
    ensures CenterCount(b, color, squares) + CenterCount(b, Opponent(color), squares) <= |squares|
    decreases |squares|
  {
    if squares != [] {
      var init := squares[..|squares| - 1];
      assert forall i | 0 <= i < |init| :: init[i] == squares[i];
      CenterCountShared(b, color, init);
    }
  }

  method EvaluateCenterControl(b: Board, color: Player) returns (control: int)
    ensures control == CenterControl(b, color)
  {
    control := 0;
    var centerSquares := CenterSquares;
    for i := 0 to |centerSquares|
      invariant control == CenterCount(b, color, centerSquares[..i])
    {
      var square := centerSquares[i];
      var piece := b[square.row][square.col];
      if piece.Some? && piece.value.color == color {
        control := control + 1;
      }
      assert centerSquares[..i + 1][..i] == centerSquares[..i];
    }
    assert centerSquares[..|centerSquares|] == CenterSquares;
  }

  // ---------------------------------------------------------------------------------------
  // The whole evaluation

  /** Material, king safety and centre control, each as the mover's term minus the enemy's. */
  function Positional(b: Board, color: Player): int {
    Material(b, color)
      + (KingSafety(b, color) - KingSafety(b, Opponent(color)))
      + (CenterControl(b, color) - CenterControl(b, Opponent(color)))
  }

  /** Swapping sides negates the positional part of the score. */
  lemma PositionalAntisymmetric(b: Board, color: Player)
    ensures Positional(b, Opponent(color)) == -Positional(b, color)
  {
    MaterialIsBalance(b, color);
    MaterialIsBalance(b, Opponent(color));
    assert Opponent(Opponent(color)) == color;
  }

  /** The mate term: a bonus when the enemy is mated, otherwise a penalty when the mover is. */
  function MateAdjustment(b: Board, color: Player): int {
    if Rules.IsCheckmate(b, Opponent(color)) then MateScore
    else if Rules.IsCheckmate(b, color) then -MateScore
    else 0
  }

  /** The check term: a penalty when the mover is in check, otherwise a bonus when the enemy is. */
  function CheckAdjustment(b: Board, color: Player): int {
    if Rules.IsInCheck(b, color) then -CheckScore
    else if Rules.IsInCheck(b, Opponent(color)) then CheckScore
    else 0
  }

  /** Each adjustment takes one of three values, and which one is decided by mate and check:
      the bonus and the penalty exclude each other. */
  lemma AdjustmentCases(b: Board, color: Player)
    ensures MateAdjustment(b, color) == MateScore <==> Rules.IsCheckmate(b, Opponent(color))
    ensures MateAdjustment(b, color) == -MateScore <==>
      !Rules.IsCheckmate(b, Opponent(color)) && Rules.IsCheckmate(b, color)
    ensures MateAdjustment(b, color) == 0 <==>
      !Rules.IsCheckmate(b, Opponent(color)) && !Rules.IsCheckmate(b, color)
    ensures CheckAdjustment(b, color) == -CheckScore <==> Rules.IsInCheck(b, color)
    ensures CheckAdjustment(b, color) == CheckScore <==>
      !Rules.IsInCheck(b, color) && Rules.IsInCheck(b, Opponent(color))
    ensures CheckAdjustment(b, color) == 0 <==>
      !Rules.IsInCheck(b, color) && !Rules.IsInCheck(b, Opponent(color))
  {
  }

  function Evaluation(b: Board, color: Player): int {
    Positional(b, color) + MateAdjustment(b, color) + CheckAdjustment(b, color)
  }

  /** The material loop of the evaluator: adds the value of every own piece and subtracts the
      value of every enemy piece. */
  method EvaluateMaterial(b: Board, color: Player) returns (score: int)
    ensures score == Material(b, color)
  {
    score := 0;
    for row := 0 to 8
      invariant score == MaterialInRows(b, color, row)
    {
      for col := 0 to 8
        invariant score == MaterialInRows(b, color, row) + MaterialInRow(b, color, row, col)
      {
        var piece := b[row][col];
        if piece.Some? {
          var value := PieceValue(piece.value.kind);
          if piece.value.color == color {
            score := score + value;
          } else {
            score := score - value;
          }
        }
      }
    }
  }

  /** Scores a board for `color`: material, then king safety and centre control for both
      sides, then the mate and check adjustments. */
  method EvaluatePosition(b: Board, color: Player) returns (score: int)
    ensures score == Evaluation(b, color)
  {
    var enemyColor := Opponent(color);
    score := EvaluateMaterial(b, color);

    var ownSafety := EvaluateKingSafety(b, color);
    var enemySafety := EvaluateKingSafety(b, enemyColor);
    score := score + (ownSafety - enemySafety);
    var ownCenter := EvaluateCenterControl(b, color);
    var enemyCenter := EvaluateCenterControl(b, enemyColor);
    score := score + (ownCenter - enemyCenter);

    var mate := EvaluateMate(b, color);
    var check := EvaluateCheck(b, color);
    score := score + mate + check;
  }

  /** The mate tests of the evaluator: the enemy's mate first, the mover's only when the enemy
      is not mated. */
  method EvaluateMate(b: Board, color: Player) returns (adjustment: int)
    ensures adjustment == MateAdjustment(b, color)
  {
    var enemyMated := Logic.IsCheckmate(b, Opponent(color));
    if enemyMated {
      adjustment := MateScore;
    } else {
      var mated := Logic.IsCheckmate(b, color);
      adjustment := if mated then -MateScore else 0;
    }
  }

  /** The check tests of the evaluator: the mover's check first, the enemy's only when the
      mover is not in check. */
  method EvaluateCheck(b: Board, color: Player) returns (adjustment: int)
    ensures adjustment == CheckAdjustment(b, color)
  {
    var inCheck := Logic.IsInCheck(b, color);
    if inCheck {
      adjustment := -CheckScore;
    } else {
      var enemyInCheck := Logic.IsInCheck(b, Opponent(color));
      adjustment := if enemyInCheck then CheckScore else 0;
    }
  }

  // ---------------------------------------------------------------------------------------
  // Move choice

  /** A move the AI weighs, with the evaluation (for the mover) of the board after it. */
  datatype Candidate = Candidate(from: Position, to: Position, score: int)

  /** The candidates of the piece on `from`: one per destination in `tos` that the move
      function accepts, scored on the board it returns, in the order of `tos`. */
  function TargetCandidates(b: Board, color: Player, from: Position, tos: seq<Position>): seq<Candidate>
    requires Rules.IsValidPosition(from)
    decreases |tos|
  {
    if tos == [] then []
    else TargetCandidates(b, color, from, tos[..|tos| - 1]) + TargetCandidate(b, color, from, tos[|tos| - 1])
  }

  /** The candidate of the move from `from` to `to`, if the move function accepts it. */
  function TargetCandidate(b: Board, color: Player, from: Position, to: Position): seq<Candidate>
    requires Rules.IsValidPosition(from)
  {
    match Rules.MakeMove(b, from, to)
    case None => []
    case Some(result) => [Candidate(from, to, Evaluation(result.newBoard, color))]
  }

  /** The candidates of the square (row, col): those of its legal moves when it holds a piece
      of `color`, none otherwise. */
  function SquareCandidates(b: Board, color: Player, row: int, col: int): seq<Candidate>
    requires 0 <= row < 8 && 0 <= col < 8
  {
    if Rules.IsColor(b[row][col], color) then
      TargetCandidates(b, color, Pos(row, col), Rules.LegalMoves(b, Pos(row, col)))
    else []
  }

  /** The candidates of the first `cols` squares of row `row`, left to right. */
  function RowCandidates(b: Board, color: Player, row: int, cols: int): seq<Candidate>
    requires 0 <= row < 8 && 0 <= cols <= 8
    decreases cols
  {
    if cols == 0 then [] else RowCandidates(b, color, row, cols - 1) + SquareCandidates(b, color, row, cols - 1)
  }

  /** The candidates of the first `rows` rows, in the AI's scan order. */
  function CandidatesInRows(b: Board, color: Player, rows: int): seq<Candidate>
    requires 0 <= rows <= 8
    decreases rows
  {
    if rows == 0 then [] else CandidatesInRows(b, color, rows - 1) + RowCandidates(b, color, rows - 1, 8)
  }

  /** Every move the AI weighs for `color`, in scan order. */
  function Candidates(b: Board, color: Player): seq<Candidate> {
    CandidatesInRows(b, color, 8)
  }

  /** A legal move of a piece of `color`, scored by the evaluation of the board after it. */
  predicate IsCandidate(b: Board, color: Player, m: Candidate) {
    && Rules.IsValidPosition(m.from) && Rules.IsColor(Rules.At(b, m.from), color)
    && m.to in Rules.LegalMoves(b, m.from)
    && m.score == Evaluation(Rules.Relocate(b, m.from, m.to), color)
  }

  /** A legal destination gives exactly one candidate, scored on the board with the piece
      moved there. */
  lemma LegalTargetCandidate(b: Board, color: Player, from: Position, to: Position)
    requires Rules.IsValidPosition(from) && to in Rules.LegalMoves(b, from)
    ensures Rules.IsValidPosition(to)
    ensures TargetCandidate(b, color, from, to) ==
      [Candidate(from, to, Evaluation(Rules.Relocate(b, from, to), color))]
  {
    Rules.MakeMoveSucceeds(b, from, to);
  }

  /** The candidates `tos` would give from `from` if the move function accepted every one of
      them, each scored by `score`. */
  function Scored(from: Position, tos: seq<Position>, score: Position -> int): (r: seq<Candidate>)
    ensures |r| == |tos|
    ensures forall m :: m in r <==> m.from == from && m.to in tos && m.score == score(m.to)
    decreases |tos|
  {
    if tos == [] then []
    else
      var to := tos[|tos| - 1];
      assert tos == tos[..|tos| - 1] + [to];
      Scored(from, tos[..|tos| - 1], score) + [Candidate(from, to, score(to))]
  }

  /** The evaluation of the board after moving the piece on `from` to a square. */
  function ScoreAfter(b: Board, color: Player, from: Position): Position -> int {
    (to: Position) =>
      if Rules.IsValidPosition(from) && Rules.IsValidPosition(to)
      then Evaluation(Rules.Relocate(b, from, to), color) else 0
  }

  /** Over legal destinations the move function never fails, so the candidates of a piece are
      its destinations, in order, each scored on the board with the piece moved there. */
  lemma {:induction false} TargetCandidatesScored(b: Board, color: Player, from: Position, tos: seq<Position>)
    requires Rules.IsValidPosition(from)
    requires forall t | t in tos :: t in Rules.LegalMoves(b, from)
    ensures TargetCandidates(b, color, from, tos) == Scored(from, tos, ScoreAfter(b, color, from))
    decreases |tos|
  {
    if tos != [] {
      var to := tos[|tos| - 1];
      var front := tos[..|tos| - 1];
      assert forall t | t in front :: t in tos;
      TargetCandidatesScored(b, color, from, front);
      LegalTargetCandidate(b, color, from, to);
    }
  }

  lemma TargetCandidatesCount(b: Board, color: Player, from: Position, tos: seq<Position>)
    requires Rules.IsValidPosition(from)
    requires forall t | t in tos :: t in Rules.LegalMoves(b, from)
    ensures |TargetCandidates(b, color, from, tos)| == |tos|
  {
    TargetCandidatesScored(b, color, from, tos);
  }

  /** Over legal destinations, the candidates are the destinations, each scored on the board
      with the piece moved there. */
  lemma TargetCandidatesExactly(b: Board, color: Player, from: Position, tos: seq<Position>)
    requires Rules.IsValidPosition(from)
    requires forall t | t in tos :: t in Rules.LegalMoves(b, from)
    ensures forall m :: m in TargetCandidates(b, color, from, tos) <==>
      && m.from == from && m.to in tos && Rules.IsValidPosition(m.to)
      && m.score == Evaluation(Rules.Relocate(b, from, m.to), color)
  {
    TargetCandidatesScored(b, color, from, tos);
    var score := ScoreAfter(b, color, from);
    forall m
      ensures m in TargetCandidates(b, color, from, tos) <==>
        && m.from == from && m.to in tos && Rules.IsValidPosition(m.to)
        && m.score == Evaluation(Rules.Relocate(b, from, m.to), color)
    {
      if m.to in tos {
        LegalMovesOnBoard(b, from, m.to);
        assert score(m.to) == Evaluation(Rules.Relocate(b, from, m.to), color);
      }
    }
  }

  lemma LegalMovesOnBoard(b: Board, from: Position, to: Position)
    requires Rules.IsValidPosition(from) && to in Rules.LegalMoves(b, from)
    ensures Rules.IsValidPosition(to)
  {
  }

  /** The candidates of one square are the legal moves of the piece of `color` standing on it. */
  lemma SquareCandidatesExactly(b: Board, color: Player, row: int, col: int)
    requires 0 <= row < 8 && 0 <= col < 8
    ensures forall m :: m in SquareCandidates(b, color, row, col) <==> m.from == Pos(row, col) && IsCandidate(b, color, m)
  {
    var from := Pos(row, col);
    if Rules.IsColor(b[row][col], color) {
      TargetCandidatesExactly(b, color, from, Rules.LegalMoves(b, from));
    }
  }

  lemma {:induction false} RowCandidatesExactly(b: Board, color: Player, row: int, cols: int)
    requires 0 <= row < 8 && 0 <= cols <= 8
    ensures forall m :: m in RowCandidates(b, color, row, cols) <==>
      m.from.row == row && 0 <= m.from.col < cols && IsCandidate(b, color, m)
    decreases cols
  {
    if cols > 0 {
      RowCandidatesExactly(b, color, row, cols - 1);
      SquareCandidatesExactly(b, color, row, cols - 1);
    }
  }

  lemma {:induction false} CandidatesInRowsExactly(b: Board, color: Player, rows: int)
    requires 0 <= rows <= 8
    ensures forall m :: m in CandidatesInRows(b, color, rows) <==>
      0 <= m.from.row < rows && IsCandidate(b, color, m)
    decreases rows
  {
    if rows > 0 {
      CandidatesInRowsExactly(b, color, rows - 1);
      RowCandidatesExactly(b, color, rows - 1, 8);
    }
  }

  /** The AI weighs every legal move of `color` and nothing else, each with the evaluation of
      the board it leads to. */
  lemma CandidatesExactly(b: Board, color: Player)
    ensures forall m :: m in Candidates(b, color) <==> IsCandidate(b, color, m)
  {
    CandidatesInRowsExactly(b, color, 8);
  }

  /** A square offers as many candidates as its piece of `color` has legal moves. */
  lemma SquareCandidatesCount(b: Board, color: Player, row: int, col: int)
    requires 0 <= row < 8 && 0 <= col < 8
    ensures |SquareCandidates(b, color, row, col)| ==
      if Rules.IsColor(b[row][col], color) then |Rules.LegalMoves(b, Pos(row, col))| else 0
  {
    if Rules.IsColor(b[row][col], color) {
      TargetCandidatesCount(b, color, Pos(row, col), Rules.LegalMoves(b, Pos(row, col)));
    }
  }

  lemma {:induction false} RowCandidatesEmpty(b: Board, color: Player, row: int, cols: int)
    requires 0 <= row < 8 && 0 <= cols <= 8
    ensures |RowCandidates(b, color, row, cols)| == 0 <==>
      forall c | 0 <= c < cols :: !Rules.HasLegalMoveAt(b, color, row, c)
    decreases cols
  {
    if cols > 0 {
      RowCandidatesEmpty(b, color, row, cols - 1);
      SquareCandidatesCount(b, color, row, cols - 1);
      var prev := RowCandidates(b, color, row, cols - 1);
      var here := SquareCandidates(b, color, row, cols - 1);
      assert |RowCandidates(b, color, row, cols)| == |prev| + |here|;
      if |prev| + |here| == 0 {
        forall c | 0 <= c < cols
          ensures !Rules.HasLegalMoveAt(b, color, row, c)
        {
          if c < cols - 1 {
            assert |prev| == 0;
          }
        }
      }
      if forall c | 0 <= c < cols :: !Rules.HasLegalMoveAt(b, color, row, c) {
        assert !Rules.HasLegalMoveAt(b, color, row, cols - 1);
        assert |here| == 0 && |prev| == 0;
      }
    }
  }

  lemma {:induction false} CandidatesInRowsEmpty(b: Board, color: Player, rows: int)
    requires 0 <= rows <= 8
    ensures |CandidatesInRows(b, color, rows)| == 0 <==>
      forall r, c | 0 <= r < rows && 0 <= c < 8 :: !Rules.HasLegalMoveAt(b, color, r, c)
    decreases rows
  {
    if rows > 0 {
      CandidatesInRowsEmpty(b, color, rows - 1);
      RowCandidatesEmpty(b, color, rows - 1, 8);
      var prev := CandidatesInRows(b, color, rows - 1);
      var last := RowCandidates(b, color, rows - 1, 8);
      assert |CandidatesInRows(b, color, rows)| == |prev| + |last|;
      if |prev| + |last| == 0 {
        forall r, c | 0 <= r < rows && 0 <= c < 8
          ensures !Rules.HasLegalMoveAt(b, color, r, c)
        {
          if r < rows - 1 {
            assert |prev| == 0;
          }
        }
      }
      if forall r, c | 0 <= r < rows && 0 <= c < 8 :: !Rules.HasLegalMoveAt(b, color, r, c) {
        assert |last| == 0 && |prev| == 0;
      }
    }
  }

  /** The AI finds no move to weigh exactly when `color` has no legal move. */
  lemma CandidatesEmptyExactly(b: Board, color: Player)
    ensures Candidates(b, color) == [] <==> !Rules.HasLegalMove(b, color)
  {
    Rules.HasLegalMoveExactly(b, color);
    CandidatesInRowsEmpty(b, color, 8);
  }

  /** Every candidate moves from a square of the board to a square of the board. */
  lemma CandidatesOnBoard(b: Board, color: Player)
    ensures forall m | m in Candidates(b, color) ::
      Rules.IsValidPosition(m.from) && Rules.IsValidPosition(m.to)
  {
    CandidatesExactly(b, color);
    forall m | m in Candidates(b, color)
      ensures Rules.IsValidPosition(m.from) && Rules.IsValidPosition(m.to)
    {
      assert IsCandidate(b, color, m);
    }
  }

  // ---------------------------------------------------------------------------------------
  // Ranking

  /** Best first: no candidate scores higher than one before it. */
  predicate SortedByScore(s: seq<Candidate>) {
    forall i, j | 0 <= i < j < |s| :: s[i].score >= s[j].score
  }

  /** Places `m` after every candidate of `s` that scores at least as much, so that equal
      scores keep their order. */
  function InsertByScore(m: Candidate, s: seq<Candidate>): (r: seq<Candidate>)
    ensures multiset(r) == multiset(s) + multiset{m}
    ensures |r| == |s| + 1
    ensures r[0] == m || (s != [] && r[0] == s[0])
    decreases |s|
  {
    if s == [] then [m]
    else if s[0].score >= m.score then
      assert s == [s[0]] + s[1..];
      [s[0]] + InsertByScore(m, s[1..])
    else [m] + s
  }

  lemma {:induction false} InsertKeepsSorted(m: Candidate, s: seq<Candidate>)
    requires SortedByScore(s)
    ensures SortedByScore(InsertByScore(m, s))
    decreases |s|
  {
    if s != [] && s[0].score >= m.score {
      var rest := InsertByScore(m, s[1..]);
      InsertKeepsSorted(m, s[1..]);
      assert rest[0].score <= s[0].score;
      assert InsertByScore(m, s) == [s[0]] + rest;
    }
  }

  /** The order `Array.prototype.sort` gives the candidates under the comparator
      `b.score - a.score`: best first, ties in their original order. */
  function SortByScore(s: seq<Candidate>): (r: seq<Candidate>)
    ensures SortedByScore(r)
    ensures multiset(r) == multiset(s)
    ensures |r| == |s|
    decreases |s|
  {
    if s == [] then []
    else
      assert s == s[..|s| - 1] + [s[|s| - 1]];
      InsertKeepsSorted(s[|s| - 1], SortByScore(s[..|s| - 1]));
      InsertByScore(s[|s| - 1], SortByScore(s[..|s| - 1]))
  }

  /** How many candidates of `s` score strictly more than `v`. */
  function CountAbove(s: seq<Candidate>, v: int): (n: nat)
    ensures n <= |s|
    decreases |s|
  {
    if s == [] then 0 else (if s[0].score > v then 1 else 0) + CountAbove(s[1..], v)
  }

  lemma {:induction false} CountAboveConcat(s: seq<Candidate>, t: seq<Candidate>, v: int)
    ensures CountAbove(s + t, v) == CountAbove(s, v) + CountAbove(t, v)
    decreases |s|
  {
    if s != [] {
      assert (s + t)[1..] == s[1..] + t;
      CountAboveConcat(s[1..], t, v);
    } else {
      assert s + t == t;
    }
  }

  lemma {:induction false} CountAboveInsert(m: Candidate, s: seq<Candidate>, v: int)
    ensures CountAbove(InsertByScore(m, s), v) == CountAbove(s, v) + (if m.score > v then 1 else 0)
    decreases |s|
  {
    if s != [] && s[0].score >= m.score {
      CountAboveInsert(m, s[1..], v);
      assert ([s[0]] + InsertByScore(m, s[1..]))[1..] == InsertByScore(m, s[1..]);
    } else if s != [] {
      assert ([m] + s)[1..] == s;
    }
  }

  /** Sorting does not change how many candidates beat a score. */
  lemma {:induction false} CountAboveSorted(s: seq<Candidate>, v: int)
    ensures CountAbove(SortByScore(s), v) == CountAbove(s, v)
    decreases |s|
  {
    if s != [] {
      var front, last := s[..|s| - 1], s[|s| - 1];
      assert s == front + [last];
      CountAboveSnoc(front, last, v);
      CountAboveSorted(front, v);
      CountAboveInsert(last, SortByScore(front), v);
    }
  }

  lemma CountAboveSnoc(s: seq<Candidate>, m: Candidate, v: int)
    ensures CountAbove(s + [m], v) == CountAbove(s, v) + (if m.score > v then 1 else 0)
  {
    CountAboveConcat(s, [m], v);
    assert [m][1..] == [];
  }

  /** In a best-first list, fewer than `i + 1` candidates beat the one at index `i`. */
  lemma {:induction false} SortedCountAbove(s: seq<Candidate>, i: int)
    requires SortedByScore(s) && 0 <= i < |s|
    ensures CountAbove(s, s[i].score) <= i
    decreases |s|
  {
    if i == 0 {
      NoneAboveHead(s);
    } else {
      assert SortedByScore(s[1..]);
      assert s[1..][i - 1] == s[i];
      SortedCountAbove(s[1..], i - 1);
    }
  }

  /** Nothing in a best-first list beats its head. */
  lemma {:induction false} NoneAboveHead(s: seq<Candidate>)
    requires SortedByScore(s) && s != []
    ensures CountAbove(s, s[0].score) == 0
    decreases |s|
  {
    if |s| > 1 {
      assert SortedByScore(s[1..]);
      NoneAboveHead(s[1..]);
      assert CountAbove(s[1..], s[1].score) == 0;
      CountAboveMonotone(s[1..], s[1].score, s[0].score);
    }
  }

  lemma {:induction false} CountAboveMonotone(s: seq<Candidate>, v: int, w: int)
    requires v <= w
    ensures CountAbove(s, w) <= CountAbove(s, v)
    decreases |s|
  {
    if s != [] {
      CountAboveMonotone(s[1..], v, w);
    }
  }

  lemma {:induction false} CountAboveMember(s: seq<Candidate>, m: Candidate, v: int)
    requires m in s && m.score > v
    ensures CountAbove(s, v) > 0
    decreases |s|
  {
    if s[0] != m {
      assert m in s[1..];
      CountAboveMember(s[1..], m, v);
    }
  }

  // ---------------------------------------------------------------------------------------
  // Move choice

  function Min(a: int, b: int): (m: int)
    ensures m <= a && m <= b && (m == a || m == b)
  {
    if a < b then a else b
  }

  /** The index the random draw selects among `n` entries: every index below `n` is the
      result of some draw. */
  function DrawIndex(pick: nat, n: int): (i: nat)
    requires n > 0
    ensures i < n
    ensures pick < n ==> i == pick
  {
    pick % n
  }

  /** The entry of the ranking `ranked` that the draw `pick` selects among its first three. */
  function Chosen(ranked: seq<Candidate>, pick: nat): (c: Candidate)
    requires ranked != []
    ensures c in ranked
  {
    ranked[DrawIndex(pick, Min(3, |ranked|))]
  }

  /** The move the AI plays when the random draw selects `pick`: none without candidates,
      otherwise one of the (at most) three best-ranked candidates. */
  function AIMove(b: Board, color: Player, pick: nat): (r: Option<(Position, Position)>)
    ensures r.Some? ==> Rules.IsValidPosition(r.value.0) && Rules.IsValidPosition(r.value.1)
  {
    var ranked := SortByScore(Candidates(b, color));
    if ranked == [] then None
    else
      var chosen := Chosen(ranked, pick);
      CandidatesOnBoard(b, color);
      assert chosen in multiset(Candidates(b, color));
      Some((chosen.from, chosen.to))
  }

  /** The AI passes exactly when `color` has no legal move. */
  lemma AIMoveNoneExactly(b: Board, color: Player, pick: nat)
    ensures AIMove(b, color, pick).None? <==> !Rules.HasLegalMove(b, color)
  {
    CandidatesEmptyExactly(b, color);
  }

  /** The chosen candidate of a draw is a candidate: an entry of the ranking, and so of the
      unranked list. */
  lemma ChosenIsCandidate(b: Board, color: Player, pick: nat)
    requires AIMove(b, color, pick).Some?
    ensures var ranked := SortByScore(Candidates(b, color));
      && ranked != []
      && ranked[DrawIndex(pick, Min(3, |ranked|))] in Candidates(b, color)
      && IsCandidate(b, color, ranked[DrawIndex(pick, Min(3, |ranked|))])
  {
    var ranked := SortByScore(Candidates(b, color));
    var chosen := ranked[DrawIndex(pick, Min(3, |ranked|))];
    assert chosen in multiset(ranked);
    CandidatesExactly(b, color);
  }

  /** The AI moves a piece of its own colour to one of that piece's legal destinations. */
  lemma AIMoveIsLegal(b: Board, color: Player, pick: nat)
    ensures AIMove(b, color, pick).Some? ==>
      var (from, to) := AIMove(b, color, pick).value;
      && Rules.IsValidPosition(from) && Rules.IsColor(Rules.At(b, from), color)
      && to in Rules.LegalMoves(b, from)
  {
    if AIMove(b, color, pick).Some? {
      ChosenIsCandidate(b, color, pick);
    }
  }

  /** Fewer than three of the moves the AI weighs evaluate strictly better than the move it
      plays. */
  lemma AIMoveAmongTopThree(b: Board, color: Player, pick: nat)
    ensures AIMove(b, color, pick).Some? ==>
      var (from, to) := AIMove(b, color, pick).value;
      && Rules.IsValidPosition(from) && Rules.IsValidPosition(to)
      && CountAbove(Candidates(b, color), Evaluation(Rules.Relocate(b, from, to), color)) < 3
  {
    if AIMove(b, color, pick).Some? {
      var ranked := SortByScore(Candidates(b, color));
      var index := DrawIndex(pick, Min(3, |ranked|));
      ChosenIsCandidate(b, color, pick);
      SortedCountAbove(ranked, index);
      CountAboveSorted(Candidates(b, color), ranked[index].score);
    }
  }

  /** The move the AI plays scores at least as much as every candidate ranked below the
      top three. */
  lemma AIMoveBeatsRest(b: Board, color: Player, pick: nat)
    ensures AIMove(b, color, pick).Some? ==>
      var ranked := SortByScore(Candidates(b, color));
      var (from, to) := AIMove(b, color, pick).value;
      && Rules.IsValidPosition(from) && Rules.IsValidPosition(to)
      && forall j | Min(3, |ranked|) <= j < |ranked| ::
           ranked[j].score <= Evaluation(Rules.Relocate(b, from, to), color)
  {
    if AIMove(b, color, pick).Some? {
      ChosenIsCandidate(b, color, pick);
    }
  }

  /** When the draw selects the first entry, the AI plays a move whose evaluation no legal
      move of `color` beats. */
  lemma AIMoveBestAtFirstPick(b: Board, color: Player)
    ensures AIMove(b, color, 0).Some? ==>
      var (from, to) := AIMove(b, color, 0).value;
      && Rules.IsValidPosition(from) && Rules.IsValidPosition(to)
      && forall m | IsCandidate(b, color, m) :: m.score <= Evaluation(Rules.Relocate(b, from, to), color)
  {
    if AIMove(b, color, 0).Some? {
      var ranked := SortByScore(Candidates(b, color));
      ChosenIsCandidate(b, color, 0);
      NoneAboveHead(ranked);
      CountAboveSorted(Candidates(b, color), ranked[0].score);
      CandidatesExactly(b, color);
      forall m | IsCandidate(b, color, m)
        ensures m.score <= ranked[0].score
      {
        if m.score > ranked[0].score {
          CountAboveMember(Candidates(b, color), m, ranked[0].score);
        }
      }
    }
  }

  /** The innermost loop of the AI: tries each destination with the move function and scores
      the board of every move it accepts, in order. */
  method ScoreMoves(b: Board, color: Player, from: Position, possibleMoves: seq<Position>)
    returns (scored: seq<Candidate>)
    requires Rules.IsValidPosition(from)
    ensures scored == TargetCandidates(b, color, from, possibleMoves)
  {
    scored := [];
    for k := 0 to |possibleMoves|
      invariant scored == TargetCandidates(b, color, from, possibleMoves[..k])
    {
      var to := possibleMoves[k];
      assert possibleMoves[..k + 1][..k] == possibleMoves[..k];
      var candidate := ScoreMove(b, color, from, to);
      scored := scored + candidate;
    }
    assert possibleMoves[..|possibleMoves|] == possibleMoves;
  }

  /** The body of that loop: plays the move with the move function and, when it is accepted,
      scores the board it returns. */
  method ScoreMove(b: Board, color: Player, from: Position, to: Position) returns (candidate: seq<Candidate>)
    requires Rules.IsValidPosition(from)
    ensures candidate == TargetCandidate(b, color, from, to)
  {
    candidate := [];
    var moveData := Logic.MakeMove(b, from, to);
    if moveData.Some? {
      var score := EvaluatePosition(moveData.value.newBoard, color);
      candidate := [Candidate(from, to, score)];
    }
  }

  /** The scan of the AI over the pieces of `color`, in row-major order, collecting the
      scored moves of each. */
  method CollectCandidates(b: Board, color: Player) returns (allMoves: seq<Candidate>)
    ensures allMoves == Candidates(b, color)
  {
    allMoves := [];
    for row := 0 to 8
      invariant allMoves == CandidatesInRows(b, color, row)
    {
      for col := 0 to 8
        invariant allMoves == CandidatesInRows(b, color, row) + RowCandidates(b, color, row, col)
      {
        ghost var here := SquareCandidates(b, color, row, col);
        Rules.AppendAssoc(CandidatesInRows(b, color, row), RowCandidates(b, color, row, col), here);
        var piece := b[row][col];
        if piece.Some? && piece.value.color == color {
          var from := Pos(row, col);
          var possibleMoves := Logic.GetAllPossibleMoves(b, from);
          var scored := ScoreMoves(b, color, from, possibleMoves);
          assert scored == here;
          allMoves := allMoves + scored;
        } else {
          assert here == [];
          assert allMoves + here == allMoves;
        }
      }
    }
  }

  /** Scores every legal move of `color` on the board it leads to, ranks them best first and
      plays one of the top three, the one the draw `pick` selects; none when there is no move. */
  method GetAIMove(b: Board, color: Player, pick: nat) returns (choice: Option<(Position, Position)>)
    ensures choice == AIMove(b, color, pick)
  {
    var allMoves := CollectCandidates(b, color);
    if |allMoves| == 0 {
      return None;
    }

    allMoves := SortByScore(allMoves);
    var topMoves := allMoves[..Min(3, |allMoves|)];
    var randomMove := topMoves[DrawIndex(pick, |topMoves|)];
    assert randomMove == SortByScore(Candidates(b, color))[DrawIndex(pick, Min(3, |allMoves|))];
    choice := Some((randomMove.from, randomMove.to));
  }
}
