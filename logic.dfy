/** The rules engine as the program runs it: board scans and move generators that push into a
    local list inside loops that break. Every method is proved to compute the reference
    definition of the same name in module ChessRules. */
module ChessLogic {
  import opened ChessTypes
  import Rules = ChessRules

  /** Fills an empty grid: pawns on rows 1 and 6 first, then the back ranks on rows 0 and 7. */
  method CreateInitialBoard() returns (board: Board)
    ensures board == Rules.InitialBoard()
  {
    board := seq(8, _ => seq(8, _ => None));
    for col := 0 to 8
      invariant forall r, c | 0 <= r < 8 && 0 <= c < 8 ::
        board[r][c] == if (r == 1 || r == 6) && c < col then Rules.InitialCell(r, c) else None
    {
      board := board[1 := board[1][col := Some(Piece(Pawn, Black))]];
      board := board[6 := board[6][col := Some(Piece(Pawn, White))]];
    }
    for col := 0 to 8
      invariant forall r, c | 0 <= r < 8 && 0 <= c < 8 ::
        board[r][c] == if r == 1 || r == 6 || ((r == 0 || r == 7) && c < col) then Rules.InitialCell(r, c) else None
    {
      board := board[0 := board[0][col := Some(Piece(Rules.BackRank[col], Black))]];
      board := board[7 := board[7][col := Some(Piece(Rules.BackRank[col], White))]];
    }
    Rules.BoardsEqual(board, Rules.InitialBoard());
  }

  method GetPawnMoves(b: Board, from: Position, color: Player) returns (moves: seq<Position>)
    ensures moves == Rules.PawnMoves(b, from, color)
  {
    moves := PawnPushes(b, from, color);
    var direction := if color == White then -1 else 1;
    var colOffsets := [-1, 1];
    for k := 0 to |colOffsets|
      invariant moves == Rules.PawnForward(b, from, color) + Rules.PawnCaptures(b, from, color, colOffsets[..k])
    {
      var capturePos := Pos(from.row + direction, from.col + colOffsets[k]);
      assert capturePos == Rules.Shift(from, Rules.PawnDirection(color), colOffsets[k]);
      Rules.PawnCapturesStep(b, from, color, colOffsets, k);
      ghost var step := if Rules.IsValidPosition(capturePos) && Rules.IsColor(Rules.At(b, capturePos), Opponent(color)) then [capturePos] else [];
      Rules.AppendAssoc(Rules.PawnForward(b, from, color), Rules.PawnCaptures(b, from, color, colOffsets[..k]), step);
      if Rules.IsValidPosition(capturePos) {
        var target := b[capturePos.row][capturePos.col];
        if target.Some? && target.value.color != color {
          moves := moves + [capturePos];
        }
      }
    }
    assert colOffsets[..|colOffsets|] == Rules.PawnCaptureOffsets;
  }

  /** The forward part of the pawn rules: the single step, then the double step from the
      start row. */
  method PawnPushes(b: Board, from: Position, color: Player) returns (moves: seq<Position>)
    ensures moves == Rules.PawnForward(b, from, color)
  {
    moves := [];
    var direction := if color == White then -1 else 1;
    var startRow := if color == White then 6 else 1;

    var oneStep := Pos(from.row + direction, from.col);
    if Rules.IsValidPosition(oneStep) && b[oneStep.row][oneStep.col].None? {
      moves := moves + [oneStep];
      if from.row == startRow {
        var twoSteps := Pos(from.row + 2 * direction, from.col);
        if Rules.IsValidPosition(twoSteps) && b[twoSteps.row][twoSteps.col].None? {
          moves := moves + [twoSteps];
        }
      }
    }
  }

  /** Runs the ray of each direction in turn and collects the squares. */
  method GetSlidingMoves(b: Board, from: Position, color: Player, directions: seq<(int, int)>)
    returns (moves: seq<Position>)
    ensures moves == Rules.SlidingMoves(b, from, color, directions)
  {
    moves := [];
    for d := 0 to |directions|
      invariant moves == Rules.SlidingMoves(b, from, color, directions[..d])
    {
      var (dRow, dCol) := directions[d];
      var ray := WalkRay(b, from, color, dRow, dCol);
      assert directions[..d + 1][..d] == directions[..d];
      moves := moves + ray;
    }
    assert directions[..|directions|] == directions;
  }

  /** Walks one direction a square at a time, keeping empty squares, keeping the first
      occupied square only if it holds an enemy, and stopping there or at the edge. */
  method WalkRay(b: Board, from: Position, color: Player, dRow: int, dCol: int)
    returns (ray: seq<Position>)
    ensures ray == Rules.Ray(b, from, color, dRow, dCol, 1)
  {
    ray := [];
    for i := 1 to 8
      invariant ray + Rules.Ray(b, from, color, dRow, dCol, i) == Rules.Ray(b, from, color, dRow, dCol, 1)
    {
      var pos := Pos(from.row + i * dRow, from.col + i * dCol);
      assert pos == Rules.RayStep(from, dRow, dCol, i);
      if !Rules.IsValidPosition(pos) {
        break;
      }
      var piece := b[pos.row][pos.col];
      if piece.None? {
        Rules.AppendAssoc(ray, [pos], Rules.Ray(b, from, color, dRow, dCol, i + 1));
        ray := ray + [pos];
      } else {
        if piece.value.color != color {
          ray := ray + [pos];
        }
        break;
      }
    }
  }

  /** Tries each entry of a fixed offset table, keeping on-board targets that are empty or
      hold an enemy. */
  method GetOffsetMoves(b: Board, from: Position, color: Player, offsets: seq<(int, int)>)
    returns (moves: seq<Position>)
    ensures moves == Rules.OffsetMoves(b, from, color, offsets)
  {
    moves := [];
    for k := 0 to |offsets|
      invariant moves == Rules.OffsetMoves(b, from, color, offsets[..k])
    {
      var (dRow, dCol) := offsets[k];
      var pos := Pos(from.row + dRow, from.col + dCol);
      if Rules.IsValidPosition(pos) {
        var piece := b[pos.row][pos.col];
        if piece.None? || piece.value.color != color {
          moves := moves + [pos];
        }
      }
      assert offsets[..k + 1][..k] == offsets[..k];
    }
    assert offsets[..|offsets|] == offsets;
  }

  method GetRookMoves(b: Board, from: Position, color: Player) returns (moves: seq<Position>)
    ensures moves == Rules.RookMoves(b, from, color)
  {
    moves := GetSlidingMoves(b, from, color, Rules.RookDirections);
  }

  method GetBishopMoves(b: Board, from: Position, color: Player) returns (moves: seq<Position>)
    ensures moves == Rules.BishopMoves(b, from, color)
  {
    moves := GetSlidingMoves(b, from, color, Rules.BishopDirections);
  }

  method GetQueenMoves(b: Board, from: Position, color: Player) returns (moves: seq<Position>)
    ensures moves == Rules.QueenMoves(b, from, color)
  {
    var rook := GetRookMoves(b, from, color);
    var bishop := GetBishopMoves(b, from, color);
    moves := rook + bishop;
  }

  method GetKnightMoves(b: Board, from: Position, color: Player) returns (moves: seq<Position>)
    ensures moves == Rules.KnightMoves(b, from, color)
  {
    moves := GetOffsetMoves(b, from, color, Rules.KnightOffsets);
  }

  method GetKingMoves(b: Board, from: Position, color: Player) returns (moves: seq<Position>)
    ensures moves == Rules.KingMoves(b, from, color)
  {
    moves := GetOffsetMoves(b, from, color, Rules.KingOffsets);
  }

  /** Dispatches on the piece type, then keeps only on-board positions; no king-safety check. */
  method GetAllPossibleMovesUnsafe(b: Board, from: Position) returns (moves: seq<Position>)
    requires Rules.IsValidPosition(from)
    ensures moves == Rules.PseudoLegalMoves(b, from)
  {
    var piece := b[from.row][from.col];
    if piece.None? {
      return [];
    }
    var color := piece.value.color;
    var raw: seq<Position>;
    match piece.value.kind {
      case Pawn => raw := GetPawnMoves(b, from, color);
      case Rook => raw := GetRookMoves(b, from, color);
      case Knight => raw := GetKnightMoves(b, from, color);
      case Bishop => raw := GetBishopMoves(b, from, color);
      case Queen => raw := GetQueenMoves(b, from, color);
      case King => raw := GetKingMoves(b, from, color);
    }
    assert raw == Rules.PieceMoves(b, from, piece.value);
    moves := Rules.OnBoardOnly(raw);
  }

  /** Keeps the pseudo-legal moves whose simulation leaves the mover's king unattacked. */
  method GetAllPossibleMoves(b: Board, from: Position) returns (moves: seq<Position>)
    requires Rules.IsValidPosition(from)
    ensures moves == Rules.LegalMoves(b, from)
  {
    var piece := b[from.row][from.col];
    if piece.None? {
      return [];
    }
    var unsafeMoves := GetAllPossibleMovesUnsafe(b, from);
    Rules.PseudoLegalSound(b, from);
    moves := FilterSafeMoves(b, from, piece.value.color, unsafeMoves);
  }

  /** The filter of the legal-move generator: keeps, in order, the destinations whose
      simulation leaves `color` out of check. */
  method FilterSafeMoves(b: Board, from: Position, color: Player, tos: seq<Position>)
    returns (moves: seq<Position>)
    requires Rules.IsValidPosition(from)
    requires forall t | t in tos :: Rules.IsValidPosition(t)
    ensures moves == Rules.SafeMoves(b, from, color, tos)
  {
    moves := [];
    for i := 0 to |tos|
      invariant forall t | t in tos[..i] :: Rules.IsValidPosition(t)
      invariant moves == Rules.SafeMoves(b, from, color, tos[..i])
    {
      var to := tos[i];
      var check := WouldBeInCheck(b, from, to, color);
      ghost var prefix := tos[..i + 1];
      assert prefix[..i] == tos[..i] && prefix[i] == to;
      if !check {
        moves := moves + [to];
      }
    }
    assert tos[..|tos|] == tos;
  }

  /** Validates the move against the legal moves, then moves the piece on a copy of the board
      and records the mover and whatever stood on the target square. */
  method MakeMove(b: Board, from: Position, to: Position) returns (r: Option<Rules.MoveResult>)
    requires Rules.IsValidPosition(from)
    ensures r == Rules.MakeMove(b, from, to)
  {
    var possibleMoves := GetAllPossibleMoves(b, from);
    if to !in possibleMoves {
      return None;
    }
    var newBoard: seq<seq<Cell>> := b;
    var piece := newBoard[from.row][from.col];
    var captured := newBoard[to.row][to.col];
    if piece.None? {
      return None;
    }
    newBoard := newBoard[to.row := newBoard[to.row][to.col := piece]];
    newBoard := newBoard[from.row := newBoard[from.row][from.col := None]];
    Rules.MakeMoveSucceeds(b, from, to);
    assert newBoard == Rules.Relocate(b, from, to);
    r := Some(Rules.MoveResult(newBoard, Move(from, to, piece.value, captured, "")));
  }

  /** Scans rows then columns and returns the first king of `color`, if any. */
  method FindKing(b: Board, color: Player) returns (king: Option<Position>)
    ensures king == Rules.FindKing(b, color)
  {
    for row := 0 to 8
      invariant forall r, c | 0 <= r < row && 0 <= c < 8 :: !Rules.IsKingOf(b[r][c], color)
    {
      for col := 0 to 8
        invariant forall c | 0 <= c < col :: !Rules.IsKingOf(b[row][c], color)
      {
        var piece := b[row][col];
        if piece.Some? && piece.value.kind == King && piece.value.color == color {
          Rules.FindKingFirst(b, color, row, col);
          return Some(Pos(row, col));
        }
      }
    }
    Rules.FindKingNone(b, color);
    return None;
  }

  /** Looks up the king, then asks every enemy piece whether one of its pseudo-legal moves
      lands on it. */
  method IsInCheck(b: Board, color: Player) returns (check: bool)
    ensures check == Rules.IsInCheck(b, color)
  {
    var kingPos := FindKing(b, color);
    if kingPos.None? {
      return false;
    }
    var king := kingPos.value;
    var enemyColor := Opponent(color);
    ghost var attacks := Rules.AttackersOf(b, enemyColor, king);
    for row := 0 to 8
      invariant !Rules.FoundBefore(attacks, row, 0)
    {
      for col := 0 to 8
        invariant !Rules.FoundBefore(attacks, row, col)
      {
        var piece := b[row][col];
        if piece.Some? && piece.value.color == enemyColor {
          var moves := GetAllPossibleMovesUnsafe(b, Pos(row, col));
          if king in moves {
            assert attacks(row, col);
            Rules.FoundBeforeExists(attacks, 8, 0);
            return true;
          }
        }
        assert !attacks(row, col);
      }
    }
    return false;
  }

  /** Moves the piece on a copy of the board and asks whether `color` is then in check. */
  method WouldBeInCheck(b: Board, from: Position, to: Position, color: Player) returns (check: bool)
    requires Rules.IsValidPosition(from) && Rules.IsValidPosition(to)
    ensures check == Rules.WouldBeInCheck(b, from, to, color)
  {
    var testBoard: seq<seq<Cell>> := b;
    var piece := testBoard[from.row][from.col];
    testBoard := testBoard[to.row := testBoard[to.row][to.col := piece]];
    testBoard := testBoard[from.row := testBoard[from.row][from.col := None]];
    assert testBoard == Rules.Relocate(b, from, to);
    check := IsInCheck(testBoard, color);
  }

  /** The scan shared by checkmate and stalemate: does some piece of `color` have a legal move? */
  method AnyLegalMove(b: Board, color: Player) returns (found: bool)
    ensures found == Rules.HasLegalMove(b, color)
  {
    ghost var movers := Rules.MoversOf(b, color);
    for row := 0 to 8
      invariant !Rules.FoundBefore(movers, row, 0)
    {
      for col := 0 to 8
        invariant !Rules.FoundBefore(movers, row, col)
      {
        var has := PieceHasMoves(b, color, row, col);
        if has {
          assert movers(row, col);
          Rules.FoundBeforeExists(movers, 8, 0);
          return true;
        }
      }
    }
    return false;
  }

  /** The test of one square in that scan: a piece of `color` with at least one legal move. */
  method PieceHasMoves(b: Board, color: Player, row: int, col: int) returns (has: bool)
    requires 0 <= row < 8 && 0 <= col < 8
    ensures has == Rules.HasLegalMoveAt(b, color, row, col)
  {
    var piece := b[row][col];
    has := false;
    if piece.Some? && piece.value.color == color {
      var moves := GetAllPossibleMoves(b, Pos(row, col));
      has := |moves| > 0;
    }
  }

  method IsCheckmate(b: Board, color: Player) returns (mate: bool)
    ensures mate == Rules.IsCheckmate(b, color)
  {
    var check := IsInCheck(b, color);
    if !check {
      return false;
    }
    var found := AnyLegalMove(b, color);
    return !found;
  }

  method IsStalemate(b: Board, color: Player) returns (stale: bool)
    ensures stale == Rules.IsStalemate(b, color)
  {
    var check := IsInCheck(b, color);
    if check {
      return false;
    }
    var found := AnyLegalMove(b, color);
    return !found;
  }
}
