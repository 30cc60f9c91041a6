/** Properties of the reference rules: the starting position, the shape of each generator's
    output, what the legality filter guarantees, game-end detection and notation. */
module ChessProperties {
  import opened ChessTypes
  import opened ChessRules

  // ---------------------------------------------------------------------------------------
  // Starting position

  function CountInRow(row: seq<Cell>, color: Player): nat
    decreases |row|
  {
    if row == [] then 0
    else CountInRow(row[..|row| - 1], color) + (if IsColor(row[|row| - 1], color) then 1 else 0)
  }

  /** The number of pieces of `color` in the first `rows` rows. */
  function CountInRows(b: Board, color: Player, rows: int): nat
    requires 0 <= rows <= 8
  {
    if rows == 0 then 0 else CountInRows(b, color, rows - 1) + CountInRow(b[rows - 1], color)
  }

  function CountPieces(b: Board, color: Player): nat {
    CountInRows(b, color, 8)
  }

  lemma {:induction false} CountFullRow(row: seq<Cell>, color: Player)
    requires forall i | 0 <= i < |row| :: IsColor(row[i], color)
    ensures CountInRow(row, color) == |row|
    decreases |row|
  {
    if row != [] {
      CountFullRow(row[..|row| - 1], color);
    }
  }

  lemma {:induction false} CountFreeRow(row: seq<Cell>, color: Player)
    requires forall i | 0 <= i < |row| :: !IsColor(row[i], color)
    ensures CountInRow(row, color) == 0
    decreases |row|
  {
    if row != [] {
      CountFreeRow(row[..|row| - 1], color);
    }
  }

  /** Each side starts with sixteen pieces. */
  lemma InitialPieceCount(color: Player)
    ensures CountPieces(InitialBoard(), color) == 16
  {
    var b := InitialBoard();
    forall r | 0 <= r < 8
      ensures CountInRow(b[r], color) == if r == HomeRow(color) || r == PawnStartRow(color) then 8 else 0
    {
      if r == HomeRow(color) || r == PawnStartRow(color) {
        CountFullRow(b[r], color);
      } else {
        CountFreeRow(b[r], color);
      }
    }
  }

  /** Back ranks hold rook, knight, bishop, queen, king, bishop, knight, rook; pawns fill
      rows 1 (Black) and 6 (White); rows 2 to 5 are empty. */
  lemma InitialLayout()
    ensures forall c | 0 <= c < 8 ::
      && InitialBoard()[0][c] == Some(Piece(BackRank[c], Black))
      && InitialBoard()[1][c] == Some(Piece(Pawn, Black))
      && InitialBoard()[6][c] == Some(Piece(Pawn, White))
      && InitialBoard()[7][c] == Some(Piece(BackRank[c], White))
    ensures forall r, c | 2 <= r < 6 && 0 <= c < 8 :: InitialBoard()[r][c].None?
  {
  }

  /** Each side has exactly one king, on column 4 of its home row, and the scan finds it. */
  lemma InitialKings(color: Player)
    ensures forall r, c | 0 <= r < 8 && 0 <= c < 8 ::
      IsKingOf(InitialBoard()[r][c], color) <==> r == HomeRow(color) && c == 4
    ensures FindKing(InitialBoard(), color) == Some(Pos(HomeRow(color), 4))
  {
    var b := InitialBoard();
    forall r, c | 0 <= r < 8 && 0 <= c < 8
      ensures IsKingOf(b[r][c], color) <==> r == HomeRow(color) && c == 4
    {
      assert BackRank[c] == King <==> c == 4;
    }
    FindKingFirst(b, color, HomeRow(color), 4);
  }

  // ---------------------------------------------------------------------------------------
  // Pseudo-legal generators

  /** Every square of the ray strictly between step `i` and step `k` is on the board and empty. */
  predicate ClearBetween(b: Board, from: Position, dRow: int, dCol: int, i: int, k: int) {
    forall j | i <= j < k :: IsValidPosition(RayStep(from, dRow, dCol, j)) && At(b, RayStep(from, dRow, dCol, j)).None?
  }

  /** A ray holds exactly the landable squares whose path from step `i` is clear: every empty
      square up to the first occupied one, that one only if it is an enemy's, nothing beyond. */
  lemma {:induction false} RayExactly(b: Board, from: Position, color: Player, dRow: int, dCol: int, i: int, q: Position)
    requires 1 <= i <= 8
    ensures q in Ray(b, from, color, dRow, dCol, i) <==>
      exists k | i <= k < 8 :: q == RayStep(from, dRow, dCol, k) && CanLandOn(b, q, color)
        && ClearBetween(b, from, dRow, dCol, i, k)
    decreases 8 - i
  {
    if i < 8 {
      var p := RayStep(from, dRow, dCol, i);
      RayExactly(b, from, color, dRow, dCol, i + 1, q);
      if q in Ray(b, from, color, dRow, dCol, i) {
        if q == p {
          assert ClearBetween(b, from, dRow, dCol, i, i);
        } else {
          var k :| i + 1 <= k < 8 && q == RayStep(from, dRow, dCol, k) && CanLandOn(b, q, color)
            && ClearBetween(b, from, dRow, dCol, i + 1, k);
          assert ClearBetween(b, from, dRow, dCol, i, k);
        }
      } else {
        if exists k | i <= k < 8 :: q == RayStep(from, dRow, dCol, k) && CanLandOn(b, q, color)
             && ClearBetween(b, from, dRow, dCol, i, k) {
          var k :| i <= k < 8 && q == RayStep(from, dRow, dCol, k) && CanLandOn(b, q, color)
            && ClearBetween(b, from, dRow, dCol, i, k);
          if k > i {
            assert IsValidPosition(p) && At(b, p).None?;
            assert ClearBetween(b, from, dRow, dCol, i + 1, k);
            assert false;
          }
        }
      }
    }
  }

  /** How many steps a rook direction can take from `from` before leaving the board. */
  function Reach(from: Position, dRow: int, dCol: int): int {
    if (dRow, dCol) == (0, 1) then 7 - from.col
    else if (dRow, dCol) == (1, 0) then 7 - from.row
    else if (dRow, dCol) == (0, -1) then from.col
    else from.row
  }

  lemma {:induction false} EmptyRayLength(b: Board, from: Position, color: Player, dRow: int, dCol: int, i: int)
    requires IsValidPosition(from) && EmptyExcept(b, from)
    requires (dRow, dCol) in RookDirections
    requires 1 <= i <= 8
    ensures |Ray(b, from, color, dRow, dCol, i)| == if i <= Reach(from, dRow, dCol) then Reach(from, dRow, dCol) - i + 1 else 0
    decreases 8 - i
  {
    if i < 8 {
      var p := RayStep(from, dRow, dCol, i);
      RookStep(from, dRow, dCol, i);
      EmptyRayLength(b, from, color, dRow, dCol, i + 1);
      if IsValidPosition(p) {
        assert At(b, p).None?;
      }
    }
  }

  /** Step `i` of a rook direction is on the board exactly up to the reach of that direction,
      and never the starting square. */
  lemma RookStep(from: Position, dRow: int, dCol: int, i: int)
    requires IsValidPosition(from) && (dRow, dCol) in RookDirections && 1 <= i
    ensures IsValidPosition(RayStep(from, dRow, dCol, i)) <==> i <= Reach(from, dRow, dCol)
    ensures RayStep(from, dRow, dCol, i) != from
  {
    if (dRow, dCol) == (0, 1) {
      assert RayStep(from, dRow, dCol, i) == Pos(from.row, from.col + i);
    } else if (dRow, dCol) == (1, 0) {
      assert RayStep(from, dRow, dCol, i) == Pos(from.row + i, from.col);
    } else if (dRow, dCol) == (0, -1) {
      assert RayStep(from, dRow, dCol, i) == Pos(from.row, from.col - i);
    } else {
      assert RayStep(from, dRow, dCol, i) == Pos(from.row - i, from.col);
    }
  }

  /** A rook on an otherwise empty board has fourteen moves, wherever it stands. */
  lemma RookOnEmptyBoard(b: Board, from: Position, color: Player)
    requires IsValidPosition(from) && EmptyExcept(b, from)
    ensures |RookMoves(b, from, color)| == 14
  {
    var dirs := RookDirections;
    var d1, d2, d3 := dirs[..1], dirs[..2], dirs[..3];
    assert |SlidingMoves(b, from, color, d1)| == 7 - from.col by {
      assert d1[..0] == [];
      EmptyRayLength(b, from, color, 0, 1, 1);
    }
    assert |SlidingMoves(b, from, color, d2)| == 14 - from.col - from.row by {
      assert d2[..1] == d1;
      EmptyRayLength(b, from, color, 1, 0, 1);
    }
    assert |SlidingMoves(b, from, color, d3)| == 14 - from.row by {
      assert d3[..2] == d2;
      EmptyRayLength(b, from, color, 0, -1, 1);
    }
    assert |Ray(b, from, color, -1, 0, 1)| == from.row by {
      EmptyRayLength(b, from, color, -1, 0, 1);
    }
    assert RookMoves(b, from, color) == SlidingMoves(b, from, color, d3) + Ray(b, from, color, -1, 0, 1);
  }

  /** The pawn rules: one step forward onto an empty square; two steps only from the start
      row through an empty square onto an empty one; one step diagonally forward only onto an
      enemy piece. */
  lemma PawnMovesExactly(b: Board, from: Position, color: Player, q: Position)
    ensures q in PawnMoves(b, from, color) <==>
      var dir := PawnDirection(color);
      var one := Shift(from, dir, 0);
      || (q == one && IsValidPosition(q) && At(b, q).None?)
      || (q == Shift(from, 2 * dir, 0) && from.row == PawnStartRow(color)
          && IsValidPosition(one) && At(b, one).None? && IsValidPosition(q) && At(b, q).None?)
      || ((q == Shift(from, dir, -1) || q == Shift(from, dir, 1))
          && IsValidPosition(q) && IsColor(At(b, q), Opponent(color)))
  {
    var dir := PawnDirection(color);
    var left, right := Shift(from, dir, -1), Shift(from, dir, 1);
    PawnCapturesBoth(b, from, color);
    assert PawnMoves(b, from, color) == PawnForward(b, from, color)
      + (if IsValidPosition(left) && IsColor(At(b, left), Opponent(color)) then [left] else [])
      + (if IsValidPosition(right) && IsColor(At(b, right), Opponent(color)) then [right] else []);
  }

  /** The two capture offsets contribute the left diagonal, then the right one. */
  lemma PawnCapturesBoth(b: Board, from: Position, color: Player)
    ensures var dir := PawnDirection(color);
      var left, right := Shift(from, dir, -1), Shift(from, dir, 1);
      PawnCaptures(b, from, color, PawnCaptureOffsets)
      == (if IsValidPosition(left) && IsColor(At(b, left), Opponent(color)) then [left] else [])
         + (if IsValidPosition(right) && IsColor(At(b, right), Opponent(color)) then [right] else [])
  {
    var offs := PawnCaptureOffsets;
    assert offs[..1] == [-1] && [-1][..0] == [];
  }

  /** A pawn on the far rank has no move at all: there is no promotion. */
  lemma PawnOnFarRank(b: Board, from: Position, color: Player)
    requires from.row == HomeRow(Opponent(color))
    ensures PawnMoves(b, from, color) == []
  {
    var moves := PawnMoves(b, from, color);
    if moves != [] {
      PawnMovesExactly(b, from, color, moves[0]);
    }
  }

  /** Knight destinations are exactly the table offsets that land on an empty or enemy square. */
  lemma KnightMovesExactly(b: Board, from: Position, color: Player, q: Position)
    ensures q in KnightMoves(b, from, color) <==>
      exists i | 0 <= i < 8 :: q == Shift(from, KnightOffsets[i].0, KnightOffsets[i].1) && CanLandOn(b, q, color)
  {
  }

  /** King destinations are exactly the eight neighbours that land on an empty or enemy square. */
  lemma KingMovesExactly(b: Board, from: Position, color: Player, q: Position)
    ensures q in KingMoves(b, from, color) <==>
      exists i | 0 <= i < 8 :: q == Shift(from, KingOffsets[i].0, KingOffsets[i].1) && CanLandOn(b, q, color)
  {
  }

  // ---------------------------------------------------------------------------------------
  // Legality, execution and game end

  /** Legal moves are pseudo-legal moves. */
  lemma LegalSubsetOfPseudoLegal(b: Board, from: Position)
    requires IsValidPosition(from)
    ensures forall t | t in LegalMoves(b, from) :: t in PseudoLegalMoves(b, from)
  {
  }

  /** The board a successful move produces never leaves the mover's own king in check. */
  lemma MakeMoveKeepsKingSafe(b: Board, from: Position, to: Position)
    requires IsValidPosition(from)
    requires MakeMove(b, from, to).Some?
    ensures !IsInCheck(MakeMove(b, from, to).value.newBoard, MakeMove(b, from, to).value.move.piece.color)
  {
    assert IsValidMove(b, from, to);
    MakeMoveSucceeds(b, from, to);
    LegalMovesExactly(b, from);
  }

  /** Checkmate needs check, stalemate excludes it, so the two never hold together; both mean
      that no piece of that colour has a legal move. */
  lemma GameEndExclusive(b: Board, color: Player)
    ensures IsCheckmate(b, color) ==> IsInCheck(b, color)
    ensures IsStalemate(b, color) ==> !IsInCheck(b, color)
    ensures !(IsCheckmate(b, color) && IsStalemate(b, color))
    ensures IsCheckmate(b, color) || IsStalemate(b, color) ==>
      forall r, c | 0 <= r < 8 && 0 <= c < 8 && IsColor(b[r][c], color) :: LegalMoves(b, Pos(r, c)) == []
  {
    if IsCheckmate(b, color) || IsStalemate(b, color) {
      HasLegalMoveExactly(b, color);
      forall r, c | 0 <= r < 8 && 0 <= c < 8 && IsColor(b[r][c], color)
        ensures LegalMoves(b, Pos(r, c)) == []
      {
        assert !HasLegalMoveAt(b, color, r, c);
      }
    }
  }

  /** In checkmate, every pseudo-legal move of every piece of the mated side leaves its king
      attacked. */
  lemma CheckmateHasNoEscape(b: Board, color: Player, r: int, c: int, t: Position)
    requires 0 <= r < 8 && 0 <= c < 8 && IsColor(b[r][c], color)
    requires IsCheckmate(b, color)
    requires t in PseudoLegalMoves(b, Pos(r, c))
    ensures IsValidPosition(t) && IsInCheck(Relocate(b, Pos(r, c), t), color)
  {
    PseudoLegalSound(b, Pos(r, c));
    LegalMovesExactly(b, Pos(r, c));
    HasLegalMoveExactly(b, color);
    assert !HasLegalMoveAt(b, color, r, c);
    assert t !in LegalMoves(b, Pos(r, c));
  }

  // ---------------------------------------------------------------------------------------
  // Notation

  /** Reads a square name such as "e4" back into a position. */
  function ParseSquare(s: string): (p: Option<Position>)
    ensures p.Some? ==> IsValidPosition(p.value)
  {
    if |s| == 2 && 'a' <= s[0] <= 'h' && '1' <= s[1] <= '8' then
      Some(Pos(8 - ((s[1] as int) - ('0' as int)), (s[0] as int) - ('a' as int)))
    else None
  }

  /** Square names read back to the square they name, so distinct squares get distinct names. */
  lemma SquareNameRoundTrip(p: Position)
    requires IsValidPosition(p)
    ensures ParseSquare(SquareName(p)) == Some(p)
  {
    assert Files[p.col] as int == ('a' as int) + p.col by {
      assert Files == ['a', 'b', 'c', 'd', 'e', 'f', 'g', 'h'];
    }
  }

  /** The piece type a notation letter stands for. */
  function KindOfLetter(ch: char): Option<PieceType> {
    if ch == 'K' then Some(King)
    else if ch == 'Q' then Some(Queen)
    else if ch == 'R' then Some(Rook)
    else if ch == 'B' then Some(Bishop)
    else if ch == 'N' then Some(Knight)
    else None
  }

  /** The notation can be read back: its last two characters name the target square, it holds
      an "x" exactly when a piece was captured, and its first character names the moving
      piece's type (a file letter, naming no type, for a pawn). */
  lemma NotationReadsBack(m: Move)
    requires IsValidPosition(m.from) && IsValidPosition(m.to)
    ensures var s := MoveNotation(m);
      && |s| >= 2
      && ParseSquare(s[|s| - 2..]) == Some(m.to)
      && ('x' in s <==> m.captured.Some?)
      && KindOfLetter(s[0]) == (if m.piece.kind == Pawn then None else Some(m.piece.kind))
  {
    var s := MoveNotation(m);
    assert Files == ['a', 'b', 'c', 'd', 'e', 'f', 'g', 'h'];
    assert s[|s| - 2..] == SquareName(m.to);
    SquareNameRoundTrip(m.to);
    assert 'x' !in SquareName(m.to);
  }

  /** The notation the program records reads back in part: its last two characters name the
      target square, it holds an "x" exactly when a piece was captured, and its first
      character is a file letter for a pawn and the mover's type letter for every other
      piece, except that a knight reads back as a king. */
  lemma NotationAsWrittenReadsBack(m: Move)
    requires IsValidPosition(m.from) && IsValidPosition(m.to)
    ensures var s := MoveNotationAsWritten(m);
      && |s| >= 2
      && ParseSquare(s[|s| - 2..]) == Some(m.to)
      && ('x' in s <==> m.captured.Some?)
      && KindOfLetter(s[0]) ==
           if m.piece.kind == Pawn then None
           else if m.piece.kind == Knight then Some(King)
           else Some(m.piece.kind)
  {
    var s := MoveNotationAsWritten(m);
    var square := SquareName(m.to);
    assert Files == ['a', 'b', 'c', 'd', 'e', 'f', 'g', 'h'];
    SquareNameRoundTrip(m.to);
    assert 'x' !in square;
    if m.piece.kind == Pawn {
      if m.captured.Some? {
        assert s == [Files[m.from.col], 'x'] + square;
      } else {
        assert s == square;
      }
    } else {
      LettersAsWritten();
      var letter := LetterAsWritten(m.piece.kind);
      assert s == [letter] + (if m.captured.Some? then "x" else "") + square;
      assert letter != 'x';
    }
  }

  /** The letters the program derives for the non-pawn types: K, Q, R, B, and K again for the
      knight. */
  lemma LettersAsWritten()
    ensures LetterAsWritten(King) == 'K' && LetterAsWritten(Queen) == 'Q'
    ensures LetterAsWritten(Rook) == 'R' && LetterAsWritten(Bishop) == 'B'
    ensures LetterAsWritten(Knight) == 'K'
  {
    assert TypeName(King)[0] == 'k' && TypeName(Queen)[0] == 'q' && TypeName(Rook)[0] == 'r';
    assert TypeName(Bishop)[0] == 'b' && TypeName(Knight)[0] == 'k';
  }

  /** White's e2-e4 reads "e4", in the program's notation and in the corrected one. */
  lemma PawnAdvanceNotation()
    ensures MoveNotationAsWritten(Move(Pos(6, 4), Pos(4, 4), Piece(Pawn, White), None, "")) == "e4"
    ensures MoveNotation(Move(Pos(6, 4), Pos(4, 4), Piece(Pawn, White), None, "")) == "e4"
  {
    var m := Move(Pos(6, 4), Pos(4, 4), Piece(Pawn, White), None, "");
    assert MoveNotationAsWritten(m) == SquareName(Pos(4, 4));
    assert Files[4] == 'e';
  }

  /** A rook on d4 taking on d7 reads "Rxd7", in the program's notation and in the corrected
      one. */
  lemma RookCaptureNotation()
    ensures MoveNotationAsWritten(Move(Pos(4, 3), Pos(1, 3), Piece(Rook, White), Some(Piece(Pawn, Black)), "")) == "Rxd7"
    ensures MoveNotation(Move(Pos(4, 3), Pos(1, 3), Piece(Rook, White), Some(Piece(Pawn, Black)), "")) == "Rxd7"
  {
  }

  /** As written, the knight's letter is the king's: a knight move and a king move to the same
      square print the same text. */
  lemma KnightPrintsAsKingAsWritten(from1: Position, from2: Position, to: Position, color: Player, captured: Option<Piece>)
    requires IsValidPosition(from1) && IsValidPosition(from2) && IsValidPosition(to)
    ensures MoveNotationAsWritten(Move(from1, to, Piece(Knight, color), captured, ""))
         == MoveNotationAsWritten(Move(from2, to, Piece(King, color), captured, ""))
    ensures LetterAsWritten(Knight) == 'K'
  {
  }

  /** With the algebraic letters, no two non-pawn types share a letter. */
  lemma PieceLettersDistinct(k1: PieceType, k2: PieceType)
    requires k1 != Pawn && k2 != Pawn && k1 != k2
    ensures PieceLetter(k1) != PieceLetter(k2)
  {
  }
}
