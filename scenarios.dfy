/** Concrete positions played through the reference rules: an opening pawn advance, a rook
    capture, and the fastest checkmate. */
module ChessScenarios {
  import opened ChessTypes
  import opened ChessRules
  import opened ChessProperties

  // ---------------------------------------------------------------------------------------
  // Shared facts about move generation

  /** A square on one of the rays is among the sliding moves over all the directions. */
  lemma {:induction false} SlidingIncludesRay(b: Board, from: Position, color: Player, dirs: seq<(int, int)>, j: int, q: Position)
    requires 0 <= j < |dirs| && q in Ray(b, from, color, dirs[j].0, dirs[j].1, 1)
    ensures q in SlidingMoves(b, from, color, dirs)
    decreases |dirs|
  {
    var init := dirs[..|dirs| - 1];
    if j < |dirs| - 1 {
      assert init[j] == dirs[j];
      SlidingIncludesRay(b, from, color, init, j, q);
    }
  }

  /** Every sliding move lies on one of the directions, and is the first step of its ray unless
      that first step is an empty square. */
  lemma {:induction false} SlidingTargets(b: Board, from: Position, color: Player, dirs: seq<(int, int)>, q: Position)
    requires q in SlidingMoves(b, from, color, dirs)
    ensures exists d, k | d in dirs && 1 <= k < 8 ::
      && q == RayStep(from, d.0, d.1, k)
      && (k == 1 || (IsValidPosition(RayStep(from, d.0, d.1, 1)) && At(b, RayStep(from, d.0, d.1, 1)).None?))
    decreases |dirs|
  {
    var init := dirs[..|dirs| - 1];
    var last := dirs[|dirs| - 1];
    if q in SlidingMoves(b, from, color, init) {
      SlidingTargets(b, from, color, init, q);
      var d, k :| d in init && 1 <= k < 8 && q == RayStep(from, d.0, d.1, k)
        && (k == 1 || (IsValidPosition(RayStep(from, d.0, d.1, 1)) && At(b, RayStep(from, d.0, d.1, 1)).None?));
      assert d in dirs;
    } else {
      RayExactly(b, from, color, last.0, last.1, 1, q);
      var k :| 1 <= k < 8 && q == RayStep(from, last.0, last.1, k) && CanLandOn(b, q, color)
        && ClearBetween(b, from, last.0, last.1, 1, k);
      assert k == 1 || (IsValidPosition(RayStep(from, last.0, last.1, 1)) && At(b, RayStep(from, last.0, last.1, 1)).None?);
      assert last in dirs;
    }
  }

  /** A non-empty sequence holds its first element. */
  lemma FirstIsMember<T>(s: seq<T>)
    ensures |s| > 0 ==> s[0] in s
  {
  }

  /** A jump move's offset from its origin is one of the table's entries. */
  lemma OffsetTargets(b: Board, from: Position, color: Player, offsets: seq<(int, int)>)
    ensures forall q | q in OffsetMoves(b, from, color, offsets) :: (q.row - from.row, q.col - from.col) in offsets
  {
    forall q | q in OffsetMoves(b, from, color, offsets)
      ensures (q.row - from.row, q.col - from.col) in offsets
    {
      var i :| 0 <= i < |offsets| && q == Shift(from, offsets[i].0, offsets[i].1) && CanLandOn(b, q, color);
      assert offsets[i] == (q.row - from.row, q.col - from.col);
    }
  }

  /** With every ray empty from its first step, a sliding piece has no move. */
  lemma {:induction false} NoSlidingMoves(b: Board, from: Position, color: Player, dirs: seq<(int, int)>)
    requires forall j | 0 <= j < |dirs| :: Ray(b, from, color, dirs[j].0, dirs[j].1, 1) == []
    ensures SlidingMoves(b, from, color, dirs) == []
    decreases |dirs|
  {
    if dirs != [] {
      var init := dirs[..|dirs| - 1];
      assert forall j | 0 <= j < |init| :: init[j] == dirs[j];
      NoSlidingMoves(b, from, color, init);
    }
  }

  // ---------------------------------------------------------------------------------------
  // 1. e2-e4 from the starting position

  /** Black's back rank and pawn row as they stand at the start. */
  predicate BlackHomeIntact(b: Board) {
    forall c | 0 <= c < 8 ::
      b[0][c] == Some(Piece(BackRank[c], Black)) && b[1][c] == Some(Piece(Pawn, Black))
  }

  /** While Black's first two rows are untouched, a black piece on them reaches no square
      beyond row 3: pawns advance one or two rows, knights and the king jump at most two, and
      every sliding piece is boxed in by its own pieces. */
  lemma HomePiecesStayBack(b: Board, from: Position)
    requires BlackHomeIntact(b) && IsValidPosition(from) && from.row <= 1
    ensures forall q | q in PseudoLegalMoves(b, from) :: q.row <= 3
  {
    if from.row == 1 {
      assert At(b, from) == Some(Piece(Pawn, Black));
      PawnStepsStayBack(b, from);
    } else {
      var kind := BackRank[from.col];
      assert At(b, from) == Some(Piece(kind, Black));
      if kind == Knight || kind == King {
        JumpsStayBack(b, from, kind);
      } else {
        assert kind != Pawn;
        SliderBoxedIn(b, from, kind);
      }
    }
  }

  /** A black pawn on its start row moves one or two rows forward, never further. */
  lemma PawnStepsStayBack(b: Board, from: Position)
    requires IsValidPosition(from) && from.row == 1 && At(b, from) == Some(Piece(Pawn, Black))
    ensures forall q | q in PseudoLegalMoves(b, from) :: q.row <= 3
  {
    assert forall q | q in PseudoLegalMoves(b, from) :: q in PawnMoves(b, from, Black);
    forall q | q in PawnMoves(b, from, Black) ensures q.row <= 3 {
      PawnMovesExactly(b, from, Black, q);
    }
  }

  /** A knight or king on Black's back rank jumps at most two rows forward. */
  lemma JumpsStayBack(b: Board, from: Position, kind: PieceType)
    requires IsValidPosition(from) && from.row == 0 && At(b, from) == Some(Piece(kind, Black))
    requires kind == Knight || kind == King
    ensures forall q | q in PseudoLegalMoves(b, from) :: q.row <= 3
  {
    var offsets := if kind == Knight then KnightOffsets else KingOffsets;
    assert forall o | o in offsets :: o.0 <= 2 by {
      assert forall i | 0 <= i < |offsets| :: offsets[i].0 <= 2;
    }
    JumpRowBound(b, from, Black, offsets, 2);
    assert PieceMoves(b, from, Piece(kind, Black)) == OffsetMoves(b, from, Black, offsets);
  }

  /** Jumps whose offsets advance at most `bound` rows land at most `bound` rows on. */
  lemma JumpRowBound(b: Board, from: Position, color: Player, offsets: seq<(int, int)>, bound: int)
    requires forall o | o in offsets :: o.0 <= bound
    ensures forall q | q in OffsetMoves(b, from, color, offsets) :: q.row <= from.row + bound
  {
    OffsetTargets(b, from, color, offsets);
  }

  /** A rook, bishop or queen on Black's back rank, with Black's first two rows untouched, has
      no move at all. */
  lemma SliderBoxedIn(b: Board, from: Position, kind: PieceType)
    requires BlackHomeIntact(b) && IsValidPosition(from) && from.row == 0
    requires At(b, from) == Some(Piece(kind, Black)) && kind in {Rook, Bishop, Queen}
    ensures PseudoLegalMoves(b, from) == []
  {
    BoxedInAtHome(b, from, RookDirections);
    BoxedInAtHome(b, from, BishopDirections);
    assert PieceMoves(b, from, Piece(kind, Black)) == [];
  }

  /** A black sliding piece on its back rank, with Black's first two rows untouched, has no
      move in any direction of unit steps. */
  lemma BoxedInAtHome(b: Board, from: Position, dirs: seq<(int, int)>)
    requires BlackHomeIntact(b) && IsValidPosition(from) && from.row == 0
    requires forall d | d in dirs :: -1 <= d.0 <= 1 && -1 <= d.1 <= 1
    ensures SlidingMoves(b, from, Black, dirs) == []
  {
    forall j | 0 <= j < |dirs| ensures Ray(b, from, Black, dirs[j].0, dirs[j].1, 1) == [] {
      assert dirs[j] in dirs;
      var p := RayStep(from, dirs[j].0, dirs[j].1, 1);
      if IsValidPosition(p) {
        assert IsColor(At(b, p), Black);
      }
    }
    NoSlidingMoves(b, from, Black, dirs);
  }

  /** After e2-e4 the white king still stands on e1, and no black piece attacks it. */
  lemma KingSafeAfterPawnAdvance()
    ensures !IsInCheck(Relocate(InitialBoard(), Pos(6, 4), Pos(4, 4)), White)
  {
    var b := InitialBoard();
    var a := Relocate(b, Pos(6, 4), Pos(4, 4));
    InitialLayout();
    InitialKings(White);
    forall r, c | 0 <= r < 8 && 0 <= c < 8
      ensures a[r][c] == if r == 6 && c == 4 then None else if r == 4 && c == 4 then b[6][4] else b[r][c]
    {
      assert At(a, Pos(r, c)) == a[r][c];
    }
    assert BlackHomeIntact(a);
    FindKingFirst(a, White, 7, 4);
    IsInCheckExactly(a, White);
    forall r, c | 0 <= r < 8 && 0 <= c < 8 && IsColor(a[r][c], Black)
      ensures !Attacks(a, Black, r, c, Pos(7, 4))
    {
      assert IsColor(b[r][c], Black);
      assert r <= 1;
      HomePiecesStayBack(a, Pos(r, c));
    }
  }

  /** From the starting position, e2-e4 is accepted: e2 empties, e4 holds the white pawn,
      nothing is captured, and the program's notation for it reads "e4". */
  lemma PawnAdvanceScenario()
    ensures var r := MakeMove(InitialBoard(), Pos(6, 4), Pos(4, 4));
      && r.Some?
      && r.value.move.piece == Piece(Pawn, White) && r.value.move.captured.None?
      && At(r.value.newBoard, Pos(6, 4)).None?
      && At(r.value.newBoard, Pos(4, 4)) == Some(Piece(Pawn, White))
      && MoveNotationAsWritten(r.value.move) == "e4"
  {
    var b := InitialBoard();
    var from, to := Pos(6, 4), Pos(4, 4);
    InitialLayout();
    assert to in PawnMoves(b, from, White) by {
      PawnMovesExactly(b, from, White, to);
    }
    assert to in PseudoLegalMoves(b, from);
    KingSafeAfterPawnAdvance();
    LegalMovesExactly(b, from);
    MakeMoveSucceeds(b, from, to);
    PawnAdvanceNotation();
  }

  // ---------------------------------------------------------------------------------------
  // 2. A rook takes a pawn

  /** A white rook on d4, a black pawn on d7, and nothing else. */
  function RookFacesPawn(): Board {
    seq(8, r => seq(8, c =>
      if r == 4 && c == 3 then Some(Piece(Rook, White))
      else if r == 1 && c == 3 then Some(Piece(Pawn, Black))
      else None))
  }

  /** The rook on d4 may take the pawn on d7: the move goes through, the rook stands on d7,
      d4 is empty, the pawn is recorded as captured, and the notation reads "Rxd7". */
  lemma RookCaptureScenario()
    ensures var r := MakeMove(RookFacesPawn(), Pos(4, 3), Pos(1, 3));
      && r.Some?
      && r.value.move.captured == Some(Piece(Pawn, Black))
      && At(r.value.newBoard, Pos(1, 3)) == Some(Piece(Rook, White))
      && At(r.value.newBoard, Pos(4, 3)).None?
      && MoveNotationAsWritten(r.value.move) == "Rxd7"
  {
    var b := RookFacesPawn();
    var from, to := Pos(4, 3), Pos(1, 3);
    RookReachesPawn();
    NoKingAfterCapture();
    LegalMovesExactly(b, from);
    assert to in LegalMoves(b, from);
    MakeMoveSucceeds(b, from, to);
    RookCaptureNotation();
  }

  /** Moving up the d-file, the rook crosses two empty squares and stops on the pawn. */
  lemma RookReachesPawn()
    ensures Pos(1, 3) in PseudoLegalMoves(RookFacesPawn(), Pos(4, 3))
  {
    var b := RookFacesPawn();
    var from, to := Pos(4, 3), Pos(1, 3);
    RayExactly(b, from, White, -1, 0, 1, to);
    assert to == RayStep(from, -1, 0, 3);
    assert ClearBetween(b, from, -1, 0, 1, 3);
    SlidingIncludesRay(b, from, White, RookDirections, 3, to);
  }

  /** With no king on the board, no move of the rook can leave White in check. */
  lemma NoKingAfterCapture()
    ensures !IsInCheck(Relocate(RookFacesPawn(), Pos(4, 3), Pos(1, 3)), White)
  {
    var a := Relocate(RookFacesPawn(), Pos(4, 3), Pos(1, 3));
    forall r, c | 0 <= r < 8 && 0 <= c < 8
      ensures !IsKingOf(a[r][c], White)
    {
      assert At(a, Pos(r, c)) == a[r][c];
    }
    FindKingNone(a, White);
  }

  // ---------------------------------------------------------------------------------------
  // 3. Fool's mate

  /** The position after 1. f3 e5 2. g4 Qh4: f2 and g2 have left the e1-h4 diagonal, e7 has
      opened the way for the queen, and the queen stands on h4. */
  function FoolsMateCell(r: int, c: int): Cell
    requires 0 <= c < 8
  {
    if r == 0 then (if c == 3 then None else Some(Piece(BackRank[c], Black)))
    else if r == 1 then (if c == 4 then None else Some(Piece(Pawn, Black)))
    else if r == 3 && c == 4 then Some(Piece(Pawn, Black))
    else if r == 4 && c == 7 then Some(Piece(Queen, Black))
    else if r == 4 && c == 6 then Some(Piece(Pawn, White))
    else if r == 5 && c == 5 then Some(Piece(Pawn, White))
    else if r == 6 then (if c == 5 || c == 6 then None else Some(Piece(Pawn, White)))
    else if r == 7 then Some(Piece(BackRank[c], White))
    else None
  }

  function FoolsMate(): Board {
    seq(8, r => seq(8, c requires 0 <= c < 8 => FoolsMateCell(r, c)))
  }

  /** The squares the black queen's check runs over: h4 itself, g3 and f2. */
  predicate OnQueenDiagonal(p: Position) {
    p == Pos(4, 7) || p == Pos(5, 6) || p == Pos(6, 5)
  }

  /** White's only king stands on e1. */
  lemma FoolsMateKing()
    ensures forall r, c | 0 <= r < 8 && 0 <= c < 8 ::
      IsKingOf(FoolsMate()[r][c], White) <==> r == 7 && c == 4
  {
    forall r, c | 0 <= r < 8 && 0 <= c < 8
      ensures IsKingOf(FoolsMate()[r][c], White) <==> r == 7 && c == 4
    {
      assert BackRank[c] == King <==> c == 4;
    }
  }

  /** The black queen on h4 attacks the square `k` steps down the h4-e1 diagonal when the
      squares before it are empty and no black piece stands on it. */
  lemma QueenDiagonal(b: Board, k: int)
    requires At(b, Pos(4, 7)) == Some(Piece(Queen, Black)) && 1 <= k <= 3
    requires ClearBetween(b, Pos(4, 7), 1, -1, 1, k)
    requires CanLandOn(b, RayStep(Pos(4, 7), 1, -1, k), Black)
    ensures Attacks(b, Black, 4, 7, RayStep(Pos(4, 7), 1, -1, k))
  {
    var from, q := Pos(4, 7), RayStep(Pos(4, 7), 1, -1, k);
    RayExactly(b, from, Black, 1, -1, 1, q);
    SlidingIncludesRay(b, from, Black, BishopDirections, 1, q);
    assert q in QueenMoves(b, from, Black);
  }

  /** With the queen on h4, g3 empty, and White's only king either on f2 (k = 2) or on e1
      behind an empty f2 (k = 3), White is in check. */
  lemma CheckedOnDiagonal(a: Board, k: int)
    requires k == 2 || k == 3
    requires At(a, Pos(4, 7)) == Some(Piece(Queen, Black)) && At(a, Pos(5, 6)).None?
    requires k == 3 ==> At(a, Pos(6, 5)).None?
    requires forall r, c | 0 <= r < 8 && 0 <= c < 8 :: IsKingOf(a[r][c], White) <==> r == 4 + k && c == 7 - k
    ensures IsInCheck(a, White)
  {
    FindKingFirst(a, White, 4 + k, 7 - k);
    assert RayStep(Pos(4, 7), 1, -1, 1) == Pos(5, 6) && RayStep(Pos(4, 7), 1, -1, 2) == Pos(6, 5);
    assert ClearBetween(a, Pos(4, 7), 1, -1, 1, k);
    QueenDiagonal(a, k);
    IsInCheckExactly(a, White);
  }

  /** A white pawn's move never lands on the queen's diagonal: g3 and f2 can only be reached
      by a capture, and no pawn stands below h4. */
  lemma PawnAvoidsDiagonal(from: Position, t: Position)
    requires IsValidPosition(from) && At(FoolsMate(), from) == Some(Piece(Pawn, White))
    requires t in PawnMoves(FoolsMate(), from, White)
    ensures !OnQueenDiagonal(t)
  {
    PawnMovesExactly(FoolsMate(), from, White, t);
  }

  /** Neither white knight jumps onto the queen's diagonal. */
  lemma KnightAvoidsDiagonal(from: Position, t: Position)
    requires IsValidPosition(from) && At(FoolsMate(), from) == Some(Piece(Knight, White))
    requires t in KnightMoves(FoolsMate(), from, White)
    ensures !OnQueenDiagonal(t)
  {
    assert from.row == 7 && (from.col == 1 || from.col == 6);
    OffsetTargets(FoolsMate(), from, White, KnightOffsets);
    assert (t.row - from.row, t.col - from.col) in KnightOffsets;
  }

  /** The white rooks, bishops and queen all stand on the back rank, and f1 holds a bishop. */
  lemma WhiteSliderSquares(from: Position, kind: PieceType)
    requires IsValidPosition(from) && At(FoolsMate(), from) == Some(Piece(kind, White))
    requires kind in {Rook, Bishop, Queen}
    ensures from.row == 7 && from.col in {0, 2, 3, 5, 7}
    ensures from.col == 5 ==> kind == Bishop
  {
    assert from.row == 7;
    assert BackRank[from.col] == kind;
  }

  /** A line from the back rank through a rook, bishop or queen square meets h4, g3 or f2
      only by going straight up from f1, which a bishop cannot, or up from h1 past h2. */
  lemma BackRankLineMisses(from: Position, d: (int, int), k: int)
    requires from.row == 7 && from.col in {0, 2, 3, 5, 7}
    requires d in RookDirections || d in BishopDirections
    requires from.col == 5 ==> d in BishopDirections
    requires 1 <= k && (k == 1 || RayStep(from, d.0, d.1, 1) != Pos(6, 7))
    ensures !OnQueenDiagonal(RayStep(from, d.0, d.1, k))
  {
  }

  /** No white rook, bishop or queen on the back rank reaches the queen's diagonal while h2
      is occupied: the h1 rook is stopped there, and no other one lies on a line through h4,
      g3 or f2. */
  lemma SliderAvoidsDiagonal(b: Board, from: Position, kind: PieceType, dirs: seq<(int, int)>, t: Position)
    requires from.row == 7 && from.col in {0, 2, 3, 5, 7} && (from.col == 5 ==> kind == Bishop)
    requires At(b, Pos(6, 7)).Some?
    requires (kind in {Rook, Queen} && dirs == RookDirections) || (kind in {Bishop, Queen} && dirs == BishopDirections)
    requires t in SlidingMoves(b, from, White, dirs)
    ensures !OnQueenDiagonal(t)
  {
    SlidingTargets(b, from, White, dirs, t);
    var d, k :| d in dirs && 1 <= k < 8 && t == RayStep(from, d.0, d.1, k)
      && (k == 1 || (IsValidPosition(RayStep(from, d.0, d.1, 1)) && At(b, RayStep(from, d.0, d.1, 1)).None?));
    BackRankLineMisses(from, d, k);
  }

  /** Whatever White plays, the queen still gives check: the king's one move, to f2, stays on
      the diagonal, and every other move leaves the diagonal and the king where they were. */
  lemma StillInCheck(from: Position, t: Position)
    requires IsValidPosition(from) && IsColor(At(FoolsMate(), from), White)
    requires t in PseudoLegalMoves(FoolsMate(), from)
    ensures IsValidPosition(t) && IsInCheck(Relocate(FoolsMate(), from, t), White)
  {
    PseudoLegalSound(FoolsMate(), from);
    var kind := At(FoolsMate(), from).value.kind;
    if kind == King {
      FoolsMateKing();
      assert IsKingOf(FoolsMate()[from.row][from.col], White);
      assert t in KingMoves(FoolsMate(), Pos(7, 4), White);
      KingOnlyToF2(FoolsMate(), t);
      KingStepStillChecked();
    } else {
      AvoidsDiagonal(from, kind, t);
      OtherMoveStillChecked(from, t);
    }
  }

  /** The king stepping to f2 walks into the queen's line. */
  lemma KingStepStillChecked()
    ensures IsInCheck(Relocate(FoolsMate(), Pos(7, 4), Pos(6, 5)), White)
  {
    var a := Relocate(FoolsMate(), Pos(7, 4), Pos(6, 5));
    FoolsMateKing();
    forall r, c | 0 <= r < 8 && 0 <= c < 8
      ensures IsKingOf(a[r][c], White) <==> r == 6 && c == 5
    {
      assert At(a, Pos(r, c)) == a[r][c];
    }
    CheckedOnDiagonal(a, 2);
  }

  /** A move by any other white piece that stays off the diagonal leaves the check in place. */
  lemma OtherMoveStillChecked(from: Position, t: Position)
    requires IsValidPosition(from) && IsValidPosition(t)
    requires IsColor(At(FoolsMate(), from), White) && At(FoolsMate(), from).value.kind != King
    requires CanLandOn(FoolsMate(), t, White) && !OnQueenDiagonal(t)
    ensures IsInCheck(Relocate(FoolsMate(), from, t), White)
  {
    var a := Relocate(FoolsMate(), from, t);
    FoolsMateKing();
    forall r, c | 0 <= r < 8 && 0 <= c < 8
      ensures IsKingOf(a[r][c], White) <==> r == 7 && c == 4
    {
      assert At(a, Pos(r, c)) == a[r][c];
    }
    CheckedOnDiagonal(a, 3);
  }

  /** A white king on e1 whose neighbours d2, e2, d1 and f1 hold white pieces can only step
      to f2. */
  lemma KingOnlyToF2(b: Board, t: Position)
    requires IsColor(At(b, Pos(6, 3)), White) && IsColor(At(b, Pos(6, 4)), White)
    requires IsColor(At(b, Pos(7, 3)), White) && IsColor(At(b, Pos(7, 5)), White)
    requires t in KingMoves(b, Pos(7, 4), White)
    ensures t == Pos(6, 5)
  {
    OffsetTargets(b, Pos(7, 4), White, KingOffsets);
    assert CanLandOn(b, t, White);
  }

  /** A move of a white piece other than the king never lands on the queen's diagonal. */
  lemma AvoidsDiagonal(from: Position, kind: PieceType, t: Position)
    requires IsValidPosition(from) && At(FoolsMate(), from) == Some(Piece(kind, White)) && kind != King
    requires t in PseudoLegalMoves(FoolsMate(), from)
    ensures !OnQueenDiagonal(t)
  {
    var b := FoolsMate();
    assert t in PieceMoves(b, from, Piece(kind, White));
    if kind == Pawn {
      PawnAvoidsDiagonal(from, t);
    } else if kind == Knight {
      KnightAvoidsDiagonal(from, t);
    } else {
      SlidingPieceAvoidsDiagonal(from, kind, t);
    }
  }

  /** The white rooks, bishops and queen cannot reach the queen's diagonal. */
  lemma SlidingPieceAvoidsDiagonal(from: Position, kind: PieceType, t: Position)
    requires IsValidPosition(from) && At(FoolsMate(), from) == Some(Piece(kind, White))
    requires kind in {Rook, Bishop, Queen} && t in PieceMoves(FoolsMate(), from, Piece(kind, White))
    ensures !OnQueenDiagonal(t)
  {
    var b := FoolsMate();
    WhiteSliderSquares(from, kind);
    assert At(b, Pos(6, 7)).Some?;
    if kind != Bishop && t in RookMoves(b, from, White) {
      SliderAvoidsDiagonal(b, from, kind, RookDirections, t);
    } else {
      assert t in BishopMoves(b, from, White);
      SliderAvoidsDiagonal(b, from, kind, BishopDirections, t);
    }
  }

  /** No piece of White has a legal move. */
  lemma WhiteHasNoMove()
    ensures !HasLegalMove(FoolsMate(), White)
  {
    var b := FoolsMate();
    HasLegalMoveExactly(b, White);
    forall r, c | 0 <= r < 8 && 0 <= c < 8 && IsColor(b[r][c], White)
      ensures !HasLegalMoveAt(b, White, r, c)
    {
      var from := Pos(r, c);
      LegalMovesExactly(b, from);
      forall t | t in PseudoLegalMoves(b, from)
        ensures IsInCheck(Relocate(b, from, t), White)
      {
        StillInCheck(from, t);
      }
      FirstIsMember(LegalMoves(b, from));
    }
  }

  /** Fool's mate: White is in check and has no legal move, so it is checkmated and not
      stalemated. */
  lemma FoolsMateScenario()
    ensures IsCheckmate(FoolsMate(), White)
    ensures !IsStalemate(FoolsMate(), White)
  {
    FoolsMateKing();
    CheckedOnDiagonal(FoolsMate(), 3);
    WhiteHasNoMove();
  }
}
