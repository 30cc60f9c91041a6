/** Reference definitions of the rules engine: the starting position, the pseudo-legal move
    generators, the legality filter, move execution, check, checkmate, stalemate and notation.
    Each is a pure function over board values; module ChessLogic holds the loop-based code and
    proves it computes these functions. */
module ChessRules {
  import opened ChessTypes

  // ---------------------------------------------------------------------------------------
  // Board model

  predicate IsValidPosition(p: Position) {
    0 <= p.row < 8 && 0 <= p.col < 8
  }

  function At(b: Board, p: Position): Cell
    requires IsValidPosition(p)
  {
    b[p.row][p.col]
  }

  function Shift(p: Position, dRow: int, dCol: int): Position {
    Pos(p.row + dRow, p.col + dCol)
  }

  predicate IsColor(cell: Cell, color: Player) {
    cell.Some? && cell.value.color == color
  }

  predicate IsKingOf(cell: Cell, color: Player) {
    cell == Some(Piece(King, color))
  }

  /** A square a piece of `color` may land on: on the board, and empty or held by the enemy. */
  predicate CanLandOn(b: Board, p: Position, color: Player) {
    IsValidPosition(p) && !IsColor(At(b, p), color)
  }

  /** Every square other than `from` is empty. */
  predicate EmptyExcept(b: Board, from: Position) {
    forall r, c | 0 <= r < 8 && 0 <= c < 8 && Pos(r, c) != from :: b[r][c].None?
  }

  /** Boards that agree on every square are equal. */
  lemma BoardsEqual(a: Board, b: Board)
    requires forall p | IsValidPosition(p) :: At(a, p) == At(b, p)
    ensures a == b
  {
    forall r | 0 <= r < 8 ensures a[r] == b[r] {
      forall c | 0 <= c < 8 ensures a[r][c] == b[r][c] {
        assert At(a, Pos(r, c)) == At(b, Pos(r, c));
      }
    }
  }

  // ---------------------------------------------------------------------------------------
  // Starting position

  const BackRank: seq<PieceType> := [Rook, Knight, Bishop, Queen, King, Bishop, Knight, Rook]

  /** The row holding a player's back-rank pieces at the start. */
  function HomeRow(color: Player): int {
    if color == White then 7 else 0
  }

  function InitialCell(r: int, c: int): Cell
    requires 0 <= c < 8
  {
    if r == 0 then Some(Piece(BackRank[c], Black))
    else if r == 1 then Some(Piece(Pawn, Black))
    else if r == 6 then Some(Piece(Pawn, White))
    else if r == 7 then Some(Piece(BackRank[c], White))
    else None
  }

  function InitialBoard(): Board {
    seq(8, r => seq(8, c requires 0 <= c < 8 => InitialCell(r, c)))
  }

  // ---------------------------------------------------------------------------------------
  // Pseudo-legal move generation

  /** White pawns advance toward row 0, Black pawns toward row 7. */
  function PawnDirection(color: Player): int {
    if color == White then -1 else 1
  }

  function PawnStartRow(color: Player): int {
    if color == White then 6 else 1
  }

  /** The single step onto an empty square, and the double step from the start row when
      both squares are empty. */
  function PawnForward(b: Board, from: Position, color: Player): seq<Position> {
    var one := Shift(from, PawnDirection(color), 0);
    var two := Shift(from, 2 * PawnDirection(color), 0);
    if IsValidPosition(one) && At(b, one).None? then
      if from.row == PawnStartRow(color) && IsValidPosition(two) && At(b, two).None? then [one, two]
      else [one]
    else []
  }

  /** Diagonal captures for the given column offsets, each only onto an enemy piece. */
  function PawnCaptures(b: Board, from: Position, color: Player, colOffsets: seq<int>): seq<Position>
    decreases |colOffsets|
  {
    if colOffsets == [] then []
    else
      var p := Shift(from, PawnDirection(color), colOffsets[|colOffsets| - 1]);
      PawnCaptures(b, from, color, colOffsets[..|colOffsets| - 1])
        + (if IsValidPosition(p) && IsColor(At(b, p), Opponent(color)) then [p] else [])
  }

  lemma AppendAssoc<T>(a: seq<T>, b: seq<T>, c: seq<T>)
    ensures (a + b) + c == a + (b + c)
  {
  }

  /** One more offset adds at most its own capture square to the end. */
  lemma PawnCapturesStep(b: Board, from: Position, color: Player, colOffsets: seq<int>, k: int)
    requires 0 <= k < |colOffsets|
    ensures var p := Shift(from, PawnDirection(color), colOffsets[k]);
      PawnCaptures(b, from, color, colOffsets[..k + 1])
      == PawnCaptures(b, from, color, colOffsets[..k]) + (if IsValidPosition(p) && IsColor(At(b, p), Opponent(color)) then [p] else [])
  {
    assert colOffsets[..k + 1][..k] == colOffsets[..k];
  }

  const PawnCaptureOffsets: seq<int> := [-1, 1]

  function PawnMoves(b: Board, from: Position, color: Player): seq<Position> {
    PawnForward(b, from, color) + PawnCaptures(b, from, color, PawnCaptureOffsets)
  }

  /** The square `i` steps from `from` in direction (dRow, dCol). */
  function RayStep(from: Position, dRow: int, dCol: int, i: int): Position {
    Pos(from.row + i * dRow, from.col + i * dCol)
  }

  /** The squares of one sliding ray, from step `i` on: every empty square up to the first
      occupied one, that one only when it holds an enemy piece, and nothing past it. */
  function Ray(b: Board, from: Position, color: Player, dRow: int, dCol: int, i: int): (r: seq<Position>)
    requires 1 <= i <= 8
    ensures forall q | q in r :: CanLandOn(b, q, color)
    decreases 8 - i
  {
    if i == 8 then []
    else
      var p := RayStep(from, dRow, dCol, i);
      if !IsValidPosition(p) then []
      else if At(b, p).None? then [p] + Ray(b, from, color, dRow, dCol, i + 1)
      else if At(b, p).value.color != color then [p]
      else []
  }

  const RookDirections: seq<(int, int)> := [(0, 1), (1, 0), (0, -1), (-1, 0)]
  const BishopDirections: seq<(int, int)> := [(1, 1), (1, -1), (-1, 1), (-1, -1)]
  const KnightOffsets: seq<(int, int)> :=
    [(-2, -1), (-2, 1), (-1, -2), (-1, 2), (1, -2), (1, 2), (2, -1), (2, 1)]
  const KingOffsets: seq<(int, int)> :=
    [(-1, -1), (-1, 0), (-1, 1), (0, -1), (0, 1), (1, -1), (1, 0), (1, 1)]

  /** The rays in the given directions, one after the other. */
  function SlidingMoves(b: Board, from: Position, color: Player, dirs: seq<(int, int)>): (r: seq<Position>)
    ensures forall q | q in r :: CanLandOn(b, q, color)
    decreases |dirs|
  {
    if dirs == [] then []
    else
      var d := dirs[|dirs| - 1];
      SlidingMoves(b, from, color, dirs[..|dirs| - 1]) + Ray(b, from, color, d.0, d.1, 1)
  }

  function RookMoves(b: Board, from: Position, color: Player): seq<Position> {
    SlidingMoves(b, from, color, RookDirections)
  }

  function BishopMoves(b: Board, from: Position, color: Player): seq<Position> {
    SlidingMoves(b, from, color, BishopDirections)
  }

  function QueenMoves(b: Board, from: Position, color: Player): seq<Position> {
    RookMoves(b, from, color) + BishopMoves(b, from, color)
  }

  /** The jump targets of a fixed offset table that a piece of `color` may land on. */
  function OffsetMoves(b: Board, from: Position, color: Player, offsets: seq<(int, int)>): (r: seq<Position>)
    ensures forall q :: q in r <==>
      exists i | 0 <= i < |offsets| :: q == Shift(from, offsets[i].0, offsets[i].1) && CanLandOn(b, q, color)
    decreases |offsets|
  {
    if offsets == [] then []
    else
      var o := offsets[|offsets| - 1];
      var p := Shift(from, o.0, o.1);
      var r := OffsetMoves(b, from, color, offsets[..|offsets| - 1]) + (if CanLandOn(b, p, color) then [p] else []);
      assert forall i | 0 <= i < |offsets| - 1 :: offsets[..|offsets| - 1][i] == offsets[i];
      r
  }

  function KnightMoves(b: Board, from: Position, color: Player): seq<Position> {
    OffsetMoves(b, from, color, KnightOffsets)
  }

  function KingMoves(b: Board, from: Position, color: Player): seq<Position> {
    OffsetMoves(b, from, color, KingOffsets)
  }

  function PieceMoves(b: Board, from: Position, piece: Piece): seq<Position> {
    match piece.kind
    case Pawn => PawnMoves(b, from, piece.color)
    case Rook => RookMoves(b, from, piece.color)
    case Knight => KnightMoves(b, from, piece.color)
    case Bishop => BishopMoves(b, from, piece.color)
    case Queen => QueenMoves(b, from, piece.color)
    case King => KingMoves(b, from, piece.color)
  }

  /** The final guard of the generator: keep only on-board positions, in order. */
  function OnBoardOnly(moves: seq<Position>): (r: seq<Position>)
    ensures forall q :: q in r <==> q in moves && IsValidPosition(q)
    decreases |moves|
  {
    if moves == [] then []
    else
      var last := moves[|moves| - 1];
      OnBoardOnly(moves[..|moves| - 1]) + (if IsValidPosition(last) then [last] else [])
  }

  /** Moves that obey the piece's movement rules and board occupancy, ignoring king safety. */
  function PseudoLegalMoves(b: Board, from: Position): seq<Position>
    requires IsValidPosition(from)
  {
    match At(b, from)
    case None => []
    case Some(piece) => OnBoardOnly(PieceMoves(b, from, piece))
  }

  // ---------------------------------------------------------------------------------------
  // Simulated moves and attacks

  /** The board with the piece on `from` moved to `to` and `from` emptied. */
  function Relocate(b: Board, from: Position, to: Position): (r: Board)
    requires IsValidPosition(from) && IsValidPosition(to)
    ensures forall p | IsValidPosition(p) ::
      At(r, p) == if p == from then None else if p == to then At(b, from) else At(b, p)
  {
    var t := b[to.row := b[to.row][to.col := At(b, from)]];
    t[from.row := t[from.row][from.col := None]]
  }

  /** "(r, c) is not before (r0, c0)" in row-major scan order. */
  predicate AtOrAfter(r: int, c: int, r0: int, c0: int) {
    r > r0 || (r == r0 && c >= c0)
  }

  /** The first king of `color` in row-major order at or after square (r, c). */
  function FindKingFrom(b: Board, color: Player, r: int, c: int): (k: Option<Position>)
    requires 0 <= r <= 8 && 0 <= c <= 8
    ensures k.Some? ==> IsValidPosition(k.value)
    decreases 8 - r, 8 - c
  {
    if r == 8 then None
    else if c == 8 then FindKingFrom(b, color, r + 1, 0)
    else if IsKingOf(b[r][c], color) then Some(Pos(r, c))
    else FindKingFrom(b, color, r, c + 1)
  }

  /** The scan from (r, c) finds nothing exactly when no king of `color` stands at or after
      (r, c), and otherwise stops on the first one. */
  lemma {:induction false} FindKingFromExactly(b: Board, color: Player, r: int, c: int)
    requires 0 <= r <= 8 && 0 <= c <= 8
    ensures var k := FindKingFrom(b, color, r, c);
      && (k.None? ==>
        forall r', c' | 0 <= r' < 8 && 0 <= c' < 8 && AtOrAfter(r', c', r, c) :: !IsKingOf(b[r'][c'], color))
      && (k.Some? ==>
        && IsKingOf(At(b, k.value), color)
        && AtOrAfter(k.value.row, k.value.col, r, c)
        && forall r', c' | 0 <= r' < 8 && 0 <= c' < 8 && AtOrAfter(r', c', r, c) && !AtOrAfter(r', c', k.value.row, k.value.col)
             :: !IsKingOf(b[r'][c'], color))
    decreases 8 - r, 8 - c
  {
    if r < 8 {
      if c == 8 {
        FindKingFromExactly(b, color, r + 1, 0);
      } else if !IsKingOf(b[r][c], color) {
        FindKingFromExactly(b, color, r, c + 1);
      }
    }
  }

  function FindKing(b: Board, color: Player): Option<Position> {
    FindKingFrom(b, color, 0, 0)
  }

  /** With no king of `color` on the board, the scan finds none. */
  lemma FindKingNone(b: Board, color: Player)
    requires forall r, c | 0 <= r < 8 && 0 <= c < 8 :: !IsKingOf(b[r][c], color)
    ensures FindKing(b, color) == None
  {
    FindKingFromExactly(b, color, 0, 0);
  }

  /** The scan finds the king on (row, col) when no king of `color` comes before it. */
  lemma FindKingFirst(b: Board, color: Player, row: int, col: int)
    requires 0 <= row < 8 && 0 <= col < 8 && IsKingOf(b[row][col], color)
    requires forall r, c | 0 <= r < 8 && 0 <= c < 8 && !AtOrAfter(r, c, row, col) :: !IsKingOf(b[r][c], color)
    ensures FindKing(b, color) == Some(Pos(row, col))
  {
    FindKingFromExactly(b, color, 0, 0);
    var k := FindKing(b, color);
    assert k.Some?;
    var kr, kc := k.value.row, k.value.col;
    assert AtOrAfter(kr, kc, row, col);
    assert AtOrAfter(row, col, kr, kc);
  }

  /** The piece of `attacker` on (r, c) has `target` among its pseudo-legal moves. */
  predicate Attacks(b: Board, attacker: Player, r: int, c: int, target: Position)
    requires 0 <= r < 8 && 0 <= c < 8
  {
    IsColor(b[r][c], attacker) && target in PseudoLegalMoves(b, Pos(r, c))
  }

  // ---------------------------------------------------------------------------------------
  // Row-major scans

  /** Some square before (row, col) in row-major order satisfies `p`: what a row-then-column
      scan that stops at the first hit has seen when it reaches (row, col). */
  predicate FoundBefore(p: (int, int) -> bool, row: int, col: int)
    requires 0 <= row && 0 <= col <= 8
    decreases row, col
  {
    if col > 0 then FoundBefore(p, row, col - 1) || p(row, col - 1)
    else row > 0 && FoundBefore(p, row - 1, 8)
  }

  /** The scan finds a square exactly when one exists before the point it has reached. */
  lemma {:induction false} FoundBeforeExists(p: (int, int) -> bool, row: int, col: int)
    requires (0 <= row < 8 && 0 <= col <= 8) || (row == 8 && col == 0)
    ensures FoundBefore(p, row, col) <==>
      exists r, c | 0 <= r < 8 && 0 <= c < 8 && !AtOrAfter(r, c, row, col) :: p(r, c)
    decreases row, col
  {
    if col > 0 {
      FoundBeforeExists(p, row, col - 1);
    } else if row > 0 {
      FoundBeforeExists(p, row - 1, 8);
    }
  }

  // ---------------------------------------------------------------------------------------
  // Check

  /** The squares from which a piece of `attacker` attacks `target`. */
  function AttackersOf(b: Board, attacker: Player, target: Position): (int, int) -> bool {
    (r: int, c: int) => 0 <= r < 8 && 0 <= c < 8 && Attacks(b, attacker, r, c, target)
  }

  /** False when `color` has no king; otherwise the scan of the enemy pieces meets one whose
      pseudo-legal moves reach the first king found. */
  predicate IsInCheck(b: Board, color: Player) {
    match FindKing(b, color)
    case None => false
    case Some(k) => FoundBefore(AttackersOf(b, Opponent(color), k), 8, 0)
  }

  /** `color` is in check exactly when it has a king and some enemy piece attacks it. */
  lemma IsInCheckExactly(b: Board, color: Player)
    ensures IsInCheck(b, color) <==>
      && FindKing(b, color).Some?
      && exists r, c | 0 <= r < 8 && 0 <= c < 8 :: Attacks(b, Opponent(color), r, c, FindKing(b, color).value)
  {
    if FindKing(b, color).Some? {
      var attacks := AttackersOf(b, Opponent(color), FindKing(b, color).value);
      FoundBeforeExists(attacks, 8, 0);
      forall r, c | 0 <= r < 8 && 0 <= c < 8
        ensures attacks(r, c) == Attacks(b, Opponent(color), r, c, FindKing(b, color).value)
      {
      }
    }
  }

  predicate WouldBeInCheck(b: Board, from: Position, to: Position, color: Player)
    requires IsValidPosition(from) && IsValidPosition(to)
  {
    IsInCheck(Relocate(b, from, to), color)
  }

  /** The candidates, in order, whose simulation does not leave `color` in check. */
  function SafeMoves(b: Board, from: Position, color: Player, tos: seq<Position>): (r: seq<Position>)
    requires IsValidPosition(from)
    requires forall t | t in tos :: IsValidPosition(t)
    ensures forall t | t in r :: t in tos
    decreases |tos|
  {
    if tos == [] then []
    else
      var last := tos[|tos| - 1];
      assert forall t | t in tos[..|tos| - 1] :: t in tos;
      SafeMoves(b, from, color, tos[..|tos| - 1]) + (if !WouldBeInCheck(b, from, last, color) then [last] else [])
  }

  /** A candidate survives the filter exactly when its simulation leaves `color` out of check. */
  lemma {:induction false} SafeMovesExactly(b: Board, from: Position, color: Player, tos: seq<Position>)
    requires IsValidPosition(from)
    requires forall t | t in tos :: IsValidPosition(t)
    ensures forall t :: t in SafeMoves(b, from, color, tos) <==> t in tos && !WouldBeInCheck(b, from, t, color)
    decreases |tos|
  {
    if tos != [] {
      var init := tos[..|tos| - 1];
      assert forall t | t in init :: t in tos;
      SafeMovesExactly(b, from, color, init);
      assert tos == init + [tos[|tos| - 1]];
    }
  }

  /** The legal moves of the piece on `from`: its pseudo-legal moves that do not leave its own
      king in check. */
  function LegalMoves(b: Board, from: Position): (r: seq<Position>)
    requires IsValidPosition(from)
    ensures At(b, from).None? ==> r == []
    ensures At(b, from).Some? ==> forall t | t in r :: CanLandOn(b, t, At(b, from).value.color)
  {
    match At(b, from)
    case None => []
    case Some(piece) =>
      PseudoLegalSound(b, from);
      SafeMoves(b, from, piece.color, PseudoLegalMoves(b, from))
  }

  /** A destination is legal exactly when it is pseudo-legal, on the board, not held by the
      mover's colour, and the board with the piece moved leaves the mover out of check. */
  lemma LegalMovesExactly(b: Board, from: Position)
    requires IsValidPosition(from)
    ensures At(b, from).Some? ==> forall t :: t in LegalMoves(b, from) <==>
      t in PseudoLegalMoves(b, from) && CanLandOn(b, t, At(b, from).value.color)
      && !IsInCheck(Relocate(b, from, t), At(b, from).value.color)
  {
    if At(b, from).Some? {
      PseudoLegalSound(b, from);
      SafeMovesExactly(b, from, At(b, from).value.color, PseudoLegalMoves(b, from));
    }
  }

  /** Every pseudo-legal destination is on the board and not held by the mover's colour. */
  lemma PseudoLegalSound(b: Board, from: Position)
    requires IsValidPosition(from)
    ensures At(b, from).None? ==> PseudoLegalMoves(b, from) == []
    ensures At(b, from).Some? ==>
      forall q | q in PseudoLegalMoves(b, from) :: CanLandOn(b, q, At(b, from).value.color)
  {
    if At(b, from).Some? {
      var piece := At(b, from).value;
      var moves := PieceMoves(b, from, piece);
      PieceMovesLand(b, from, piece);
      assert forall q | q in OnBoardOnly(moves) :: q in moves;
    }
  }

  lemma PieceMovesLand(b: Board, from: Position, piece: Piece)
    ensures forall q | q in PieceMoves(b, from, piece) && IsValidPosition(q) :: CanLandOn(b, q, piece.color)
  {
    match piece.kind
    case Pawn => PawnMovesLand(b, from, piece.color);
    case _ =>
  }

  lemma PawnMovesLand(b: Board, from: Position, color: Player)
    ensures forall q | q in PawnMoves(b, from, color) && IsValidPosition(q) :: CanLandOn(b, q, color)
  {
    PawnCapturesEnemy(b, from, color, PawnCaptureOffsets);
  }

  lemma {:induction false} PawnCapturesEnemy(b: Board, from: Position, color: Player, offs: seq<int>)
    ensures forall q | q in PawnCaptures(b, from, color, offs) ::
      exists i | 0 <= i < |offs| :: q == Shift(from, PawnDirection(color), offs[i])
        && IsValidPosition(q) && IsColor(At(b, q), Opponent(color))
    decreases |offs|
  {
    if offs != [] {
      var init := offs[..|offs| - 1];
      PawnCapturesEnemy(b, from, color, init);
      assert forall i | 0 <= i < |init| :: init[i] == offs[i];
    }
  }

  predicate HasLegalMoveAt(b: Board, color: Player, r: int, c: int)
    requires 0 <= r < 8 && 0 <= c < 8
  {
    IsColor(b[r][c], color) && |LegalMoves(b, Pos(r, c))| > 0
  }

  /** The squares holding a piece of `color` that has a legal move. */
  function MoversOf(b: Board, color: Player): (int, int) -> bool {
    (r: int, c: int) => 0 <= r < 8 && 0 <= c < 8 && HasLegalMoveAt(b, color, r, c)
  }

  /** The scan over the pieces of `color` meets one with a legal move. */
  predicate HasLegalMove(b: Board, color: Player) {
    FoundBefore(MoversOf(b, color), 8, 0)
  }

  /** `color` has a legal move exactly when one of its pieces has one. */
  lemma HasLegalMoveExactly(b: Board, color: Player)
    ensures HasLegalMove(b, color) <==> exists r, c | 0 <= r < 8 && 0 <= c < 8 :: HasLegalMoveAt(b, color, r, c)
  {
    var movers := MoversOf(b, color);
    FoundBeforeExists(movers, 8, 0);
    forall r, c | 0 <= r < 8 && 0 <= c < 8
      ensures movers(r, c) == HasLegalMoveAt(b, color, r, c)
    {
    }
  }

  predicate IsCheckmate(b: Board, color: Player) {
    IsInCheck(b, color) && !HasLegalMove(b, color)
  }

  predicate IsStalemate(b: Board, color: Player) {
    !IsInCheck(b, color) && !HasLegalMove(b, color)
  }

  // ---------------------------------------------------------------------------------------
  // Move execution

  predicate IsValidMove(b: Board, from: Position, to: Position)
    requires IsValidPosition(from)
  {
    to in LegalMoves(b, from)
  }

  datatype MoveResult = MoveResult(newBoard: Board, move: Move)

  /** Fails exactly when `to` is not a legal move from `from`; otherwise moves the piece on a
      new board and records the mover, the captured piece and an empty notation. */
  function MakeMove(b: Board, from: Position, to: Position): (r: Option<MoveResult>)
    requires IsValidPosition(from)
    ensures r.None? <==> !IsValidMove(b, from, to)
    ensures r.Some? ==>
      && IsValidPosition(to) && to != from && At(b, from).Some?
      && r.value.move == Move(from, to, At(b, from).value, At(b, to), "")
      && forall p | IsValidPosition(p) ::
           At(r.value.newBoard, p) == if p == to then At(b, from) else if p == from then None else At(b, p)
  {
    if !IsValidMove(b, from, to) then None
    else
      PseudoLegalSound(b, from);
      match At(b, from)
      case None => None
      case Some(piece) => Some(MoveResult(Relocate(b, from, to), Move(from, to, piece, At(b, to), "")))
  }

  /** A legal move always goes through: its origin is occupied and its target on the board. */
  lemma MakeMoveSucceeds(b: Board, from: Position, to: Position)
    requires IsValidPosition(from) && to in LegalMoves(b, from)
    ensures IsValidPosition(to) && At(b, from).Some?
    ensures MakeMove(b, from, to) ==
      Some(MoveResult(Relocate(b, from, to), Move(from, to, At(b, from).value, At(b, to), "")))
  {
  }

  // ---------------------------------------------------------------------------------------
  // Notation

  const Files: string := "abcdefgh"

  /** The rank digit of a row: row 0 is rank 8, row 7 is rank 1. */
  function RankChar(row: int): char
    requires 0 <= row < 8
  {
    (('0' as int) + (8 - row)) as char
  }

  function SquareName(p: Position): string
    requires IsValidPosition(p)
  {
    [Files[p.col], RankChar(p.row)]
  }

  function TypeName(kind: PieceType): string {
    match kind
    case King => "king"
    case Queen => "queen"
    case Rook => "rook"
    case Bishop => "bishop"
    case Knight => "knight"
    case Pawn => "pawn"
  }

  /** Upper case of a lower-case ASCII letter. */
  function ToUpper(ch: char): char
    requires 'a' <= ch <= 'z'
  {
    ((ch as int) - 32) as char
  }

  /** The piece letter the program derives: the upper-cased first letter of the type name. */
  function LetterAsWritten(kind: PieceType): char {
    ToUpper(TypeName(kind)[0])
  }

  /** The piece letters of algebraic notation: K, Q, R, B, N (and P, never printed). */
  function PieceLetter(kind: PieceType): char {
    match kind
    case King => 'K'
    case Queen => 'Q'
    case Rook => 'R'
    case Bishop => 'B'
    case Knight => 'N'
    case Pawn => 'P'
  }

  /** A pawn move renders as its target square, or as its origin file, "x" and the target on a
      capture; any other piece as `letter`, "x" on a capture, then the target square. */
  function Render(m: Move, letter: char): string
    requires IsValidPosition(m.from) && IsValidPosition(m.to)
  {
    if m.piece.kind == Pawn then
      if m.captured.Some? then [Files[m.from.col], 'x'] + SquareName(m.to) else SquareName(m.to)
    else
      [letter] + (if m.captured.Some? then "x" else "") + SquareName(m.to)
  }

  /** The notation the program records: ends with the target square's name and, for a
      piece other than a pawn, starts with that piece's letter as the program derives it. */
  function MoveNotationAsWritten(m: Move): (s: string)
    requires IsValidPosition(m.from) && IsValidPosition(m.to)
    ensures |s| >= 2 && s[|s| - 2..] == SquareName(m.to)
    ensures m.piece.kind != Pawn ==> s[0] == LetterAsWritten(m.piece.kind)
  {
    Render(m, LetterAsWritten(m.piece.kind))
  }

  function MoveNotation(m: Move): string
    requires IsValidPosition(m.from) && IsValidPosition(m.to)
  {
    Render(m, PieceLetter(m.piece.kind))
  }
}
