/** The data model of the chess engine: pieces, players, squares, boards and move records. */
module ChessTypes {

  datatype Option<+T> = None | Some(value: T)

  datatype PieceType = King | Queen | Rook | Bishop | Knight | Pawn

  datatype Player = White | Black

  datatype GameStatus = Playing | Check | Checkmate | Stalemate

  /** A piece is an immutable value: a move replaces it, never mutates it. */
  datatype Piece = Piece(kind: PieceType, color: Player)

  /** A square as the engine computes it; generators may form off-board positions
      before they filter them, so the coordinates are unbounded integers. */
  datatype Position = Pos(row: int, col: int)

  /** A move record: the mover before the move, what stood on the target square, and its text. */
  datatype Move = Move(from: Position, to: Position, piece: Piece, captured: Option<Piece>, notation: string)

  type Cell = Option<Piece>

  /** An 8x8 grid of optional pieces; row 0 is Black's back rank, row 7 White's. */
  type Board = b: seq<seq<Cell>> | |b| == 8 && forall r | 0 <= r < 8 :: |b[r]| == 8
    witness seq(8, _ => seq(8, _ => None))

  function Opponent(color: Player): (e: Player)
    ensures e != color
  {
    if color == White then Black else White
  }
}
