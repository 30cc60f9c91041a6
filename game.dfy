/** The game session: the seven state cells of the chess hook and the handlers that update
    them. Each handler is specified by a function from the state before to the state after;
    the invariant every handler keeps ties the side to move to the parity of the history and
    the board to the replay of the history. */
module ChessGame {
  import opened ChessTypes
  import Rules = ChessRules
  import Logic = ChessLogic
  import AI = ChessAI

  /** A snapshot of the state cells. */
  datatype GameState = GameState(
    board: Board,
    currentPlayer: Player,
    selectedSquare: Option<Position>,
    possibleMoves: seq<Position>,
    moveHistory: seq<Move>,
    gameStatus: GameStatus,
    isAIThinking: bool)

  /** The cells as the session starts and as a reset leaves them. */
  function InitialState(): GameState {
    GameState(Rules.InitialBoard(), White, None, [], [], Playing, false)
  }

  /** The side to move after `n` moves: White after an even number. */
  function PlayerAfter(n: nat): Player {
    if n % 2 == 0 then White else Black
  }

  predicate IsOver(s: GameState) {
    s.gameStatus == Checkmate || s.gameStatus == Stalemate
  }

  // ---------------------------------------------------------------------------------------
  // Status

  /** The status shown for `player` to move on `b`. */
  function StatusOf(b: Board, player: Player): GameStatus {
    if Rules.IsInCheck(b, player) then
      if Rules.IsCheckmate(b, player) then Checkmate else Check
    else if Rules.IsStalemate(b, player) then Stalemate
    else Playing
  }

  /** Each status names one of the four situations of the side to move, and they do not
      overlap. */
  lemma StatusOfExactly(b: Board, player: Player)
    ensures StatusOf(b, player) == Checkmate <==> Rules.IsCheckmate(b, player)
    ensures StatusOf(b, player) == Check <==> Rules.IsInCheck(b, player) && Rules.HasLegalMove(b, player)
    ensures StatusOf(b, player) == Stalemate <==> Rules.IsStalemate(b, player)
    ensures StatusOf(b, player) == Playing <==> !Rules.IsInCheck(b, player) && Rules.HasLegalMove(b, player)
  {
  }

  // ---------------------------------------------------------------------------------------
  // Replay

  predicate FromsOnBoard(history: seq<Move>) {
    forall i | 0 <= i < |history| :: Rules.IsValidPosition(history[i].from)
  }

  /** The board reached by applying the move function to the moves of `history` in turn,
      from the initial board, skipping the moves it rejects. */
  function Replay(history: seq<Move>): Board
    requires FromsOnBoard(history)
    decreases |history|
  {
    if history == [] then Rules.InitialBoard()
    else
      var prev := Replay(history[..|history| - 1]);
      var m := history[|history| - 1];
      match Rules.MakeMove(prev, m.from, m.to)
      case None => prev
      case Some(result) => result.newBoard
  }

  /** The session invariant: White moves exactly after an even number of moves, the board is
      the replay of the history, and a selected square is on the board. */
  predicate Consistent(s: GameState) {
    && FromsOnBoard(s.moveHistory)
    && s.currentPlayer == PlayerAfter(|s.moveHistory|)
    && s.board == Replay(s.moveHistory)
    && (s.selectedSquare.Some? ==> Rules.IsValidPosition(s.selectedSquare.value))
  }

  // ---------------------------------------------------------------------------------------
  // Transitions

  /** The update shared by a human move and an AI move: the board after the move, the move
      appended to the history with its notation, the turn passed and the status recomputed
      for the new side to move. */
  function Played(s: GameState, result: Rules.MoveResult): GameState
    requires Rules.IsValidPosition(result.move.from) && Rules.IsValidPosition(result.move.to)
  {
    var next := Opponent(s.currentPlayer);
    s.(board := result.newBoard,
       moveHistory := s.moveHistory + [result.move.(notation := Rules.MoveNotationAsWritten(result.move))],
       currentPlayer := next,
       gameStatus := StatusOf(result.newBoard, next))
  }

  /** A click on `position`. A finished game ignores it. With a square selected, the click
      plays the selected piece to `position` when that is a highlighted destination the move
      function accepts, and clears the selection in every case. Without a selection, a click
      on a piece of the side to move selects it and highlights its legal moves. */
  function Clicked(s: GameState, position: Position): GameState
    requires Rules.IsValidPosition(position)
    requires s.selectedSquare.Some? ==> Rules.IsValidPosition(s.selectedSquare.value)
  {
    if IsOver(s) then s
    else match s.selectedSquare
      case Some(from) => MovedFrom(s, from, position)
      case None => Selected(s, position)
  }

  /** A click on `position` with nothing selected: a piece of the side to move becomes the
      selection and its legal destinations the highlights; any other click changes nothing. */
  function Selected(s: GameState, position: Position): GameState
    requires Rules.IsValidPosition(position)
  {
    if Rules.IsColor(Rules.At(s.board, position), s.currentPlayer) then
      s.(selectedSquare := Some(position), possibleMoves := Rules.LegalMoves(s.board, position))
    else s
  }

  /** A click on `position` with `from` selected: the piece moves when `position` is a
      highlighted destination the move function accepts; the selection is cleared either way. */
  function MovedFrom(s: GameState, from: Position, position: Position): GameState
    requires Rules.IsValidPosition(from) && Rules.IsValidPosition(position)
  {
    var moved :=
      if position in s.possibleMoves then
        match Rules.MakeMove(s.board, from, position)
        case None => s
        case Some(result) => Played(s, result)
      else s;
    moved.(selectedSquare := None, possibleMoves := [])
  }

  /** The cases of a click: a finished game ignores it; with a selection, the selection and
      the highlights are cleared and only a highlighted destination can change the position;
      without one, a piece of the side to move is selected with its legal moves highlighted,
      and any other square is ignored. */
  lemma ClickedCases(s: GameState, position: Position)
    requires Rules.IsValidPosition(position)
    requires s.selectedSquare.Some? ==> Rules.IsValidPosition(s.selectedSquare.value)
    ensures IsOver(s) ==> Clicked(s, position) == s
    ensures !IsOver(s) && s.selectedSquare.Some? ==>
      && Clicked(s, position).selectedSquare == None
      && Clicked(s, position).possibleMoves == []
      && Clicked(s, position).isAIThinking == s.isAIThinking
      && (position !in s.possibleMoves ==>
            Clicked(s, position) == s.(selectedSquare := None, possibleMoves := []))
    ensures !IsOver(s) && s.selectedSquare.None? ==>
      if Rules.IsColor(Rules.At(s.board, position), s.currentPlayer) then
        Clicked(s, position) ==
          s.(selectedSquare := Some(position), possibleMoves := Rules.LegalMoves(s.board, position))
      else Clicked(s, position) == s
  {
  }

  /** A click on a highlighted destination the move function accepts plays exactly one move:
      the history grows by that move, with its notation, and the turn passes. */
  lemma ClickPlaysMove(s: GameState, position: Position)
    requires Consistent(s) && Rules.IsValidPosition(position)
    requires !IsOver(s) && s.selectedSquare.Some? && position in s.possibleMoves
    requires Rules.MakeMove(s.board, s.selectedSquare.value, position).Some?
    ensures var t := Clicked(s, position);
      var m := Rules.MakeMove(s.board, s.selectedSquare.value, position).value.move;
      && t.board == Rules.Relocate(s.board, s.selectedSquare.value, position)
      && t.moveHistory == s.moveHistory + [m.(notation := Rules.MoveNotationAsWritten(m))]
      && t.currentPlayer == Opponent(s.currentPlayer)
      && t.gameStatus == StatusOf(t.board, t.currentPlayer)
      && Consistent(t)
  {
    ClickedKeepsConsistent(s, position);
  }

  /** Taking back the last move: the history loses its last entry, the board is rebuilt by
      replaying the rest, the side to move follows the parity of what is left, the selection
      is cleared and the status recomputed. An empty history is left alone. */
  function Undone(s: GameState): GameState
    requires FromsOnBoard(s.moveHistory)
  {
    if s.moveHistory == [] then s
    else
      var remaining := s.moveHistory[..|s.moveHistory| - 1];
      var b := Replay(remaining);
      var player := PlayerAfter(|remaining|);
      s.(board := b, moveHistory := remaining, currentPlayer := player,
         selectedSquare := None, possibleMoves := [], gameStatus := StatusOf(b, player))
  }

  /** The synchronous part of an AI turn with random draw `pick`: unless the game is over,
      the move the AI chooses is played like a human move, and the thinking flag ends down. */
  function AIMoved(s: GameState, pick: nat): GameState {
    if IsOver(s) then s else AIPlayed(s, pick).(isAIThinking := false)
  }

  /** The move the AI chooses, played like a human move; nothing changes when it finds none. */
  function AIPlayed(s: GameState, pick: nat): GameState {
    match AI.AIMove(s.board, s.currentPlayer, pick)
    case None => s
    case Some((from, to)) =>
      match Rules.MakeMove(s.board, from, to)
      case None => s
      case Some(result) => Played(s, result)
  }

  /** The thinking flag plays no part in the AI's move. */
  lemma AIPlayedIgnoresFlag(s: GameState, pick: nat, thinking: bool)
    ensures AIPlayed(s.(isAIThinking := thinking), pick) == AIPlayed(s, pick).(isAIThinking := thinking)
  {
  }

  // ---------------------------------------------------------------------------------------
  // The invariant

  lemma InitialConsistent()
    ensures Consistent(InitialState())
  {
  }

  /** Playing a move the move function accepts keeps the invariant: the new board is the
      replay of the longer history, and the turn passes with the parity. */
  lemma PlayedKeepsConsistent(s: GameState, from: Position, to: Position)
    requires Consistent(s) && Rules.IsValidPosition(from)
    requires Rules.MakeMove(s.board, from, to).Some?
    ensures Consistent(Played(s, Rules.MakeMove(s.board, from, to).value))
  {
    var result := Rules.MakeMove(s.board, from, to).value;
    var t := Played(s, result);
    var h := t.moveHistory;
    assert h[..|h| - 1] == s.moveHistory;
    assert h[|h| - 1].from == from && h[|h| - 1].to == to;
    forall i | 0 <= i < |h|
      ensures Rules.IsValidPosition(h[i].from)
    {
      if i < |h| - 1 {
        assert h[i] == s.moveHistory[i];
      }
    }
    assert Replay(h) == result.newBoard;
    PlayerAfterNext(|s.moveHistory|);
  }

  /** Each move passes the turn. */
  lemma PlayerAfterNext(n: nat)
    ensures PlayerAfter(n + 1) == Opponent(PlayerAfter(n))
  {
  }

  lemma ClickedKeepsConsistent(s: GameState, position: Position)
    requires Consistent(s) && Rules.IsValidPosition(position)
    ensures Consistent(Clicked(s, position))
  {
    if !IsOver(s) && s.selectedSquare.Some? && position in s.possibleMoves
      && Rules.MakeMove(s.board, s.selectedSquare.value, position).Some?
    {
      PlayedKeepsConsistent(s, s.selectedSquare.value, position);
    }
  }

  lemma {:induction false} ReplayPrefix(history: seq<Move>, k: nat)
    requires FromsOnBoard(history) && k <= |history|
    ensures FromsOnBoard(history[..k])
  {
  }

  /** Replaying one more move of the history applies the move function once more. */
  lemma ReplayStep(history: seq<Move>, i: nat)
    requires FromsOnBoard(history) && i < |history|
    ensures FromsOnBoard(history[..i]) && FromsOnBoard(history[..i + 1])
    ensures Replay(history[..i + 1]) ==
      match Rules.MakeMove(Replay(history[..i]), history[i].from, history[i].to)
      case None => Replay(history[..i])
      case Some(result) => result.newBoard
  {
    assert history[..i + 1][..i] == history[..i];
  }

  lemma UndoneKeepsConsistent(s: GameState)
    requires Consistent(s)
    ensures Consistent(Undone(s))
  {
    if s.moveHistory != [] {
      ReplayPrefix(s.moveHistory, |s.moveHistory| - 1);
    }
  }

  lemma AIMovedKeepsConsistent(s: GameState, pick: nat)
    requires Consistent(s)
    ensures Consistent(AIMoved(s, pick))
  {
    if !IsOver(s) {
      AIPlayedKeepsConsistent(s, pick);
      var t := AIPlayed(s, pick);
      assert AIMoved(s, pick) == t.(isAIThinking := false);
    }
  }

  lemma AIPlayedKeepsConsistent(s: GameState, pick: nat)
    requires Consistent(s)
    ensures Consistent(AIPlayed(s, pick))
  {
    var choice := AI.AIMove(s.board, s.currentPlayer, pick);
    if choice.Some? {
      AI.AIMoveIsLegal(s.board, s.currentPlayer, pick);
      var from := choice.value.0;
      var to := choice.value.1;
      var made := Rules.MakeMove(s.board, from, to);
      assert made.Some?;
      PlayedKeepsConsistent(s, from, to);
      assert AIPlayed(s, pick) == Played(s, made.value);
    } else {
      assert AIPlayed(s, pick) == s;
    }
  }

  /** Undo of a non-empty history, field by field. */
  lemma UndoneValue(s: GameState, newBoard: Board, player: Player)
    requires FromsOnBoard(s.moveHistory) && s.moveHistory != []
    requires FromsOnBoard(s.moveHistory[..|s.moveHistory| - 1])
    requires newBoard == Replay(s.moveHistory[..|s.moveHistory| - 1])
    requires player == PlayerAfter(|s.moveHistory| - 1)
    ensures Undone(s) == s.(board := newBoard, moveHistory := s.moveHistory[..|s.moveHistory| - 1],
      currentPlayer := player, selectedSquare := None, possibleMoves := [],
      gameStatus := StatusOf(newBoard, player))
  {
  }

  /** Undo is the inverse of a move: taking back a move just played restores the board, the
      history and the side to move. */
  lemma UndoRevertsPlayed(s: GameState, from: Position, to: Position)
    requires Consistent(s) && Rules.IsValidPosition(from)
    requires Rules.MakeMove(s.board, from, to).Some?
    ensures var u := Undone(Played(s, Rules.MakeMove(s.board, from, to).value));
      u.board == s.board && u.moveHistory == s.moveHistory && u.currentPlayer == s.currentPlayer
  {
    var t := Played(s, Rules.MakeMove(s.board, from, to).value);
    PlayedKeepsConsistent(s, from, to);
    assert t.moveHistory[..|t.moveHistory| - 1] == s.moveHistory;
  }

  /** The replay loop of undo: starting from a fresh initial board, applies the move
      function to each move in turn and keeps the board it returns, if any. */
  method ReplayMoves(movesToReplay: seq<Move>) returns (newBoard: Board)
    requires FromsOnBoard(movesToReplay)
    ensures newBoard == Replay(movesToReplay)
  {
    newBoard := Logic.CreateInitialBoard();
    for i := 0 to |movesToReplay|
      invariant newBoard == Replay(movesToReplay[..i])
    {
      var move := movesToReplay[i];
      ReplayStep(movesToReplay, i);
      var moveData := Logic.MakeMove(newBoard, move.from, move.to);
      if moveData.Some? {
        newBoard := moveData.value.newBoard;
      }
    }
    assert movesToReplay[..|movesToReplay|] == movesToReplay;
  }

  // ---------------------------------------------------------------------------------------
  // The session

  class Game {
    var board: Board
    var currentPlayer: Player
    var selectedSquare: Option<Position>
    var possibleMoves: seq<Position>
    var moveHistory: seq<Move>
    var gameStatus: GameStatus
    var isAIThinking: bool

    function State(): GameState
      reads this
    {
      GameState(board, currentPlayer, selectedSquare, possibleMoves, moveHistory, gameStatus, isAIThinking)
    }

    predicate Valid()
      reads this
    {
      Consistent(State())
    }

    constructor()
      ensures State() == InitialState() && Valid()
    {
      board := Rules.InitialBoard();
      currentPlayer := White;
      selectedSquare := None;
      possibleMoves := [];
      moveHistory := [];
      gameStatus := Playing;
      isAIThinking := false;
      new;
      InitialConsistent();
    }

    /** Sets the status for `player` to move on `newBoard`, testing check first. */
    method UpdateGameStatus(newBoard: Board, player: Player)
      modifies this
      ensures State() == old(State()).(gameStatus := StatusOf(newBoard, player))
    {
      var check := Logic.IsInCheck(newBoard, player);
      if check {
        var mate := Logic.IsCheckmate(newBoard, player);
        if mate {
          gameStatus := Checkmate;
        } else {
          gameStatus := Check;
        }
      } else {
        var stale := Logic.IsStalemate(newBoard, player);
        if stale {
          gameStatus := Stalemate;
        } else {
          gameStatus := Playing;
        }
      }
    }

    /** Records a move the move function accepted: the new board, the move with its
        notation appended to the history, the turn passed and the status recomputed. */
    method Commit(moveData: Rules.MoveResult)
      requires Rules.IsValidPosition(moveData.move.from) && Rules.IsValidPosition(moveData.move.to)
      modifies this
      ensures State() == Played(old(State()), moveData)
    {
      var notation := Rules.MoveNotationAsWritten(moveData.move);
      var fullMove := moveData.move.(notation := notation);
      var next := Opponent(currentPlayer);
      board := moveData.newBoard;
      moveHistory := moveHistory + [fullMove];
      currentPlayer := next;
      UpdateGameStatus(moveData.newBoard, next);
    }

    /** A click with a square selected: plays the selected piece to `position` when that is
        a highlighted destination, then clears the selection. */
    method MoveSelected(position: Position)
      requires Rules.IsValidPosition(position)
      requires selectedSquare.Some? && Rules.IsValidPosition(selectedSquare.value)
      modifies this
      ensures State() == MovedFrom(old(State()), old(selectedSquare.value), position)
    {
      if position in possibleMoves {
        var moveData := Logic.MakeMove(board, selectedSquare.value, position);
        if moveData.Some? {
          Commit(moveData.value);
        }
      }
      selectedSquare := None;
      possibleMoves := [];
    }

    method OnSquareClick(position: Position)
      requires Valid() && Rules.IsValidPosition(position)
      modifies this
      ensures State() == Clicked(old(State()), position)
      ensures Valid()
    {
      ghost var s := State();
      ClickedKeepsConsistent(s, position);
      if gameStatus == Checkmate || gameStatus == Stalemate {
        return;
      }
      if selectedSquare.Some? {
        assert Clicked(s, position) == MovedFrom(s, selectedSquare.value, position);
        MoveSelected(position);
      } else {
        assert Clicked(s, position) == Selected(s, position);
        SelectSquare(position);
      }
    }

    /** Selects an own piece and highlights where it may go. */
    method SelectSquare(position: Position)
      requires Rules.IsValidPosition(position)
      modifies this
      ensures State() == Selected(old(State()), position)
    {
      var piece := board[position.row][position.col];
      if piece.Some? && piece.value.color == currentPlayer {
        selectedSquare := Some(position);
        var moves := Logic.GetAllPossibleMoves(board, position);
        possibleMoves := moves;
      }
    }

    method ResetGame()
      modifies this
      ensures State() == InitialState() && Valid()
    {
      board := Logic.CreateInitialBoard();
      currentPlayer := White;
      selectedSquare := None;
      possibleMoves := [];
      moveHistory := [];
      gameStatus := Playing;
      isAIThinking := false;
      InitialConsistent();
    }

    /** Installs the position reached by taking back a move: the rebuilt board, the shortened
        history, the side to move, no selection, and the status recomputed. */
    method Retract(newBoard: Board, movesToReplay: seq<Move>, player: Player)
      modifies this
      ensures State() == old(State()).(board := newBoard, moveHistory := movesToReplay,
        currentPlayer := player, selectedSquare := None, possibleMoves := [],
        gameStatus := StatusOf(newBoard, player))
    {
      board := newBoard;
      moveHistory := movesToReplay;
      currentPlayer := player;
      selectedSquare := None;
      possibleMoves := [];
      UpdateGameStatus(newBoard, player);
    }

    /** Rebuilds the board by replaying every move but the last from the initial board. */
    method UndoMove()
      requires Valid()
      modifies this
      ensures State() == Undone(old(State()))
      ensures Valid()
    {
      UndoneKeepsConsistent(State());
      if |moveHistory| == 0 {
        return;
      }
      ghost var s := State();
      var movesToReplay := moveHistory[..|moveHistory| - 1];
      ReplayPrefix(moveHistory, |moveHistory| - 1);
      var newBoard := ReplayMoves(movesToReplay);
      var player := if |movesToReplay| % 2 == 0 then White else Black;
      Retract(newBoard, movesToReplay, player);
      UndoneValue(s, newBoard, player);
    }

    /** Asks the AI for a move and plays it when there is one. */
    method PlayAIChoice(pick: nat)
      modifies this
      ensures State() == AIPlayed(old(State()), pick)
    {
      var aiMove := AI.GetAIMove(board, currentPlayer, pick);
      if aiMove.Some? {
        AI.AIMoveIsLegal(board, currentPlayer, pick);
        var moveData := Logic.MakeMove(board, aiMove.value.0, aiMove.value.1);
        if moveData.Some? {
          Commit(moveData.value);
        }
      }
    }

    /** The AI plays for the side to move; `pick` stands for the random draw among its top
        candidates. */
    method MakeAIMove(pick: nat)
      requires Valid()
      modifies this
      ensures State() == AIMoved(old(State()), pick)
      ensures Valid()
    {
      ghost var s := State();
      AIMovedKeepsConsistent(s, pick);
      if gameStatus == Checkmate || gameStatus == Stalemate {
        return;
      }
      isAIThinking := true;
      PlayAIChoice(pick);
      AIPlayedIgnoresFlag(s, pick, true);
      AIPlayedIgnoresFlag(s, pick, false);
      isAIThinking := false;
    }
  }
}
