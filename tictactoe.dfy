/**
 * TicTacToeGame without its Swing panels: a 3 x 3 board kept row by row in an
 * array of nine cells, the player to move, the move count, and the running
 * tallies of wins and ties that survive a reset.
 */
module TicTacToe {
  import opened Basics
  import opened Events
  import opened Core

  datatype Player = X | O

  /** A tile: empty, or showing a player's mark. */
  datatype Cell = Blank | Mark(player: Player)

  /** What `gameFinished` is told: a winner, or "TIE". */
  datatype Outcome = Win(winner: Player) | Tie

  const Name: string := "Tic-Tac-Toe"
  const Version: string := "1.0"
  const Size: nat := 3
  const Cells: nat := 9

  function Other(p: Player): (other: Player) {
    if p == X then O else X
  }

  /** The tiles at i, j and k are non-empty and show the same mark. */
  predicate Line(b: seq<Cell>, i: nat, j: nat, k: nat)
    requires i < |b| && j < |b| && k < |b|
  {
    b[i] != Blank && b[i] == b[j] && b[j] == b[k]
  }

  predicate RowLine(b: seq<Cell>, r: nat)
    requires |b| == Cells && r < Size
  {
    Line(b, 3 * r, 3 * r + 1, 3 * r + 2)
  }

  predicate ColumnLine(b: seq<Cell>, c: nat)
    requires |b| == Cells && c < Size
  {
    Line(b, c, c + 3, c + 6)
  }

  /** Some row, column or diagonal is complete. */
  predicate HasLine(b: seq<Cell>)
    requires |b| == Cells
  {
    RowLine(b, 0) || RowLine(b, 1) || RowLine(b, 2)
    || ColumnLine(b, 0) || ColumnLine(b, 1) || ColumnLine(b, 2)
    || Line(b, 0, 4, 8) || Line(b, 2, 4, 6)
  }

  /** Some row, column or diagonal shows p's mark three times. */
  predicate LineOf(b: seq<Cell>, p: Player)
    requires |b| == Cells
  {
    HasLine(b) && (
      (RowLine(b, 0) && b[0] == Mark(p)) || (RowLine(b, 1) && b[3] == Mark(p)) || (RowLine(b, 2) && b[6] == Mark(p))
      || (ColumnLine(b, 0) && b[0] == Mark(p)) || (ColumnLine(b, 1) && b[1] == Mark(p)) || (ColumnLine(b, 2) && b[2] == Mark(p))
      || (Line(b, 0, 4, 8) && b[0] == Mark(p)) || (Line(b, 2, 4, 6) && b[2] == Mark(p)))
  }

  /** The number of tiles showing c. */
  function Count(b: seq<Cell>, c: Cell): (count: nat) {
    if b == [] then 0 else Count(b[..|b| - 1], c) + (if b[|b| - 1] == c then 1 else 0)
  }

  /** The number of non-empty tiles. */
  function Filled(b: seq<Cell>): (n: nat)
    ensures n <= |b|
  {
    if b == [] then 0 else Filled(b[..|b| - 1]) + (if b[|b| - 1] != Blank then 1 else 0)
  }

  /** Writing c over an empty tile adds one to its count and one to the filled tiles. */
  lemma {:induction false} PlaceCounts(b: seq<Cell>, i: nat, c: Cell, d: Cell)
    requires i < |b| && b[i] == Blank && c != Blank
    ensures Filled(b[i := c]) == Filled(b) + 1
    ensures Count(b[i := c], d) == Count(b, d) + (if d == c then 1 else 0) - (if d == Blank then 1 else 0)
    decreases |b|
  {
    var b' := b[i := c];
    if i < |b| - 1 {
      assert b'[..|b'| - 1] == b[..|b| - 1][i := c];
      PlaceCounts(b[..|b| - 1], i, c, d);
    } else {
      assert b'[..|b'| - 1] == b[..|b| - 1];
    }
  }

  /** Every tile is filled exactly when the filled count is the board size. */
  lemma {:induction false} FullBoard(b: seq<Cell>)
    ensures Filled(b) == |b| <==> forall i :: 0 <= i < |b| ==> b[i] != Blank
    decreases |b|
  {
    if b != [] {
      FullBoard(b[..|b| - 1]);
      if Filled(b) == |b| {
        forall i | 0 <= i < |b| ensures b[i] != Blank {
          if i < |b| - 1 {
            assert b[..|b| - 1][i] == b[i];
          }
        }
      }
      if forall i :: 0 <= i < |b| ==> b[i] != Blank {
        var front := b[..|b| - 1];
        forall i | 0 <= i < |front| ensures front[i] != Blank {
          assert front[i] == b[i];
        }
      }
    }
  }

  lemma {:induction false} AllBlank(b: seq<Cell>)
    requires forall i :: 0 <= i < |b| ==> b[i] == Blank
    ensures Filled(b) == 0 && Count(b, Mark(X)) == 0 && Count(b, Mark(O)) == 0
    decreases |b|
  {
    if b != [] {
      AllBlank(b[..|b| - 1]);
    }
  }

  /**
   * The heart of the rules: if there was no line before p marked an empty tile,
   * then any line after the move is p's, and none is the other player's.
   */
  lemma LastMoverOwnsLine(b: seq<Cell>, i: nat, p: Player)
    requires |b| == Cells && i < Cells && b[i] == Blank && !HasLine(b)
    ensures HasLine(b[i := Mark(p)]) <==> LineOf(b[i := Mark(p)], p)
    ensures !LineOf(b[i := Mark(p)], Other(p))
  {
    MoveCompletes(b, i, p, 0, 1, 2);
    MoveCompletes(b, i, p, 3, 4, 5);
    MoveCompletes(b, i, p, 6, 7, 8);
    MoveCompletes(b, i, p, 0, 3, 6);
    MoveCompletes(b, i, p, 1, 4, 7);
    MoveCompletes(b, i, p, 2, 5, 8);
    MoveCompletes(b, i, p, 0, 4, 8);
    MoveCompletes(b, i, p, 2, 4, 6);
  }

  /** A line the move completes passes through the tile just marked, so it shows the mover's mark. */
  lemma MoveCompletes(b: seq<Cell>, i: nat, p: Player, x: nat, y: nat, z: nat)
    requires |b| == Cells && i < Cells && x < Cells && y < Cells && z < Cells && !Line(b, x, y, z)
    ensures Line(b[i := Mark(p)], x, y, z) ==> b[i := Mark(p)][x] == Mark(p)
  {
  }

  class TicTacToeGame {
    const core: GameCore
    /** Tile (r, c) is board[3 * r + c]. */
    const board: array<Cell>
    var score: int
    var winsX: nat
    var winsO: nat
    var ties: nat
    var currentPlayer: Player
    var gameOver: bool
    var turns: nat

    ghost function Repr(): (objects: set<object>) {
      {this, core, board}
    }

    /**
     * The move count is the number of marks; X has moved as often as O when it
     * is X's turn and once more when it is O's; a running game has no line and
     * a free tile, and a finished one is not running. This game never reports a
     * score through `notifyScoreUpdated`, so its events all carry score 0.
     */
    ghost predicate Valid()
      reads this, core, board
    {
      Consistent()
      && (core.isRunning ==>
            !HasLine(board[..]) && turns < Cells
            && Count(board[..], Mark(X)) == Count(board[..], Mark(O)) + (if currentPlayer == X then 0 else 1))
    }

    /** What holds at every step, also between a move and the verdict on it. */
    ghost predicate Consistent()
      reads this, core, board
    {
      board.Length == Cells && core.Valid() && core.gameName == Name && core.currentScore == 0
      && turns == Filled(board[..])
      && (gameOver ==> !core.isRunning)
    }

    /** The single instance: an empty board, X to move, no tallies, not running. */
    constructor ()
      ensures Valid() && fresh(core) && fresh(board)
      ensures forall i :: 0 <= i < board.Length ==> board[i] == Blank
      ensures currentPlayer == X && turns == 0 && !gameOver && score == 0
      ensures winsX == 0 && winsO == 0 && ties == 0
      ensures !core.isRunning && core.listeners == [] && core.delivered == []
    {
      core := new GameCore(Name);
      board := new Cell[Cells](_ => Blank);
      score := 0;
      winsX, winsO, ties := 0, 0, 0;
      currentPlayer := X;
      gameOver := false;
      turns := 0;
      new;
      AllBlank(board[..]);
    }

    /**
     * `resetGame`: X to move, no moves, not over, score 0, every tile empty; the
     * tallies and the running flag are kept.
     */
    method ResetGame()
      requires Valid()
      modifies this, board
      ensures Valid()
      ensures forall i :: 0 <= i < board.Length ==> board[i] == Blank
      ensures currentPlayer == X && turns == 0 && !gameOver && score == 0
      ensures winsX == old(winsX) && winsO == old(winsO) && ties == old(ties)
    {
      for i := 0 to Cells
        invariant forall j :: 0 <= j < i ==> board[j] == Blank
        invariant winsX == old(winsX) && winsO == old(winsO) && ties == old(ties)
      {
        board[i] := Blank;
      }
      currentPlayer := X;
      gameOver := false;
      turns := 0;
      score := 0;
      AllBlank(board[..]);
    }

    /** `startGame`: only when not running, reset, run and announce GAME_STARTED. */
    method StartGame()
      requires Valid()
      modifies this, board, core
      ensures Valid()
      ensures core.listeners == old(core.listeners)
      ensures old(core.isRunning) ==> unchanged(this, board, core)
      ensures !old(core.isRunning) ==>
        core.isRunning && currentPlayer == X && turns == 0 && !gameOver && score == 0
        && (forall i :: 0 <= i < board.Length ==> board[i] == Blank)
        && winsX == old(winsX) && winsO == old(winsO) && ties == old(ties)
        && fresh(core.lastEvent) && core.Announced(old(core.delivered), OnGameStateChanged, GameStarted, 0)
    {
      if !core.isRunning {
        ResetGame();
        core.isRunning := true;
        AllBlank(board[..]);
        core.NotifyGameStateChanged(GameStarted);
      }
    }

    /** `pauseGame`: announces GAME_PAUSED when running and changes nothing else. */
    method PauseGame()
      requires Valid()
      modifies core
      ensures Valid()
      ensures core.listeners == old(core.listeners) && core.isRunning == old(core.isRunning)
      ensures !old(core.isRunning) ==> unchanged(core)
      ensures old(core.isRunning) ==>
        fresh(core.lastEvent) && core.Announced(old(core.delivered), OnGameStateChanged, GamePaused, 0)
    {
      if core.isRunning {
        core.NotifyGameStateChanged(GamePaused);
      }
    }

    /**
     * `restartGame`: a reset, then a start when not running; either way the game
     * ends up running on an empty board with X to move.
     */
    method RestartGame()
      requires Valid()
      modifies this, board, core
      ensures Valid() && core.isRunning
      ensures core.listeners == old(core.listeners)
      ensures currentPlayer == X && turns == 0 && !gameOver && score == 0
      ensures forall i :: 0 <= i < board.Length ==> board[i] == Blank
      ensures winsX == old(winsX) && winsO == old(winsO) && ties == old(ties)
      ensures old(core.isRunning) ==> core.delivered == old(core.delivered)
      ensures !old(core.isRunning) ==>
        fresh(core.lastEvent) && core.Announced(old(core.delivered), OnGameStateChanged, GameStarted, 0)
    {
      ResetGame();
      if !core.isRunning {
        StartGame();
      } else {
        AllBlank(board[..]);
      }
    }

    /** `stopGame`: not running, not over, and GAME_FINISHED announced as a state change. */
    method StopGame()
      requires Valid()
      modifies this, core
      ensures Valid() && !core.isRunning && !gameOver
      ensures core.listeners == old(core.listeners)
      ensures currentPlayer == old(currentPlayer) && turns == old(turns) && score == old(score)
      ensures winsX == old(winsX) && winsO == old(winsO) && ties == old(ties)
      ensures fresh(core.lastEvent) && core.Announced(old(core.delivered), OnGameStateChanged, EventType.GameFinished, 0)
    {
      core.isRunning := false;
      gameOver := false;
      core.NotifyGameStateChanged(EventType.GameFinished);
    }

    /**
     * `gameFinished`: over and stopped; a win adds one to the winner's tally and
     * scores 100 plus ten per win so far, a tie adds one to the ties and scores
     * 50 plus five per tie; the score goes out as GAME_FINISHED.
     */
    method GameFinished(result: Outcome)
      requires Consistent()
      modifies this, core
      ensures Valid() && gameOver && !core.isRunning
      ensures core.listeners == old(core.listeners) && currentPlayer == old(currentPlayer) && turns == old(turns)
      ensures result == Win(X) ==> winsX == old(winsX) + 1 && winsO == old(winsO) && ties == old(ties) && score == 100 + winsX * 10
      ensures result == Win(O) ==> winsO == old(winsO) + 1 && winsX == old(winsX) && ties == old(ties) && score == 100 + winsO * 10
      ensures result == Tie ==> ties == old(ties) + 1 && winsX == old(winsX) && winsO == old(winsO) && score == 50 + ties * 5
      ensures fresh(core.lastEvent) && core.Announced(old(core.delivered), OnGameFinished, EventType.GameFinished, score)
    {
      gameOver := true;
      core.isRunning := false;
      match result {
        case Win(X) =>
          winsX := winsX + 1;
          score := 100 + winsX * 10;
        case Win(O) =>
          winsO := winsO + 1;
          score := 100 + winsO * 10;
        case Tie =>
          ties := ties + 1;
          score := 50 + ties * 5;
      }
      core.NotifyGameFinished(score);
    }

    /** Looks for a complete row, then column, then diagonal, as `checkWinner` does. */
    method FindLine() returns (found: bool)
      requires board.Length == Cells
      ensures found <==> HasLine(board[..])
    {
      for r := 0 to Size
        invariant forall r' :: 0 <= r' < r ==> !RowLine(board[..], r')
      {
        if board[3 * r] != Blank && board[3 * r] == board[3 * r + 1] && board[3 * r + 1] == board[3 * r + 2] {
          return true;
        }
      }
      for c := 0 to Size
        invariant forall r' :: 0 <= r' < Size ==> !RowLine(board[..], r')
        invariant forall c' :: 0 <= c' < c ==> !ColumnLine(board[..], c')
      {
        if board[c] != Blank && board[c] == board[c + 3] && board[c + 3] == board[c + 6] {
          return true;
        }
      }
      if board[0] != Blank && board[0] == board[4] && board[4] == board[8] {
        return true;
      }
      if board[2] != Blank && board[2] == board[4] && board[4] == board[6] {
        return true;
      }
      return false;
    }

    /**
     * `checkWinner`, run after every move: a line finishes the game with the
     * player who just moved as winner, a full board is a tie, and otherwise the
     * other player is to move.
     */
    method CheckWinner()
      requires Consistent() && core.isRunning && !gameOver
      requires Count(board[..], Mark(X)) == Count(board[..], Mark(O)) + (if currentPlayer == X then 1 else 0)
      modifies this, core
      ensures Valid()
      ensures core.listeners == old(core.listeners) && turns == old(turns)
      ensures HasLine(board[..]) ==>
        gameOver && !core.isRunning && currentPlayer == old(currentPlayer) && ties == old(ties)
        && (currentPlayer == X ==> winsX == old(winsX) + 1 && winsO == old(winsO) && score == 100 + winsX * 10)
        && (currentPlayer == O ==> winsO == old(winsO) + 1 && winsX == old(winsX) && score == 100 + winsO * 10)
        && fresh(core.lastEvent) && core.Announced(old(core.delivered), OnGameFinished, EventType.GameFinished, score)
      ensures !HasLine(board[..]) && turns == Cells ==>
        gameOver && !core.isRunning && currentPlayer == old(currentPlayer)
        && ties == old(ties) + 1 && winsX == old(winsX) && winsO == old(winsO) && score == 50 + ties * 5
        && fresh(core.lastEvent) && core.Announced(old(core.delivered), OnGameFinished, EventType.GameFinished, score)
      ensures !HasLine(board[..]) && turns < Cells ==> unchanged(core) && currentPlayer == Other(old(currentPlayer))
      ensures !HasLine(board[..]) && turns < Cells ==>
        gameOver == old(gameOver) && score == old(score) && winsX == old(winsX) && winsO == old(winsO) && ties == old(ties)
    {
      var found := FindLine();
      if found {
        GameFinished(Win(currentPlayer));
        return;
      }
      if turns == Cells {
        GameFinished(Tie);
        return;
      }
      currentPlayer := Other(currentPlayer);
    }

    /**
     * A click on tile i: ignored when the game is over or not running or the
     * tile is taken; otherwise the current player's mark goes there, the move
     * is counted and `checkWinner` decides what follows.
     */
    method Click(i: nat)
      requires Valid() && i < Cells
      modifies this, board, core
      ensures Valid()
      ensures core.listeners == old(core.listeners)
      ensures old(gameOver) || !old(core.isRunning) || old(board[i]) != Blank ==>
        unchanged(this, board, core)
      ensures !old(gameOver) && old(core.isRunning) && old(board[i]) == Blank ==>
        var moved := old(board[..])[i := Mark(old(currentPlayer))];
        board[..] == moved && turns == old(turns) + 1
        && (HasLine(moved) ==>
              LineOf(moved, old(currentPlayer)) && gameOver && !core.isRunning
              && currentPlayer == old(currentPlayer) && ties == old(ties)
              && (old(currentPlayer) == X ==> winsX == old(winsX) + 1 && winsO == old(winsO) && score == 100 + winsX * 10)
              && (old(currentPlayer) == O ==> winsO == old(winsO) + 1 && winsX == old(winsX) && score == 100 + winsO * 10)
              && core.Announced(old(core.delivered), OnGameFinished, EventType.GameFinished, score))
        && (!HasLine(moved) && turns == Cells ==>
              gameOver && !core.isRunning && currentPlayer == old(currentPlayer)
              && ties == old(ties) + 1 && winsX == old(winsX) && winsO == old(winsO) && score == 50 + ties * 5
              && core.Announced(old(core.delivered), OnGameFinished, EventType.GameFinished, score))
        && (!HasLine(moved) && turns < Cells ==>
              core.isRunning && !gameOver && currentPlayer == Other(old(currentPlayer)) && core.delivered == old(core.delivered)
              && score == old(score) && winsX == old(winsX) && winsO == old(winsO) && ties == old(ties))
    {
      if gameOver || !core.isRunning {
        return;
      }
      if board[i] == Blank {
        ghost var before := board[..];
        PlaceCounts(before, i, Mark(currentPlayer), Mark(X));
        PlaceCounts(before, i, Mark(currentPlayer), Mark(O));
        LastMoverOwnsLine(before, i, currentPlayer);
        board[i] := Mark(currentPlayer);
        turns := turns + 1;
        assert board[..] == before[i := Mark(currentPlayer)];
        CheckWinner();
      }
    }

    function IsGameRunning(): (running: bool)
      reads core
    {
      core.isRunning
    }
  }
}
