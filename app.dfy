/**
 * The game object: the board, the player to move, the end-of-round and
 * animation flags, the confetti on screen, the status line, the cell
 * rectangles, and the animation calls scheduled on the event loop.
 */
module App {
  import opened Wrappers
  import opened Geometry
  import opened Rules
  import opened Animation

  /** Number of confetti particles spawned on a win (main.py:25). */
  const ConfettiCount: nat := 40

  function PlayerName(p: Player): string {
    if p == X then "X" else "O"
  }

  /** The status line while player p is to move. */
  function TurnText(p: Player): string {
    "Player " + PlayerName(p) + "'s turn"
  }

  /** The status line once player p has won. */
  function WinText(p: Player): string {
    "Player " + PlayerName(p) + " wins!"
  }

  /** The status line of a drawn round. */
  const DrawText: string := "It's a draw!"

  class TicTacToeApp {
    var board: seq<Cell>
    var player: Player
    var gameOver: bool
    var animating: bool
    /** The number of confetti particles on screen; their motion is not modelled. */
    var confetti: nat
    /** The text of the status line under the title. */
    var status: string
    /** The cell rectangles, in row-major order, rebuilt whenever the grid is drawn. */
    var cellsCoords: seq<Rect>
    /**
     * The animation calls scheduled on the event loop, in the order they
     * fire. All use the same delay, so they fire first in, first out; a
     * reset does not remove them.
     */
    var pending: seq<Frame>

    /** The board has nine cells and the rectangles are those the grid draws. */
    ghost predicate Layout()
      reads this
    {
      |board| == 9 && |cellsCoords| == 9 &&
      forall i :: 0 <= i < 9 ==> cellsCoords[i] == CellRect(i)
    }

    /** Every scheduled call is for a board cell and a step after the first. */
    ghost predicate FramesInRange()
      reads this
    {
      forall k :: 0 <= k < |pending| ==>
        0 <= pending[k].idx < 9 && 1 <= pending[k].step <= MaxSteps(pending[k].mark)
    }

    /** The object invariant: while the flag is set, some animation call is pending. */
    ghost predicate Valid()
      reads this
    {
      Layout() && FramesInRange() && (animating ==> pending != [])
    }

    /** The state of a new round. */
    ghost predicate Fresh()
      reads this
    {
      board == EmptyBoard && player == X && !gameOver && !animating &&
      confetti == 0 && status == TurnText(X)
    }

    /**
     * At most one animation is in flight, and the flag says whether one is.
     * Only a reset during an animation breaks this.
     */
    ghost predicate SingleFlight()
      reads this
    {
      |pending| <= 1 && (animating <==> pending != [])
    }

    /**
     * The outcome of evaluating the board after a move, given the player,
     * the end-of-round flag and the confetti count before it: a complete line
     * ends the round with the first line's mark as winner and the player
     * unchanged; otherwise a full board ends it as a draw; otherwise the turn
     * passes to the other player.
     */
    ghost predicate Judged(p0: Player, over0: bool, confetti0: nat)
      reads this
      requires |board| == 9
    {
      (HasLine(board) ==>
        gameOver && player == p0 && confetti == ConfettiCount &&
        exists w :: IsFirstWin(board, w) && status == WinText(w.winner)) &&
      (!HasLine(board) && Full(board) ==>
        gameOver && player == p0 && confetti == confetti0 && status == DrawText) &&
      (!HasLine(board) && !Full(board) ==>
        gameOver == over0 && player == Other(p0) && confetti == confetti0 && status == TurnText(player))
    }

    constructor ()
      ensures Valid() && Fresh() && pending == []
    {
      var cells := DrawBoardGrid();
      board := EmptyBoard;
      player := X;
      gameOver := false;
      animating := false;
      confetti := 0;
      status := TurnText(X);
      cellsCoords := cells;
      pending := [];
    }

    /**
     * A click on the canvas. While the round is over or a mark is being
     * drawn, only a click inside the "New Game" button does anything: it
     * resets. Otherwise a click on an empty cell places the current player's
     * mark there, and any other click is ignored.
     */
    method OnClick(x: int, y: int)
      requires Valid()
      modifies this
      ensures Valid()
      ensures old(gameOver || animating) && Inside(ResetRect, x, y) ==>
        Fresh() && pending == old(pending) && cellsCoords == old(cellsCoords)
      ensures old(gameOver || animating) && !Inside(ResetRect, x, y) ==> unchanged(this)
      ensures !old(gameOver || animating) && CellAt(x, y).Some? && old(board[CellAt(x, y).value]) == Empty ==>
        board == old(board)[CellAt(x, y).value := Mark(old(player))] && animating &&
        pending == old(pending) + [Frame(old(player), CellAt(x, y).value, 1)] &&
        player == old(player) && gameOver == old(gameOver) && confetti == old(confetti) &&
        status == old(status) && cellsCoords == old(cellsCoords)
      ensures !old(gameOver || animating) && !(CellAt(x, y).Some? && old(board[CellAt(x, y).value]) == Empty) ==>
        unchanged(this)
      ensures !(old(gameOver || animating) && Inside(ResetRect, x, y)) ==>
        forall i :: 0 <= i < 9 && old(board[i]) != Empty ==> board[i] == old(board[i])
      ensures old(SingleFlight()) && !(old(animating) && Inside(ResetRect, x, y)) ==> SingleFlight()
    {
      if gameOver || animating {
        var bx1, by1, bx2, by2 := WindowW / 2 - 70, WindowH - 80, WindowW / 2 + 70, WindowH - 40;
        if bx1 <= x <= bx2 && by1 <= y <= by2 {
          ResetGame();
        }
        return;
      }
      var hit := HitTest(cellsCoords, x, y);
      HitTestAgreesWithCellAt(cellsCoords, x, y, hit);
      if hit.Some? {
        if board[hit.value] == Empty {
          PlaceSymbol(hit.value, player);
        }
      }
    }

    /** Writes p's mark into cell idx and starts its animation at step 0. */
    method PlaceSymbol(idx: int, p: Player)
      requires Valid() && 0 <= idx < 9
      modifies this
      ensures Valid()
      ensures board == old(board)[idx := Mark(p)] && animating
      ensures pending == old(pending) + [Frame(p, idx, 1)]
      ensures player == old(player) && gameOver == old(gameOver) && confetti == old(confetti)
      ensures status == old(status) && cellsCoords == old(cellsCoords)
    {
      board := board[idx := Mark(p)];
      animating := true;
      AnimateFrame(Frame(p, idx, 0));
    }

    /**
     * One call of the stroke animation of f's mark: before the last step it
     * schedules the next step; at the last step it clears the animation flag
     * and evaluates the move.
     */
    method AnimateFrame(f: Frame)
      requires Layout() && FramesInRange()
      requires 0 <= f.idx < 9 && 0 <= f.step <= MaxSteps(f.mark)
      modifies this
      ensures Valid()
      ensures board == old(board) && cellsCoords == old(cellsCoords)
      ensures !IsFinal(f) ==>
        pending == old(pending) + [Next(f)] && animating == old(animating) &&
        player == old(player) && gameOver == old(gameOver) &&
        confetti == old(confetti) && status == old(status)
      ensures IsFinal(f) ==>
        pending == old(pending) && !animating && Judged(old(player), old(gameOver), old(confetti))
    {
      if f.step < MaxSteps(f.mark) {
        pending := pending + [Next(f)];
      } else {
        animating := false;
        AfterMove();
      }
    }

    /** The event loop fires the earliest scheduled animation call. */
    method RunNextFrame()
      requires Valid() && pending != []
      modifies this
      ensures Valid()
      ensures board == old(board) && cellsCoords == old(cellsCoords)
      ensures !IsFinal(old(pending[0])) ==>
        pending == old(pending[1..]) + [Next(old(pending[0]))] && animating == old(animating) &&
        player == old(player) && gameOver == old(gameOver) &&
        confetti == old(confetti) && status == old(status)
      ensures IsFinal(old(pending[0])) ==>
        pending == old(pending[1..]) && !animating && Judged(old(player), old(gameOver), old(confetti))
      ensures old(SingleFlight()) ==> SingleFlight()
    {
      var f := pending[0];
      pending := pending[1..];
      AnimateFrame(f);
    }

    /**
     * Evaluates the board once a mark is drawn: a win ends the round and
     * spawns the confetti, a full board ends it as a draw, and otherwise the
     * other player is to move.
     */
    method AfterMove()
      requires Valid()
      modifies this`player, this`gameOver, this`confetti, this`status
      ensures Valid()
      ensures Judged(old(player), old(gameOver), old(confetti))
    {
      var w := CheckWin(board);
      if w.Some? {
        gameOver := true;
        status := WinText(w.value.winner);
        confetti := ConfettiCount;
        return;
      }
      if Full(board) {
        gameOver := true;
        status := DrawText;
        return;
      }
      player := Other(player);
      status := TurnText(player);
    }

    /**
     * Starts a new round: empty board, X to move, both flags cleared, the
     * grid redrawn and the confetti dropped. Animation calls already
     * scheduled stay scheduled.
     */
    method ResetGame()
      requires Valid()
      modifies this
      ensures Valid() && Fresh()
      ensures pending == old(pending) && cellsCoords == old(cellsCoords)
    {
      board := EmptyBoard;
      player := X;
      gameOver := false;
      animating := false;
      status := TurnText(X);
      cellsCoords := DrawBoardGrid();
      confetti := 0;
    }

    /**
     * A click on the "New Game" label: the label's own binding resets the
     * game, then the canvas's click handler sees the same click on the fresh
     * round.
     */
    method ClickResetLabel(x: int, y: int)
      requires Valid()
      modifies this
      ensures Valid() && cellsCoords == old(cellsCoords)
      ensures CellAt(x, y).None? ==> Fresh() && pending == old(pending)
      ensures CellAt(x, y).Some? ==>
        board == EmptyBoard[CellAt(x, y).value := Mark(X)] && player == X &&
        !gameOver && animating && confetti == 0 && status == TurnText(X) &&
        pending == old(pending) + [Frame(X, CellAt(x, y).value, 1)]
    {
      ResetGame();
      OnClick(x, y);
    }
  }
}
