/**
 * Whole games played through the click handler and the event loop, from a
 * new window: a diagonal win, a drawn board, a click during an animation, and
 * a reset during an animation.
 */
module Scenarios {
  import opened Wrappers
  import opened Geometry
  import opened Rules
  import opened Animation
  import opened App

  /** The click position at the centre of the tile of cell i. */
  function Center(i: int): (p: (int, int))
    requires 0 <= i < 9
    ensures CellAt(p.0, p.1) == Some(i)
  {
    LayoutValues();
    var half := (CellSize - 2 * Inset) / 2;
    var p := (StartX + Inset + half + CellSize * (i % 3), StartY + Inset + half + CellSize * (i / 3));
    CellAtCorrect(p.0, p.1, i);
    p
  }

  /**
   * The event loop fires the pending animation call by call until none is
   * left, running the move evaluation once at the end. The calls fired are
   * exactly the chain Run of the pending call.
   */
  method RunAnimation(g: TicTacToeApp) returns (ghost fired: seq<Frame>)
    requires g.Valid() && |g.pending| == 1
    modifies g
    ensures g.Valid() && g.SingleFlight() && g.pending == [] && !g.animating
    ensures g.board == old(g.board) && g.cellsCoords == old(g.cellsCoords)
    ensures g.Judged(old(g.player), old(g.gameOver), old(g.confetti))
    ensures fired == Run(old(g.pending[0])) && Completions(fired) == 1
    ensures |fired| == MaxSteps(old(g.pending[0]).mark) - old(g.pending[0]).step + 1
  {
    ghost var f0 := g.pending[0];
    fired := [];
    while g.pending != []
      invariant g.Valid() && |g.pending| <= 1
      invariant g.board == old(g.board) && g.cellsCoords == old(g.cellsCoords)
      invariant g.pending != [] ==>
        g.player == old(g.player) && g.gameOver == old(g.gameOver) && g.confetti == old(g.confetti)
      invariant g.pending == [] ==> g.Judged(old(g.player), old(g.gameOver), old(g.confetti))
      invariant g.pending != [] ==> fired + Run(g.pending[0]) == Run(f0)
      invariant g.pending == [] ==> fired == Run(f0)
      decreases if g.pending == [] then 0 else MaxSteps(g.pending[0].mark) - g.pending[0].step + 1
    {
      ghost var f := g.pending[0];
      ghost var before := fired;
      g.RunNextFrame();
      fired := fired + [f];
      if !IsFinal(f) {
        assert Run(f) == [f] + Run(Next(f));
        assert fired + Run(Next(f)) == before + Run(f);
      }
    }
    RunShape(f0);
  }

  /**
   * The current player clicks the centre of cell i and the animation runs to
   * its end. Step 0 runs inside the click, the event loop fires the rest: the
   * whole animation is the chain Run from step 0. On a board without a line
   * before the move, a win after it is announced for the player who moved,
   * and that player stays the current player.
   */
  method Move(g: TicTacToeApp, i: int) returns (ghost fired: seq<Frame>)
    requires g.Valid() && g.SingleFlight() && !g.gameOver && !g.animating
    requires 0 <= i < 9 && g.board[i] == Empty && !HasLine(g.board)
    modifies g
    ensures g.Valid() && g.SingleFlight() && !g.animating
    ensures g.board == old(g.board)[i := Mark(old(g.player))]
    ensures g.Judged(old(g.player), old(g.gameOver), old(g.confetti))
    ensures HasLine(g.board) ==> g.status == WinText(old(g.player)) && g.player == old(g.player)
    ensures [Frame(old(g.player), i, 0)] + fired == Run(Frame(old(g.player), i, 0))
    ensures |fired| == MaxSteps(old(g.player))
  {
    ghost var b0, p0 := g.board, g.player;
    var p := Center(i);
    g.OnClick(p.0, p.1);
    fired := RunAnimation(g);
    StartChain(p0, i);
    if HasLine(g.board) {
      var w :| IsFirstWin(g.board, w) && g.status == WinText(w.winner);
      MoverWins(b0, i, p0, w);
    }
  }

  /** A move that leaves the board undecided passes the turn. */
  method Turn(g: TicTacToeApp, i: int)
    requires g.Valid() && g.SingleFlight() && !g.gameOver && !g.animating
    requires 0 <= i < 9 && g.board[i] == Empty && !HasLine(g.board)
    requires !HasLine(g.board[i := Mark(g.player)]) && !Full(g.board[i := Mark(g.player)])
    modifies g
    ensures g.Valid() && g.SingleFlight() && !g.animating && !g.gameOver
    ensures g.board == old(g.board)[i := Mark(old(g.player))] && g.player == Other(old(g.player))
    ensures g.confetti == old(g.confetti)
  {
    ghost var fired := Move(g, i);
  }

  /** X at 0, O at 1, X at 4, O at 2, X at 8: X wins on the diagonal 0-4-8. */
  method DiagonalWin() returns (g: TicTacToeApp)
    ensures g.Valid() && g.gameOver && !g.animating && g.player == X
    ensures g.status == "Player X wins!" && g.confetti == ConfettiCount
    ensures IsFirstWin(g.board, Win(X, Line(0, 4, 8)))
  {
    g := new TicTacToeApp();
    ghost var b1 := EmptyBoard[0 := Mark(X)];
    ghost var b2 := b1[1 := Mark(O)];
    ghost var b3 := b2[4 := Mark(X)];
    ghost var b4 := b3[2 := Mark(O)];
    ghost var b5 := b4[8 := Mark(X)];
    assert !HasLine(b1) && b1[5] == Empty;
    assert !HasLine(b2) && b2[5] == Empty;
    assert !HasLine(b3) && b3[5] == Empty;
    assert !HasLine(b4) && b4[5] == Empty;
    assert FirstComplete(b5, 6);
    WinnerOf(b5, 6);
    EmptyBoardUndecided();
    Turn(g, 0);
    Turn(g, 1);
    Turn(g, 4);
    Turn(g, 2);
    ghost var fired := Move(g, 8);
    assert g.board == b5;
  }


  /**
   * X at 0, O at 1, X at 2, O at 4, X at 3, O at 5, X at 7, O at 6, X at 8
   * fills the board without a line: a draw, with X (who moved last) still
   * named as the player.
   */
  method DrawnGame() returns (g: TicTacToeApp)
    ensures g.Valid() && g.gameOver && !g.animating && g.player == X
    ensures g.status == DrawText && g.confetti == 0 && Full(g.board)
  {
    g := new TicTacToeApp();
    ghost var b1 := EmptyBoard[0 := Mark(X)];
    ghost var b2 := b1[1 := Mark(O)];
    ghost var b3 := b2[2 := Mark(X)];
    ghost var b4 := b3[4 := Mark(O)];
    ghost var b5 := b4[3 := Mark(X)];
    ghost var b6 := b5[5 := Mark(O)];
    ghost var b7 := b6[7 := Mark(X)];
    ghost var b8 := b7[6 := Mark(O)];
    ghost var b9 := b8[8 := Mark(X)];
    assert !HasLine(b1) && b1[8] == Empty;
    assert !HasLine(b2) && b2[8] == Empty;
    assert !HasLine(b3) && b3[8] == Empty;
    assert !HasLine(b4) && b4[8] == Empty;
    assert !HasLine(b5) && b5[8] == Empty;
    assert !HasLine(b6) && b6[8] == Empty;
    assert !HasLine(b7) && b7[8] == Empty;
    assert !HasLine(b8) && b8[8] == Empty;
    assert !HasLine(b9) && Full(b9);
    EmptyBoardUndecided();
    Turn(g, 0);
    Turn(g, 1);
    Turn(g, 2);
    Turn(g, 4);
    Turn(g, 3);
    Turn(g, 5);
    Turn(g, 7);
    Turn(g, 6);
    ghost var fired := Move(g, 8);
    assert g.board == b9;
  }

  /**
   * While X's mark is being drawn in cell 1, a click on cell 0 is dropped:
   * cell 0 stays empty, and once the animation ends it is O's turn.
   */
  method ClickDuringAnimation() returns (g: TicTacToeApp)
    ensures g.Valid() && !g.gameOver && !g.animating && g.player == O
    ensures g.board == EmptyBoard[1 := Mark(X)]
  {
    g := new TicTacToeApp();
    var p1 := Center(1);
    g.OnClick(p1.0, p1.1);
    assert g.animating;
    var p0 := Center(0);
    g.OnClick(p0.0, p0.1);
    assert g.board[0] == Empty;
    ghost var b := EmptyBoard[1 := Mark(X)];
    assert !HasLine(b) && b[0] == Empty;
    ghost var fired := RunAnimation(g);
  }

  /**
   * X clicks cell 0 and, while its mark is drawn, the "New Game" button is
   * clicked. The reset does not cancel the scheduled animation calls: when the
   * last of them runs it evaluates the new, empty board and passes the turn,
   * so the new round is O's to start although nobody has moved.
   */
  method ResetDuringAnimation() returns (g: TicTacToeApp)
    ensures g.Valid() && !g.gameOver && !g.animating && g.pending == []
    ensures g.board == EmptyBoard && g.player == O && g.status == TurnText(O)
  {
    g := new TicTacToeApp();
    var p := Center(0);
    g.OnClick(p.0, p.1);
    LayoutValues();
    g.OnClick(205, 595);
    assert g.Fresh() && |g.pending| == 1;
    EmptyBoardUndecided();
    ghost var fired := RunAnimation(g);
  }

  /**
   * The point (270, 560) is on the "New Game" button and on cell 7. In a
   * round in progress a click there places X in cell 7; once the round is
   * over the same click starts a new round.
   */
  method ClickOnButtonStrip() returns (g: TicTacToeApp)
    ensures g.Valid() && g.animating && g.board == EmptyBoard[7 := Mark(X)]
  {
    g := new TicTacToeApp();
    ResetRectMeetsCell7();
    CellAtCorrect(270, 560, 7);
    g.OnClick(270, 560);
  }
}
