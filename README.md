# Tic-tac-toe game state machine

A Dafny model of the game logic of `TicTacToeApp` in `main.py`, a two-player
tic-tac-toe window. It covers the game state (the nine-cell board, the player
to move, the `game_over` and `animating` flags, the confetti and the status
line), the click handler with its cell hit test, placing a mark, the stroke
animation as a step counter, the win/draw evaluation after a move, and the
reset to a new round.

Modules, one per concern:

- `Geometry` (`geometry.dfy`): the layout constants, the nine cell rectangles
  built when the grid is drawn, the "New Game" button rectangle, the scan
  that finds the clicked cell, and `CellAt`, a reference definition of that
  scan by division.
- `Rules` (`rules.dfy`): players, cells, the table of eight lines in checking
  order (rows, columns, diagonals) and the win check.
- `Animation` (`animation.dfy`): one call of the X or O stroke animation as a
  `Frame` with a step counter; X runs steps 0 to 10, O runs steps 0 to 16.
- `App` (`app.dfy`): the class `TicTacToeApp` whose methods update its fields
  as the source does.
- `Scenarios` (`scenarios.dfy`): whole games played through `OnClick` and the
  event loop.

Timer callbacks (`root.after`) are modelled as the field `pending`, the queue
of scheduled animation calls. All of them use the same 10 ms delay, so they
fire in the order they were scheduled; `RunNextFrame` is the event loop firing
the earliest one. A reset leaves `pending` alone, as the source does: nothing
cancels a scheduled call. Interleaving of clicks and timer calls is left to
the caller, who picks which method runs next.

What the model shows about the code as written:

- A click on the "New Game" label resets the game at any time (the label's
  own binding, `ClickResetLabel`). For a click on the canvas off the label:
  while the round is over or a mark is being drawn, it changes nothing
  except inside the "New Game" button, where it resets; otherwise only a
  click on an empty cell does anything. It writes the current player's mark
  to that one cell and starts the animation.
- Rectangles are built row-major, so cell `3r + c` is at row `r`, column `c`.
  They are pairwise disjoint, so the scan selects at most one cell.
- An animation clears `animating` and evaluates the board exactly once, at
  its last step.
- After a move, a complete line wins before a full board counts as a draw.
  On a win or a draw the player is not flipped. In a game played move by
  move from a board without a line, the winner announced is the player who
  moved, who is still the current player (`Scenarios.Move`).
- The "New Game" button rectangle (x 200..340, y 560..600) covers the bottom
  two pixel rows of cell 7's tile (x 201..338, y 424..561): see
  `ResetRectOverlap` and `ClickOnButtonStrip`. In a round in progress, a click
  on that strip places a mark in cell 7.
- A reset during an animation does not stop the animation. When its last call
  runs, it evaluates the fresh board and flips the turn, so the new round
  starts with O to move (`ResetDuringAnimation`). After such a reset a second
  animation can also run alongside the first, which is why `SingleFlight`
  holds only as long as no reset happens mid-animation.

The code has no epoch counter, and a reset cancels nothing; the model follows
it. The canvas handler resets only while the round is over or animating; the
label's own binding (`main.py:123`) resets at any time, which
`ClickResetLabel` models.

## Model

| member | source | states |
|---|---|---|
| `Geometry.DrawBoardGrid` | main.py:92-105 | builds nine rectangles, listed so that entry `i` is the tile of row `i / 3`, column `i % 3` with the source's corner arithmetic |
| `Geometry.RowMajor` | main.py:97-105 | the rectangle of row `r`, column `c` is entry `3r + c` |
| `Geometry.CellAtCorrect` | main.py:97-105 | a point lies in the tile of cell `i` exactly when the division-based `CellAt` names `i` |
| `Geometry.CellsDisjoint` | main.py:97-105 | cell rectangles are pairwise disjoint |
| `Geometry.ResetRectOverlap` | main.py:132-133 | a point of the reset rectangle lies in a cell only on the strip x 201..338, y 560..561, and that cell is cell 7 |
| `Geometry.ResetRectMeetsCell7` | main.py:132-133 | the point (270, 560) lies both in the reset rectangle and in cell 7 |
| `Geometry.HitTest` | main.py:138-139 | returns the first rectangle, in list order, that contains the click, and returns None exactly when none does |
| `Geometry.HitTestAgreesWithCellAt` | main.py:138-142 | on the grid's rectangles the scan's answer is `CellAt`, so at most one index is ever selected |
| `Rules.Other` | main.py:239 | the turn flip gives the other player |
| `Rules.CheckWin` | main.py:242-251 | returns None exactly when no line of the table is complete; otherwise returns the mark and triple of the first complete line in table order |
| `Rules.FirstCompleteUnique` | main.py:248-250 | only one line is the first complete line, so the win check's answer is determined |
| `Rules.WinnerOf` | main.py:248-250 | when line `k` is the first complete line, the only possible answer is line `k` with its mark |
| `Rules.EmptyBoardUndecided` | main.py:58 | the initial board has nine cells, no complete line and is not full |
| `Rules.MoveCompletesOwnLines` | main.py:227-233 | on a board with no complete line, a mark written into an empty cell completes only lines through that cell and of that mark, so the winner found is the player who moved |
| `Rules.MoverWins` | main.py:227-231 | on a board with no complete line, the first win after a mark is written into an empty cell is a win of that mark |
| `Animation.StartChain` | main.py:152-154 | the animation a move starts is the call at step 0 followed by the chain from step 1 |
| `Animation.RunShape` | main.py:190-198 | from a step in range, the chain of calls runs every later step once in increasing order; only its last call finishes |
| `Animation.MoveAnimation` | main.py:157-223 | an animation started at step 0 makes `MaxSteps + 1` calls (11 for X, 17 for O); it finishes exactly once, at step `MaxSteps` |
| `App.TicTacToeApp.constructor` | main.py:45-74 | a new window starts with an empty board, X to move, both flags clear, no confetti, "Player X's turn" and nothing scheduled |
| `App.TicTacToeApp.OnClick` | main.py:128-142 | while over or animating: a click in the button resets, any other click changes nothing; otherwise a click on the empty cell `CellAt` names writes the player's mark there only, sets `animating` and schedules step 1, and any other click changes nothing; filled cells never change except by reset; single flight is kept unless a reset interrupts an animation |
| `App.TicTacToeApp.PlaceSymbol` | main.py:144-154 | writes the mark into exactly that cell, sets `animating` and schedules step 1 of the mark's animation |
| `App.TicTacToeApp.AnimateFrame` | main.py:157-223 | before the last step, schedules the next step and changes nothing else; at the last step, clears `animating` and evaluates the move |
| `App.TicTacToeApp.RunNextFrame` | main.py:190-198 | fires the earliest scheduled call, with the effect of `AnimateFrame`, and keeps single flight |
| `App.TicTacToeApp.AfterMove` | main.py:225-240 | a complete line ends the round with the first line's mark in the status and 40 confetti, the player unchanged; else a full board ends it as a draw, the player unchanged; else the player flips and `game_over` is unchanged |
| `App.TicTacToeApp.ResetGame` | main.py:292-303 | always gives nine empty cells, X to move, both flags clear, no confetti and "Player X's turn"; scheduled calls stay |
| `App.TicTacToeApp.ClickResetLabel` | main.py:122-123 | a click on the label gives a fresh round; if the click point also lies on a cell, X's mark is placed in that cell |
| `Scenarios.RunAnimation` | main.py:190-198 | firing the one pending call until none is left runs exactly the chain `Run` of that call, with one completion, and leaves the move evaluated |
| `Scenarios.Move` | main.py:128-240 | a click on an empty cell of an undecided round, followed by the animation: the whole animation is `Run` from step 0, with `MaxSteps` calls after the click; on a win the status names the player who moved and that player is still to move |
| `Scenarios.DiagonalWin` | main.py:225-233 | X at 0, O at 1, X at 4, O at 2, X at 8 ends with X winning on line (0, 4, 8) |
| `Scenarios.DrawnGame` | main.py:234-237 | X0 O1 X2 O4 X3 O5 X7 O6 X8 ends in a draw with X still named as player |
| `Scenarios.ClickDuringAnimation` | main.py:129-135 | a click on cell 0 while X is drawn in cell 1 leaves cell 0 empty |
| `Scenarios.ResetDuringAnimation` | main.py:292-303 | a reset during X's animation leaves the call scheduled; when it ends, the empty new board has O to move |
| `Scenarios.ClickOnButtonStrip` | main.py:132-142 | in a round in progress, a click at (270, 560) on the button strip places X in cell 7 |

## Left out

- Drawing on the canvas: the background gradient, the title, the grid lines, the tiles' random colours, the glyphs and the winning-line glow. These are rendering calls on Tkinter. The status line's text is kept.
- `blend` and `rgb_to_hex`: colour formatting with floating-point interpolation.
- The stroke geometry of the animations: the interpolated end points, the jitter and the arc extent are floating point. Only the step counter is kept. The canvas ids of the partial strokes are not modelled.
- Confetti: only the particle count is modelled (40 on a win, none after a reset). Positions, velocities, gravity, random start values and the 30 ms confetti timer have no effect on the game state.
- `winning_line`: the field is set to None at start and never changed, so it is not modelled.
- Timer delays: a scheduled call is an entry of `pending`, fired by `RunNextFrame`. Wall-clock time, and the interleaving of clicks between timer calls, are the caller's choice.
- The extent of the "New Game" label depends on the font. `ClickResetLabel` therefore accepts any click position and does not assume the label lies inside the button rectangle.
- Click coordinates are integers, as the event toolkit delivers them.
