/**
 * The rules of the game: marks, the nine-cell board, the fixed table of the
 * eight lines and the win check that scans it.
 */
module Rules {
  import opened Wrappers

  /** The two players; each writes its own mark ('X' or 'O'). */
  datatype Player = X | O

  /** A board cell: empty (Python's None) or holding a player's mark. */
  datatype Cell = Empty | Mark(player: Player)

  /** Three cell indices that form a row, a column or a diagonal. */
  datatype Line = Line(a: int, b: int, c: int)

  /** The answer of the win check: the winning mark and its line. */
  datatype Win = Win(winner: Player, line: Line)

  /** The eight lines in the order they are checked: rows, columns, diagonals. */
  const Lines: seq<Line> := [
    Line(0, 1, 2), Line(3, 4, 5), Line(6, 7, 8),
    Line(0, 3, 6), Line(1, 4, 7), Line(2, 5, 8),
    Line(0, 4, 8), Line(2, 4, 6)
  ]

  /** The board of a fresh game: nine empty cells. */
  const EmptyBoard: seq<Cell> := [Empty, Empty, Empty, Empty, Empty, Empty, Empty, Empty, Empty]

  /** The player who moves after p. */
  function Other(p: Player): (q: Player)
    ensures q != p
  {
    if p == X then O else X
  }

  /** Line k of the table holds three equal non-empty cells of board b. */
  predicate Complete(b: seq<Cell>, k: int)
    requires |b| == 9 && 0 <= k < |Lines|
  {
    var l := Lines[k];
    b[l.a] != Empty && b[l.a] == b[l.b] && b[l.b] == b[l.c]
  }

  /** Some line of the table is complete. */
  predicate HasLine(b: seq<Cell>)
    requires |b| == 9
  {
    exists k :: 0 <= k < |Lines| && Complete(b, k)
  }

  /** Line k is complete and no earlier line of the table is. */
  predicate FirstComplete(b: seq<Cell>, k: int)
    requires |b| == 9
  {
    0 <= k < |Lines| && Complete(b, k) && forall j :: 0 <= j < k ==> !Complete(b, j)
  }

  /** w names the mark and the line of the first complete line of b. */
  predicate IsFirstWin(b: seq<Cell>, w: Win)
    requires |b| == 9
  {
    exists k :: 0 <= k < |Lines| && FirstComplete(b, k) && w == Win(b[Lines[k].a].player, Lines[k])
  }

  /** Every cell holds a mark. */
  predicate Full(b: seq<Cell>) {
    forall i :: 0 <= i < |b| ==> b[i] != Empty
  }

  /**
   * The win check: scans the lines in table order and answers the mark and
   * the line of the first one whose three cells hold the same mark.
   */
  method CheckWin(board: seq<Cell>) returns (r: Option<Win>)
    requires |board| == 9
    ensures r.None? <==> !HasLine(board)
    ensures r.Some? ==> IsFirstWin(board, r.value)
  {
    var k := 0;
    while k < |Lines|
      invariant 0 <= k <= |Lines|
      invariant forall j :: 0 <= j < k ==> !Complete(board, j)
    {
      var line := Lines[k];
      if board[line.a] != Empty && board[line.a] == board[line.b] && board[line.b] == board[line.c] {
        assert FirstComplete(board, k);
        return Some(Win(board[line.a].player, line));
      }
      k := k + 1;
    }
    return None;
  }

  /** At most one index satisfies FirstComplete, so the win check's answer is determined. */
  lemma FirstCompleteUnique(b: seq<Cell>, k: int, j: int)
    requires |b| == 9 && FirstComplete(b, k) && FirstComplete(b, j)
    ensures k == j
  {
  }

  /** On a board where line k is the first complete one, every first win names its mark and line. */
  lemma WinnerOf(b: seq<Cell>, k: int)
    requires |b| == 9 && FirstComplete(b, k)
    ensures forall w :: IsFirstWin(b, w) ==> w == Win(b[Lines[k].a].player, Lines[k])
  {
    forall w | IsFirstWin(b, w)
      ensures w == Win(b[Lines[k].a].player, Lines[k])
    {
      var j :| 0 <= j < |Lines| && FirstComplete(b, j) && w == Win(b[Lines[j].a].player, Lines[j]);
      FirstCompleteUnique(b, j, k);
    }
  }

  /** The empty board has no complete line and is not full. */
  lemma EmptyBoardUndecided()
    ensures |EmptyBoard| == 9 && !HasLine(EmptyBoard) && !Full(EmptyBoard)
  {
    assert EmptyBoard[0] == Empty;
  }

  /**
   * Writing mark p into an empty cell of an undecided board completes only
   * lines through that cell, and only lines of p: a winner found right after a
   * move is the player who moved.
   */
  lemma MoveCompletesOwnLines(b: seq<Cell>, idx: int, p: Player, k: int)
    requires |b| == 9 && 0 <= idx < 9 && b[idx] == Empty && !HasLine(b)
    requires 0 <= k < |Lines| && Complete(b[idx := Mark(p)], k)
    ensures idx == Lines[k].a || idx == Lines[k].b || idx == Lines[k].c
    ensures b[idx := Mark(p)][Lines[k].a] == Mark(p)
  {
    assert !Complete(b, k);
  }

  /**
   * On a board with no complete line, the first win found after a mark is
   * written into an empty cell is a win of that mark.
   */
  lemma MoverWins(b: seq<Cell>, idx: int, p: Player, w: Win)
    requires |b| == 9 && 0 <= idx < 9 && b[idx] == Empty && !HasLine(b)
    requires IsFirstWin(b[idx := Mark(p)], w)
    ensures w.winner == p
  {
    var k :| 0 <= k < |Lines| && FirstComplete(b[idx := Mark(p)], k) && w == Win(b[idx := Mark(p)][Lines[k].a].player, Lines[k]);
    MoveCompletesOwnLines(b, idx, p, k);
  }
}
