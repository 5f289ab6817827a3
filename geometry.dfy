/**
 * Window layout of the game: the nine cell rectangles built when the board
 * grid is drawn, the rectangle of the "New Game" button, and the hit test that
 * turns an integer click position into a row-major cell index.
 */
module Geometry {
  import opened Wrappers

  // Layout constants of the window (main.py:17-21).
  const WindowW: int := 540
  const WindowH: int := 640
  const BoardSize: int := 3
  const Margin: int := 40
  const BoardW: int := WindowW - Margin * 2
  const CellSize: int := BoardW / BoardSize

  // Top-left corner of the board and the gap left around each tile (main.py:95-102).
  const StartX: int := Margin
  const StartY: int := 110
  const Inset: int := 8

  /** An axis-aligned rectangle with inclusive corners (x1, y1) and (x2, y2). */
  datatype Rect = Rect(x1: int, y1: int, x2: int, y2: int)

  /** The inclusive containment test the click handler applies to rectangles. */
  predicate Inside(rect: Rect, x: int, y: int) {
    rect.x1 <= x <= rect.x2 && rect.y1 <= y <= rect.y2
  }

  /** The tile drawn at row r, column c. */
  function TileRect(r: int, c: int): Rect {
    var x1 := StartX + c * CellSize + Inset;
    var y1 := StartY + r * CellSize + Inset;
    Rect(x1, y1, x1 + CellSize - 2 * Inset, y1 + CellSize - 2 * Inset)
  }

  /** The tile of the cell with row-major index i. */
  function CellRect(i: int): Rect
    requires 0 <= i < BoardSize * BoardSize
  {
    TileRect(i / BoardSize, i % BoardSize)
  }

  /** The rectangle of the "New Game" button. */
  const ResetRect: Rect := Rect(WindowW / 2 - 70, WindowH - 80, WindowW / 2 + 70, WindowH - 40)

  /**
   * The cell rectangles in the order the grid is drawn: rows outside,
   * columns inside, appending one rectangle per cell.
   */
  method DrawBoardGrid() returns (cells: seq<Rect>)
    ensures |cells| == BoardSize * BoardSize
    ensures forall i :: 0 <= i < |cells| ==> cells[i] == CellRect(i)
  {
    cells := [];
    var r := 0;
    while r < BoardSize
      invariant 0 <= r <= BoardSize
      invariant |cells| == 3 * r
      invariant forall i :: 0 <= i < |cells| ==> cells[i] == CellRect(i)
    {
      var c := 0;
      while c < BoardSize
        invariant 0 <= c <= BoardSize
        invariant |cells| == 3 * r + c
        invariant forall i :: 0 <= i < |cells| ==> cells[i] == CellRect(i)
      {
        var x1 := StartX + c * CellSize + Inset;
        var y1 := StartY + r * CellSize + Inset;
        var x2 := x1 + CellSize - 16;
        var y2 := y1 + CellSize - 16;
        RowMajor(r, c);
        cells := cells + [Rect(x1, y1, x2, y2)];
        c := c + 1;
      }
      r := r + 1;
    }
  }

  /** The rectangle of row r, column c sits at index 3r + c. */
  lemma RowMajor(r: int, c: int)
    requires 0 <= r < BoardSize && 0 <= c < BoardSize
    ensures 0 <= BoardSize * r + c < BoardSize * BoardSize
    ensures CellRect(BoardSize * r + c) == TileRect(r, c)
  {
    var i := BoardSize * r + c;
    assert i / BoardSize == r && i % BoardSize == c;
  }

  /**
   * Reference definition of the hit test by arithmetic: the cell whose tile
   * holds the point (x, y), or None when the point is on a gap or off the board.
   */
  function CellAt(x: int, y: int): (r: Option<int>)
    ensures r.Some? ==> 0 <= r.value < BoardSize * BoardSize
  {
    var dx := x - (StartX + Inset);
    var dy := y - (StartY + Inset);
    if dx < 0 || dy < 0 then None
    else
      var row, col := dy / CellSize, dx / CellSize;
      if row < BoardSize && col < BoardSize
         && dx % CellSize <= CellSize - 2 * Inset && dy % CellSize <= CellSize - 2 * Inset
      then LayoutValues(); Some(BoardSize * row + col)
      else None
  }

  /** A point lies in the tile of cell i exactly when CellAt names i. */
  lemma CellAtCorrect(x: int, y: int, i: int)
    requires 0 <= i < BoardSize * BoardSize
    ensures Inside(CellRect(i), x, y) <==> CellAt(x, y) == Some(i)
  {
    LayoutValues();
    var r, c := i / BoardSize, i % BoardSize;
    var dx, dy := x - (StartX + Inset), y - (StartY + Inset);
    if Inside(CellRect(i), x, y) {
      DivBy(dx, c);
      DivBy(dy, r);
    }
    if CellAt(x, y) == Some(i) {
      assert dx >= 0 && dy >= 0;
      DivBy(dx, dx / CellSize);
      DivBy(dy, dy / CellSize);
    }
  }

  /** The layout constants evaluated. */
  lemma LayoutValues()
    ensures BoardSize == 3 && CellSize == 153 && StartX + Inset == 48 && StartY + Inset == 118
    ensures CellSize - 2 * Inset == 137
    ensures ResetRect == Rect(200, 560, 340, 600)
  {
  }

  /** Division by a cell width, given the quotient q. */
  lemma DivBy(n: int, q: int)
    requires 0 <= n - CellSize * q < CellSize
    ensures n / CellSize == q && n % CellSize == n - CellSize * q
  {
    LayoutValues();
  }

  /** Cell rectangles are pairwise disjoint: no point lies in two of them. */
  lemma CellsDisjoint(i: int, j: int, x: int, y: int)
    requires 0 <= i < BoardSize * BoardSize && 0 <= j < BoardSize * BoardSize
    requires i != j && Inside(CellRect(i), x, y)
    ensures !Inside(CellRect(j), x, y)
  {
    CellAtCorrect(x, y, i);
    CellAtCorrect(x, y, j);
  }

  /**
   * The "New Game" button is drawn over the bottom two pixel rows of the
   * middle tile of the last row: a point of the button lies in a cell only
   * when it is on that strip, and that cell is then cell 7.
   */
  lemma ResetRectOverlap(x: int, y: int)
    requires Inside(ResetRect, x, y)
    ensures CellAt(x, y) == None || CellAt(x, y) == Some(7)
    ensures CellAt(x, y) == Some(7) <==> 201 <= x <= 338 && y <= 561
  {
    LayoutValues();
    var dx, dy := x - (StartX + Inset), y - (StartY + Inset);
    DivBy(dx, dx / CellSize);
    DivBy(dy, dy / CellSize);
    if y <= 561 {
      DivBy(dy, 2);
    } else {
      assert dy / CellSize > 2 || dy % CellSize > CellSize - 2 * Inset;
    }
    if 201 <= x <= 338 {
      DivBy(dx, 1);
    } else {
      assert dx % CellSize > CellSize - 2 * Inset;
    }
  }

  /** A point on the reset strip shared by the button and cell 7. */
  lemma ResetRectMeetsCell7()
    ensures Inside(ResetRect, 270, 560) && Inside(CellRect(7), 270, 560)
  {
    LayoutValues();
  }

  /**
   * The click handler's scan: the first rectangle of cells, in list order,
   * that contains (x, y), or None when none does.
   */
  method HitTest(cells: seq<Rect>, x: int, y: int) returns (hit: Option<int>)
    ensures hit.Some? ==> 0 <= hit.value < |cells| && Inside(cells[hit.value], x, y)
    ensures hit.Some? ==> forall j :: 0 <= j < hit.value ==> !Inside(cells[j], x, y)
    ensures hit.None? <==> forall j :: 0 <= j < |cells| ==> !Inside(cells[j], x, y)
  {
    var idx := 0;
    while idx < |cells|
      invariant 0 <= idx <= |cells|
      invariant forall j :: 0 <= j < idx ==> !Inside(cells[j], x, y)
    {
      var rect := cells[idx];
      if rect.x1 <= x <= rect.x2 && rect.y1 <= y <= rect.y2 {
        return Some(idx);
      }
      idx := idx + 1;
    }
    return None;
  }

  /**
   * On the rectangles the grid draws, the scan selects exactly the cell that
   * CellAt names: at most one index is ever selected.
   */
  lemma HitTestAgreesWithCellAt(cells: seq<Rect>, x: int, y: int, hit: Option<int>)
    requires |cells| == BoardSize * BoardSize
    requires forall i :: 0 <= i < |cells| ==> cells[i] == CellRect(i)
    requires hit.Some? ==> 0 <= hit.value < |cells| && Inside(cells[hit.value], x, y)
    requires hit.None? <==> forall j :: 0 <= j < |cells| ==> !Inside(cells[j], x, y)
    ensures hit == CellAt(x, y)
  {
    if hit.Some? {
      CellAtCorrect(x, y, hit.value);
    } else {
      forall i | 0 <= i < BoardSize * BoardSize
        ensures CellAt(x, y) != Some(i)
      {
        CellAtCorrect(x, y, i);
      }
    }
  }
}
