/** The fixed 6 x 12 panel array of Game.cs and the operations that read or
    rewrite a few of its cells: bounds, panel creation, the cursor swap, the
    gravity drop, the match test and the cursor move. Cells are indexed
    `cells[x][y]`, as the source indexes `Panels[x, y]`. */
module Grid {
  import opened PanelModel

  /** Columns of the play field. */
  const Width: int := 6
  /** Rows of the play field; row 0 is the top. */
  const Height: int := 12
  /** Number of panel colours (the length of the colour table). */
  const KindCount: int := 5
  /** The `Type` of an empty cell. */
  const Empty: int := -1

  type Cells = seq<seq<Panel>>

  /** The array has its fixed dimensions: `Width` columns of `Height` cells. */
  predicate WellFormed(c: Cells) {
    |c| == Width && forall x :: 0 <= x < Width ==> |c[x]| == Height
  }

  predicate InBounds(x: int, y: int) {
    x >= 0 && x < Width && y >= 0 && y < Height
  }

  function At(c: Cells, x: int, y: int): Panel
    requires WellFormed(c) && InBounds(x, y)
  {
    c[x][y]
  }

  /** Stores `p` at `(x, y)`. */
  function Put(c: Cells, x: int, y: int, p: Panel): (r: Cells)
    requires WellFormed(c) && InBounds(x, y)
    ensures WellFormed(r)
    ensures At(r, x, y) == p
    ensures forall i, j {:trigger At(r, i, j)} :: InBounds(i, j) && (i != x || j != y) ==>
      At(r, i, j) == At(c, i, j)
  {
    c[x := c[x][y := p]]
  }

  /** Every cell outside `touched` holds the same panel in `a` and `b`. */
  predicate AgreeOutside(a: Cells, b: Cells, touched: set<Vec>)
    requires WellFormed(a) && WellFormed(b)
  {
    forall i, j {:trigger At(a, i, j)} :: 0 <= i < Width && 0 <= j < Height && Vec(i, j) !in touched ==>
      At(a, i, j) == At(b, i, j)
  }

  /** Pixel position of the top-left corner of cell `(x, y)`: it lies on the
      grid of `CellSize` squares anchored at `origin`, and the cell can be
      read back from it. */
  function SlotPos(origin: Vec, x: int, y: int): (p: Vec)
    ensures (p.x - origin.x) % CellSize == 0 && (p.y - origin.y) % CellSize == 0
    ensures (p.x - origin.x) / CellSize == x && (p.y - origin.y) / CellSize == y
  {
    Vec(origin.x + x * CellSize, origin.y + y * CellSize)
  }

  /** Places a fresh panel of `kind` at `(x, y)`; reports false and changes
      nothing when the cell is out of bounds. */
  function NewPanel(c: Cells, origin: Vec, x: int, y: int, kind: int): (r: (bool, Cells))
    requires WellFormed(c)
    ensures WellFormed(r.1)
    ensures r.0 <==> InBounds(x, y)
    ensures !InBounds(x, y) ==> r.1 == c
    ensures InBounds(x, y) ==>
      && At(r.1, x, y) == Fresh(SlotPos(origin, x, y), kind)
      && AgreeOutside(r.1, c, {Vec(x, y)})
  {
    if !InBounds(x, y) then (false, c)
    else (true, Put(c, x, y, Fresh(SlotPos(origin, x, y), kind)))
  }

  /** The cursor's left cell `(x, y)` and its right cell `(x + 1, y)` both lie on the field. */
  predicate CursorInRange(cursor: Vec) {
    0 <= cursor.x <= Width - 2 && 0 <= cursor.y <= Height - 1
  }

  /** Moves the cursor by `(dx, dy)`, or leaves it where it is when the
      proposed position would put either cursor cell off the field. */
  function MoveCursor(cursor: Vec, dx: int, dy: int): (r: Vec)
    ensures CursorInRange(Vec(cursor.x + dx, cursor.y + dy)) ==> r == Vec(cursor.x + dx, cursor.y + dy)
    ensures !CursorInRange(Vec(cursor.x + dx, cursor.y + dy)) ==> r == cursor
    ensures CursorInRange(cursor) ==> CursorInRange(r)
  {
    var nx := cursor.x + dx;
    var ny := cursor.y + dy;
    if nx < 0 || nx > Width - 2 || ny < 0 || ny > Height - 1 then cursor
    else Vec(nx, ny)
  }

  /** At the right edge of a six-wide field, a move to the right is ignored. */
  lemma MoveCursorRightEdge(y: int)
    requires 0 <= y < Height
    ensures MoveCursor(Vec(4, y), 1, 0) == Vec(4, y)
  {
  }

  /** Exchanges the two panels under the cursor; the panel leaving the left
      cell is sent one cell right, the one leaving the right cell one cell
      left. Neither panel's state is checked first. */
  function SwapPanels(c: Cells, cursor: Vec): (r: Cells)
    requires WellFormed(c) && CursorInRange(cursor)
    ensures WellFormed(r)
    ensures At(r, cursor.x, cursor.y) == SwapTo(At(c, cursor.x + 1, cursor.y), -1, 0)
    ensures At(r, cursor.x + 1, cursor.y) == SwapTo(At(c, cursor.x, cursor.y), 1, 0)
    ensures AgreeOutside(r, c, {cursor, Vec(cursor.x + 1, cursor.y)})
  {
    var left := At(c, cursor.x, cursor.y);
    var right := At(c, cursor.x + 1, cursor.y);
    var c1 := Put(c, cursor.x, cursor.y, SwapTo(right, -1, 0));
    Put(c1, cursor.x + 1, cursor.y, SwapTo(left, 1, 0))
  }

  /** Swapping twice under the same cursor restores the field. */
  lemma SwapPanelsInvolution(c: Cells, cursor: Vec)
    requires WellFormed(c) && CursorInRange(cursor)
    ensures SwapPanels(SwapPanels(c, cursor), cursor) == c
  {
    var r := SwapPanels(SwapPanels(c, cursor), cursor);
    forall i | 0 <= i < Width
      ensures r[i] == c[i]
    {
      forall j | 0 <= j < Height
        ensures r[i][j] == c[i][j]
      {
        assert At(r, i, j) == At(c, i, j);
      }
    }
  }

  /** Gravity: exchanges the panel at `(x, y)` with the one below it; the
      upper panel is sent one cell down, the lower one cell up. */
  function DropPanel(c: Cells, x: int, y: int): (r: Cells)
    requires WellFormed(c) && InBounds(x, y) && InBounds(x, y + 1)
    ensures WellFormed(r)
    ensures At(r, x, y) == SwapTo(At(c, x, y + 1), 0, -1)
    ensures At(r, x, y + 1) == SwapTo(At(c, x, y), 0, 1)
    ensures AgreeOutside(r, c, {Vec(x, y), Vec(x, y + 1)})
  {
    var up := At(c, x, y);
    var down := At(c, x, y + 1);
    var c1 := Put(c, x, y, SwapTo(down, 0, -1));
    Put(c1, x, y + 1, SwapTo(up, 0, 1))
  }

  /** Dropping twice at the same cell restores the field. */
  lemma DropPanelInvolution(c: Cells, x: int, y: int)
    requires WellFormed(c) && InBounds(x, y) && InBounds(x, y + 1)
    ensures DropPanel(DropPanel(c, x, y), x, y) == c
  {
    var r := DropPanel(DropPanel(c, x, y), x, y);
    forall i | 0 <= i < Width
      ensures r[i] == c[i]
    {
      forall j | 0 <= j < Height
        ensures r[i][j] == c[i][j]
      {
        assert At(r, i, j) == At(c, i, j);
      }
    }
  }

  /** Whether `(x, y)` holds a resting panel of `kind`. Empty cells are not
      excluded: two resting empty cells match each other. */
  predicate IsMatch(c: Cells, x: int, y: int, kind: int)
    requires WellFormed(c)
  {
    InBounds(x, y) && !Moving(At(c, x, y)) && At(c, x, y).kind == kind
  }
}
