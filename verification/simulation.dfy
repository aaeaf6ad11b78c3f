/** The game state and its per-frame `Update` (Game.cs): one command from
    the keyboard, the spawn timer, the removal of destroyed panels, and one
    row-major pass that drops, scans and updates every cell in turn. The
    random generator is replaced by parameters: the initial kinds, and a
    `SpawnDraw` giving the spawn column and the two spawned kinds. */
module Simulation {
  import opened PanelModel
  import opened Grid
  import opened Matching

  /** Timer gain per frame, in tenths (the source adds 0.4 to a float). */
  const TimerIncrement: int := 4
  /** Timer value, in tenths, at which a pair is spawned (the source's 100.0). */
  const TimerThreshold: int := 1000

  /** The whole simulation state. `origin` is the pixel position of cell
      (0, 0), which the source derives from the window size. */
  datatype Game = Game(cells: Cells, cursor: Vec, timer: int, origin: Vec)

  /** The keys pressed this frame, one flag per binding. */
  datatype Keys = Keys(swap: bool, up: bool, down: bool, left: bool, right: bool)

  /** The at most one command a frame applies. */
  datatype Command = SwapCommand | MoveCommand(dx: int, dy: int) | NoCommand

  /** What the random generator yields when the timer overflows: a column
      whose right neighbour is also on the field, and two kinds. */
  datatype SpawnDraw = SpawnDraw(column: int, leftKind: int, rightKind: int)

  predicate DrawOk(d: SpawnDraw) {
    && 0 <= d.column <= Width - 2
    && 0 <= d.leftKind < KindCount
    && 0 <= d.rightKind < KindCount
  }

  /** The first pressed key in the order swap, up, down, left, right wins. */
  function Input(k: Keys): (cmd: Command)
    ensures cmd == SwapCommand <==> k.swap
    ensures cmd == NoCommand <==> !k.swap && !k.up && !k.down && !k.left && !k.right
    ensures cmd.MoveCommand? ==> Abs(cmd.dx) + Abs(cmd.dy) == 1
    ensures cmd == MoveCommand(0, -1) <==> !k.swap && k.up
    ensures cmd == MoveCommand(0, 1) <==> !k.swap && !k.up && k.down
    ensures cmd == MoveCommand(-1, 0) <==> !k.swap && !k.up && !k.down && k.left
    ensures cmd == MoveCommand(1, 0) <==> !k.swap && !k.up && !k.down && !k.left && k.right
  {
    if k.swap then SwapCommand
    else if k.up then MoveCommand(0, -1)
    else if k.down then MoveCommand(0, 1)
    else if k.left then MoveCommand(-1, 0)
    else if k.right then MoveCommand(1, 0)
    else NoCommand
  }

  /** Applies one command: a swap under the cursor or a cursor move. */
  function Apply(g: Game, cmd: Command): (r: Game)
    requires WellFormed(g.cells) && CursorInRange(g.cursor)
    ensures WellFormed(r.cells) && CursorInRange(r.cursor)
    ensures r.timer == g.timer && r.origin == g.origin
    ensures cmd == SwapCommand ==> r.cells == SwapPanels(g.cells, g.cursor) && r.cursor == g.cursor
    ensures cmd.MoveCommand? ==> r.cells == g.cells && r.cursor == MoveCursor(g.cursor, cmd.dx, cmd.dy)
    ensures cmd == NoCommand ==> r == g
  {
    match cmd
    case SwapCommand => g.(cells := SwapPanels(g.cells, g.cursor))
    case MoveCommand(dx, dy) => g.(cursor := MoveCursor(g.cursor, dx, dy))
    case NoCommand => g
  }

  /** Advances the spawn timer; on reaching the threshold, overwrites the two
      top-row cells at the drawn column with fresh panels of the drawn kinds
      (whatever they held) and restarts the timer. */
  function AdvanceTimer(g: Game, d: SpawnDraw): (r: Game)
    requires WellFormed(g.cells) && DrawOk(d)
    ensures WellFormed(r.cells)
    ensures r.cursor == g.cursor && r.origin == g.origin
    ensures g.timer + TimerIncrement < TimerThreshold ==>
      r.timer == g.timer + TimerIncrement && r.cells == g.cells
    ensures g.timer + TimerIncrement >= TimerThreshold ==>
      && r.timer == 0
      && At(r.cells, d.column, 0) == Fresh(SlotPos(g.origin, d.column, 0), d.leftKind)
      && At(r.cells, d.column + 1, 0) == Fresh(SlotPos(g.origin, d.column + 1, 0), d.rightKind)
      && AgreeOutside(r.cells, g.cells, {Vec(d.column, 0), Vec(d.column + 1, 0)})
  {
    var t := g.timer + TimerIncrement;
    if t >= TimerThreshold then
      var c1 := NewPanel(g.cells, g.origin, d.column, 0, d.leftKind).1;
      var c2 := NewPanel(c1, g.origin, d.column + 1, 0, d.rightKind).1;
      g.(cells := c2, timer := 0)
    else
      g.(timer := t)
  }

  /** The destroy pass over row `y` from column `x` on: every visited cell
      whose panel has `destroy` set gets a fresh empty panel. */
  function ClearRow(c: Cells, origin: Vec, y: int, x: int): (r: Cells)
    requires WellFormed(c) && 0 <= y < Height && 0 <= x <= Width
    ensures WellFormed(r)
    ensures forall i, j {:trigger At(r, i, j)} :: InBounds(i, j) ==>
      At(r, i, j) == (if j == y && i >= x && At(c, i, j).destroy
                      then Fresh(SlotPos(origin, i, j), Empty) else At(c, i, j))
    decreases Width - x
  {
    if x == Width then c
    else
      var c1 := if At(c, x, y).destroy then NewPanel(c, origin, x, y, Empty).1 else c;
      ClearRow(c1, origin, y, x + 1)
  }

  /** The destroy pass over rows `y` and below. */
  function ClearRows(c: Cells, origin: Vec, y: int): (r: Cells)
    requires WellFormed(c) && 0 <= y <= Height
    ensures WellFormed(r)
    ensures forall i, j {:trigger At(r, i, j)} :: InBounds(i, j) ==>
      At(r, i, j) == (if j >= y && At(c, i, j).destroy
                      then Fresh(SlotPos(origin, i, j), Empty) else At(c, i, j))
    decreases Height - y
  {
    if y == Height then c
    else ClearRows(ClearRow(c, origin, y, 0), origin, y + 1)
  }

  /** Replaces exactly the panels flagged `destroy` by fresh empty panels. */
  function ClearDestroyed(c: Cells, origin: Vec): (r: Cells)
    requires WellFormed(c)
    ensures WellFormed(r)
    ensures forall i, j {:trigger At(r, i, j)} :: InBounds(i, j) ==>
      (At(c, i, j).destroy ==> At(r, i, j) == Fresh(SlotPos(origin, i, j), Empty))
      && (!At(c, i, j).destroy ==> At(r, i, j) == At(c, i, j))
    ensures forall i, j {:trigger At(r, i, j)} :: InBounds(i, j) ==> !At(r, i, j).destroy
  {
    var r := ClearRows(c, origin, 0);
    forall i, j | InBounds(i, j)
      ensures At(c, i, j).destroy ==> At(r, i, j) == Fresh(SlotPos(origin, i, j), Empty)
      ensures !At(c, i, j).destroy ==> At(r, i, j) == At(c, i, j)
      ensures !At(r, i, j).destroy
    {
    }
    r
  }

  /** Whether the cell step at `(x, y)` drops its panel one row: the panel is
      neither matched nor moving, it is not on the bottom row, and the cell
      below holds an empty panel (the panel's own kind is not consulted). */
  predicate Drops(c: Cells, x: int, y: int)
    requires WellFormed(c) && InBounds(x, y)
  {
    var p := At(c, x, y);
    !p.matched && !Moving(p) && y < Height - 1 && At(c, x, y + 1).kind == Empty
  }

  /** Where the panel taken at the start of the cell step sits after the drop. */
  function PanelSlot(c: Cells, x: int, y: int): (v: Vec)
    requires WellFormed(c) && InBounds(x, y)
    ensures InBounds(v.x, v.y) && v.x == x
    ensures v.y == y || v.y == y + 1
    ensures v.y == y + 1 <==> Drops(c, x, y)
  {
    if Drops(c, x, y) then Vec(x, y + 1) else Vec(x, y)
  }

  /** One cell of the update pass, in the source's order: take the panel P at
      `(x, y)`; drop it if it can fall; scan vertically, then horizontally,
      for runs of P's kind around `(x, y)`; then update P wherever it now
      sits. */
  function StepCell(c: Cells, x: int, y: int): (r: Cells)
    requires WellFormed(c) && InBounds(x, y)
    ensures WellFormed(r)
    ensures forall i, j {:trigger At(r, i, j)} :: InBounds(i, j) && (i != x || (j != y && j != y + 1)) ==>
      SameButMatched(At(c, i, j), At(r, i, j))
  {
    var p := At(c, x, y);
    var c1 := if Drops(c, x, y) then DropPanel(c, x, y) else c;
    var pos := PanelSlot(c, x, y);
    var c2 := Scan(c1, pos, x, y, 0, 1, p.kind);
    var c3 := Scan(c2, pos, x, y, 1, 0, p.kind);
    Put(c3, pos.x, pos.y, Update(At(c3, pos.x, pos.y)))
  }

  /** The update pass over row `y` from column `x` on, left to right. */
  function PassRow(c: Cells, y: int, x: int): (r: Cells)
    requires WellFormed(c) && 0 <= y < Height && 0 <= x <= Width
    ensures WellFormed(r)
    ensures forall i, j {:trigger At(r, i, j)} :: InBounds(i, j) && (i < x || (j != y && j != y + 1)) ==>
      SameButMatched(At(c, i, j), At(r, i, j))
    decreases Width - x
  {
    if x == Width then c
    else PassRow(StepCell(c, x, y), y, x + 1)
  }

  /** The update pass over rows `y` and below, top to bottom. */
  function PassRows(c: Cells, y: int): (r: Cells)
    requires WellFormed(c) && 0 <= y <= Height
    ensures WellFormed(r)
    ensures forall i, j {:trigger At(r, i, j)} :: InBounds(i, j) && j < y ==>
      SameButMatched(At(c, i, j), At(r, i, j))
    decreases Height - y
  {
    if y == Height then c
    else
      var c1 := PassRow(c, y, 0);
      var r := PassRows(c1, y + 1);
      FrameCompose(c, c1, r, y);
      r
  }

  /** Two stages that each change only `matched` above row `y` compose. */
  lemma FrameCompose(a: Cells, b: Cells, c: Cells, y: int)
    requires WellFormed(a) && WellFormed(b) && WellFormed(c)
    requires forall i, j {:trigger At(b, i, j)} :: InBounds(i, j) && j < y ==> SameButMatched(At(a, i, j), At(b, i, j))
    requires forall i, j {:trigger At(c, i, j)} :: InBounds(i, j) && j < y ==> SameButMatched(At(b, i, j), At(c, i, j))
    ensures forall i, j {:trigger At(c, i, j)} :: InBounds(i, j) && j < y ==> SameButMatched(At(a, i, j), At(c, i, j))
  {
    forall i, j | InBounds(i, j) && j < y
      ensures SameButMatched(At(a, i, j), At(c, i, j))
    {
      SameButMatchedTrans(At(a, i, j), At(b, i, j), At(c, i, j));
    }
  }

  /** The third stage of a frame, the destroy pass; a proof helper that
      names the intermediate state of `Tick`. */
  function ClearStage(g: Game): (r: Game)
    requires WellFormed(g.cells)
    ensures WellFormed(r.cells)
  {
    g.(cells := ClearDestroyed(g.cells, g.origin))
  }

  /** The last stage of a frame, the update pass; a proof helper that
      names the intermediate state of `Tick`. */
  function PassStage(g: Game): (r: Game)
    requires WellFormed(g.cells)
    ensures WellFormed(r.cells)
  {
    g.(cells := PassRows(g.cells, 0))
  }

  /** One frame of the game: input, timer and spawn, destroy pass, update pass. */
  function Tick(g: Game, keys: Keys, d: SpawnDraw): (r: Game)
    requires WellFormed(g.cells) && CursorInRange(g.cursor) && DrawOk(d)
    ensures WellFormed(r.cells) && CursorInRange(r.cursor)
    ensures r.origin == g.origin
    ensures r.cursor == Apply(g, Input(keys)).cursor
    ensures g.timer + TimerIncrement < TimerThreshold ==> r.timer == g.timer + TimerIncrement
    ensures g.timer + TimerIncrement >= TimerThreshold ==> r.timer == 0
  {
    PassStage(ClearStage(AdvanceTimer(Apply(g, Input(keys)), d)))
  }

  /** A swap request wins over every move request in the same frame: the
      cursor stays put and the cells under it are exchanged. */
  lemma SwapTakesPriority(g: Game, keys: Keys, d: SpawnDraw)
    requires WellFormed(g.cells) && CursorInRange(g.cursor) && DrawOk(d)
    requires keys.swap
    ensures Apply(g, Input(keys)) == g.(cells := SwapPanels(g.cells, g.cursor))
    ensures Tick(g, keys, d).cursor == g.cursor
  {
  }

  /** The constructor: cells below the middle row get the drawn kinds, all
      others are empty; every panel rests on its own cell; the cursor starts
      at `(Width / 2 - 1, Height / 2 - 1)` and the timer at 0. */
  function Init(origin: Vec, kinds: seq<seq<int>>): (g: Game)
    requires |kinds| == Width && forall x :: 0 <= x < Width ==> |kinds[x]| == Height
    ensures WellFormed(g.cells) && CursorInRange(g.cursor)
    ensures g.cursor == Vec(2, 5) && g.timer == 0 && g.origin == origin
    ensures forall i, j :: InBounds(i, j) ==>
      At(g.cells, i, j) == Fresh(SlotPos(origin, i, j), if j > Height / 2 then kinds[i][j] else Empty)
  {
    var cells := seq(Width, i requires 0 <= i < Width =>
      seq(Height, j requires 0 <= j < Height =>
        Fresh(SlotPos(origin, i, j), if j > Height / 2 then kinds[i][j] else Empty)));
    Game(cells, Vec(Width / 2 - 1, Height / 2 - 1), 0, origin)
  }
}
