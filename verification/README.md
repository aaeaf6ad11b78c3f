# Panels grid simulation in Dafny

This project models the core of *Panels*, a Tetris-Attack-style puzzle. A
6 x 12 field of coloured panels is worked by a two-cell-wide cursor that swaps
the panels under it. Panels fall one row at a time into empty cells below
them. Three panels of one kind in a row or a column are marked as matched;
after a countdown they are destroyed. Every 250 frames a pair of new panels
is placed in the top row.

The model is functional. A `Panel` is an immutable record. The field is a
`seq<seq<Panel>>` indexed `cells[x][y]`, as the source indexes `Panels[x, y]`.
A frame is a function from one `Game` value to the next. The frame's update
pass is a left-to-right, top-to-bottom fold over the cells, and each step
threads the field into the next.

Modules, following the two source files:

- `PanelModel` (`panel.dfy`, Panel.cs): the panel record, `Moving`, the
  constructor `Fresh`, `Update` (move, or count down), `SwapTo` and `Move`.
  It also has `Iterate`, for n updates, and lemmas on arrival and on the
  destroy countdown.
- `Grid` (`grid.dfy`, Game.cs helpers): the field shape, `InBounds`,
  `NewPanel`, `SwapPanels`, `DropPanel`, `IsMatch` and `MoveCursor`.
- `Matching` (`matching.dfy`, Game.cs lines 100-140): the vertical and
  horizontal match scans.
- `Simulation` (`simulation.dfy`, Game.cs): the `Game` state and keyboard
  `Input` with its priority order. Also the spawn timer, the destroy pass, one
  cell step `StepCell`, the pass `PassRows`, the frame `Tick` and the
  constructor `Init`.
- `Invariants` (`invariants.dfy`): what every frame keeps. Each panel's target
  is the pixel position of the cell holding it. Its distance to that target is
  a multiple of 4 px. Its destroy delay lies in [0, 5] and its kind in [-1, 5).
  The cursor stays on the field and the timer below its threshold. The update
  pass moves kinds only within a column, and no column loses a
  `destroy`-flagged panel during it.
- `CellStep` (`cellstep.dfy`): what one cell step does as written. This
  covers which panel it moves, marks and updates, and the quirks that follow.
- `PassOrder` (`pass.dfy`): what the order of the row-major pass means for
  one column. A panel that falls is updated twice in that pass. The panel
  that rises in its place is not updated again.

Behaviour kept exactly as the code has it:

- The cell step captures the panel P at `(x, y)` before the drop. After a
  drop, both scans still look around `(x, y)`, but P sits at `(x, y + 1)`,
  where it is marked and updated. The pass visits `(x, y + 1)` again later, so
  a falling panel gets two updates in that frame. The empty panel that rose to
  `(x, y)` gets none.
- `IsMatch` does not exclude type `-1`, so resting empty panels form runs and
  get marked.
- The scans never test P itself for `Moving`, so a panel that has just started
  falling can be marked.
- The drop test does not look at P's own kind, so an empty panel also "falls"
  into an empty cell.
- `destroy` is raised during the update pass and consumed no earlier than the
  next frame, by its destroy pass or by a spawn that overwrites the panel
  first.
- A matched panel sets `destroy` on its sixth resting update, not its fifth.
  The delay counts 5 down to 0, and the update after that raises the flag.
- There is no separate update phase: each panel is updated inside the cell
  step that visits it (Game.cs:144), between the scans of that step and the
  step at the next cell.
- A moving panel steps exactly 4 px on each axis where it is off target, and
  nothing clamps the step (Panel.cs:27-32). `Invariants` proves that every
  distance to a target stays a multiple of 4, so the step never overshoots.

## Model

| member | source | states |
|---|---|---|
| PanelModel.Fresh | Panel.cs:10-20 | a new panel sits on its target (so is not moving), is neither matched nor destroyed, and has destroy delay 5 |
| PanelModel.Moving | Panel.cs:10 | definition: a panel is moving exactly when its screen position differs from its target; `DistanceZeroIffResting` relates it to the distance |
| PanelModel.AxisStep | Panel.cs:24-30 | the step on one axis is +4, -4 or 0; it is 0 exactly when the axis is on target, and adding it moves the coordinate one step towards the target |
| PanelModel.DistanceZeroIffResting | Panel.cs:10 | a panel is moving exactly when its distance to its target is non-zero |
| PanelModel.Move | Panel.cs:45-47 | shifts the screen position by the given offset and changes nothing else |
| PanelModel.MoveInverse | Panel.cs:45-47 | moving by an offset and back by its negation restores the panel |
| PanelModel.SwapTo | Panel.cs:41-43 | adds 32 px per cell to the target and leaves screen position, kind and flags alone |
| PanelModel.SwapToInverse | Panel.cs:41-43 | shifting a target by a cell and back restores the panel |
| PanelModel.Update | Panel.cs:22-39 | a moving panel steps 4 px towards its target on each unequal axis and keeps its flags and delay. A resting matched panel counts its delay down, or raises `destroy` once the delay is 0. A resting unmatched panel is unchanged. Kind, target and `matched` never change, `destroy` is never cleared, and the delay never goes below 0 |
| PanelModel.Iterate | Panel.cs:22-39 | over any number of updates, kind, target and `matched` are kept, `destroy` is never cleared and a non-negative delay stays in [0, start] |
| PanelModel.UpdateApproaches | Panel.cs:23-32 | when both axis distances are multiples of 4, one update takes exactly 4 px off every non-zero distance without overshooting. The distances stay multiples of 4 and the Chebyshev distance drops by 4 |
| PanelModel.Arrival | Panel.cs:22-32 | an aligned panel is resting after exactly max(\|dx\|, \|dy\|) / 4 updates and moving after every smaller number |
| PanelModel.IterateSplit | Panel.cs:22-39 | n + m updates are n updates followed by m updates |
| PanelModel.CountdownRuns | Panel.cs:33-35 | a resting matched panel loses one unit of delay per update, with nothing else changing, while delay remains |
| PanelModel.CountdownEnds | Panel.cs:33-37 | a resting matched panel has `destroy` still false after `delay` updates and true after `delay + 1` |
| PanelModel.FreshMatchedDestroyedOnSixthUpdate | Panel.cs:33-37 | a fresh panel, once matched, raises `destroy` on exactly its sixth resting update |
| Grid.InBounds | Game.cs:244-246 | definition: a cell is on the field exactly when 0 <= x < 6 and 0 <= y < 12 |
| Grid.SlotPos | Game.cs:201 | a cell's pixel position lies on the 32 px grid anchored at the field origin, and the cell's column and row can be read back from it |
| Grid.NewPanel | Game.cs:197-203 | out of bounds: returns false and the field is unchanged. Otherwise: returns true, cell (x, y) holds a fresh panel of the kind at origin + (32x, 32y), and every other cell is unchanged |
| Grid.MoveCursor | Game.cs:234-242 | commits the moved cursor exactly when both cursor cells stay on the field, otherwise leaves it. A cursor on the field stays on the field |
| Grid.MoveCursorRightEdge | Game.cs:234-242 | on the six-wide field, a cursor at x = 4 moved right stays at x = 4 |
| Grid.SwapPanels | Game.cs:205-212 | the two cursor cells exchange panels. The panel moving right gets +32 on its target x, the one moving left gets -32. Every other cell is unchanged, and nothing about the panels' state is required |
| Grid.SwapPanelsInvolution | Game.cs:205-212 | swapping twice under the same cursor restores the field |
| Grid.DropPanel | Game.cs:214-221 | cells (x, y) and (x, y + 1) exchange panels. The panel going down gets +32 on its target y, the one going up gets -32. Every other cell is unchanged |
| Grid.DropPanelInvolution | Game.cs:214-221 | dropping twice at the same cell restores the field |
| Grid.IsMatch | Game.cs:223-232 | definition: true exactly when the cell is on the field, its panel rests, and its kind equals the given one, including the empty kind -1 |
| Matching.Arm | Game.cs:104-108 | one side of a scan: holds the nearer neighbour iff it matches, and the farther one iff both match. The positions are one and two steps along the axis |
| Matching.Run | Game.cs:102-114 | a scan's collection starts with the current panel's slot and holds at most four matching neighbours besides it |
| Matching.ArmPositions | Game.cs:104-108 | the first collected neighbour on a side is the cell one step along the axis, the second the cell two steps along |
| Matching.RunCollectsBefore | Game.cs:104-108 | the collection holds the nearer neighbour on the negative side whenever it matches, and the farther one whenever both match |
| Matching.RunCollectsAfter | Game.cs:110-114 | the collection holds the nearer neighbour on the positive side whenever it matches, and the farther one whenever both match |
| Matching.RunCollectsMatches | Game.cs:102-114 | the collection is complete: its length is one plus both arms, and each matching near neighbour, and each far neighbour whose near neighbour also matches, is in it |
| Matching.MarkAll | Game.cs:116-119 | sets `matched` on exactly the listed cells and changes nothing else |
| Matching.MarkIfRun | Game.cs:116-119 | marks the collection only when it has three or more members |
| Matching.Scan | Game.cs:102-140 | a scan only ever raises `matched`, and leaves every other field of every panel unchanged. A cell ends up matched iff it already was, or it is in a collection of at least three |
| Matching.ScanMarksTriple | Game.cs:102-140 | when the two cells on either side of (x, y) along the axis rest and have the scanned kind, the scan marks both of them and the current panel's slot, whatever state the current panel is in |
| Matching.ShortRunNoMark | Game.cs:116-119 | a scan with fewer than three collected cells leaves the field unchanged |
| Simulation.Input | Game.cs:189-195 | swap wins over every move. Otherwise the first of up, down, left, right that is pressed gives a unit move. No key gives no command |
| Simulation.Apply | Game.cs:189-195 | a swap exchanges the cursor cells and keeps the cursor. A move changes only the cursor. No command changes nothing. The cursor stays on the field |
| Simulation.SwapTakesPriority | Game.cs:189-195 | with swap pressed, the frame swaps and the cursor does not move, whatever else is pressed |
| Simulation.AdvanceTimer | Game.cs:64-76 | below the threshold the timer grows by 4 tenths and the field is unchanged. At the threshold the timer resets to 0, and exactly cells (PX, 0) and (PX + 1, 0) are overwritten with fresh panels of the drawn kinds |
| Simulation.ClearRow | Game.cs:79-86 | the destroy pass over the rest of one row replaces exactly the flagged cells in it with fresh empty panels |
| Simulation.ClearRows | Game.cs:79-86 | the destroy pass over the remaining rows replaces exactly the flagged cells in them with fresh empty panels |
| Simulation.ClearDestroyed | Game.cs:78-86 | exactly the cells whose panel has `destroy` set get a fresh empty panel at their own position, and no panel is left with `destroy` set |
| Simulation.Drops | Game.cs:97 | definition: the panel at (x, y) falls exactly when it is neither matched nor moving, is above the bottom row, and the cell below holds kind -1; its own kind is not consulted |
| Simulation.PanelSlot | Game.cs:96-98 | after the drop, the current panel is in its own column at row y or y + 1, and at y + 1 exactly when it fell |
| Simulation.StepCell | Game.cs:93-144 | one cell step keeps the 6 x 12 shape. Outside its own cell and the one below, it changes at most a panel's `matched` flag |
| Simulation.PassRow | Game.cs:90-145 | the pass over row y from column x on changes at most the `matched` flag of panels left of column x, or outside rows y and y + 1 |
| Simulation.PassRows | Game.cs:89-146 | the pass over rows y and below changes at most the `matched` flag of panels above row y |
| Simulation.Tick | Game.cs:60-147 | a frame keeps the shape and origin. It moves the cursor only as the command says. It advances the timer by 4, or resets it to 0 at the threshold |
| Simulation.Init | Game.cs:45-58 | the constructor gives cells with y > 6 the drawn kinds and all others kind -1. Every panel is fresh at its own position, the cursor is at (2, 5) and the timer at 0 |
| Invariants.UpdateKeepsOk | Panel.cs:22-39 | an update keeps a panel's target, alignment, delay range and kind range |
| Invariants.FreshOk | Panel.cs:16-20 | a fresh panel of a valid kind satisfies the panel invariant at its own position |
| Invariants.InitValid | Game.cs:45-58 | with drawn kinds in [0, 5), the constructed game satisfies the invariant |
| Invariants.SwapKeepsAnchored | Game.cs:205-212 | after a swap every panel still targets its own cell and stays aligned |
| Invariants.DropKeepsAnchored | Game.cs:214-221 | after a drop every panel still targets its own cell and stays aligned |
| Invariants.ScanKeepsAnchored | Game.cs:102-140 | a scan keeps the invariant |
| Invariants.StepCellKeepsAnchored | Game.cs:89-145 | a cell step keeps the invariant |
| Invariants.PassRowKeepsAnchored | Game.cs:90-145 | the pass over a row keeps the invariant |
| Invariants.PassRowsKeepsAnchored | Game.cs:89-146 | the whole update pass keeps the invariant |
| Invariants.AdvanceTimerKeepsAnchored | Game.cs:64-76 | a spawn keeps the invariant, and the timer stays in [0, 1000) |
| Invariants.ClearKeepsAnchored | Game.cs:78-86 | the destroy pass keeps the invariant |
| Invariants.ApplyKeepsAnchored | Game.cs:189-195 | applying a command keeps the invariant |
| Invariants.TickKeepsAnchored | Game.cs:60-147 | a frame keeps every panel targeting its own cell, aligned, with delay in [0, 5] and kind in [-1, 5) |
| Invariants.TickPreservesValid | Game.cs:60-147 | every frame keeps the whole invariant, including the cursor range and timer range |
| Invariants.SwapKeepsMultiset | Game.cs:214-221 | exchanging two entries keeps a sequence's multiset |
| Invariants.DropColumnKinds | Game.cs:214-221 | in the drop's column, the kinds of rows y and y + 1 are exchanged |
| Invariants.DropOtherColumnKinds | Game.cs:214-221 | a drop leaves every other column's kinds unchanged |
| Invariants.DropKeepsColumnKinds | Game.cs:214-221 | a drop keeps the multiset of kinds of every column |
| Invariants.StepCellKeepsColumnKinds | Game.cs:89-145 | a cell step keeps the multiset of kinds of every column |
| Invariants.PassRowKeepsColumnKinds | Game.cs:90-145 | the pass over a row keeps every column's multiset of kinds |
| Invariants.PassRowsKeepsColumnKinds | Game.cs:89-146 | the pass over rows y and below keeps column i's multiset of kinds |
| Invariants.PassKeepsColumnKinds | Game.cs:88-146 | the update pass creates and removes no panel: every column keeps its multiset of kinds |
| Invariants.FlagCountMonotone | Game.cs:88-146 | a column whose `destroy` flags are only ever raised, cell by cell, has at least as many flagged panels afterwards |
| Invariants.DropColumnFlags | Game.cs:214-221 | in the drop's column, the `destroy` flags of rows y and y + 1 are exchanged |
| Invariants.DropOtherColumnFlags | Game.cs:214-221 | a drop leaves every other column's `destroy` flags unchanged |
| Invariants.DropKeepsFlagCounts | Game.cs:214-221 | a drop keeps every column's count of `destroy`-flagged panels |
| Invariants.StepCellKeepsFlags | Game.cs:93-144 | a cell step never lowers any column's count of `destroy`-flagged panels |
| Invariants.PassRowKeepsFlags | Game.cs:90-145 | the pass over a row never lowers a column's count of `destroy`-flagged panels |
| Invariants.PassRowsKeepsFlags | Game.cs:89-146 | the pass over rows y and below never lowers a column's count of `destroy`-flagged panels |
| Invariants.PassKeepsFlags | Game.cs:88-146 | over the whole update pass no column's count of `destroy`-flagged panels goes down |
| CellStep.DroppedPanelSteppedOnce | Game.cs:93-144 | when P falls, (x, y) holds the risen panel, re-targeted one cell up and not updated. P is at (x, y + 1) with its kind, targeting one cell down, and already 4 px lower |
| CellStep.StayingPanelSteppedOnce | Game.cs:93-144 | a panel that does not fall stays at (x, y) with its kind and target, and its screen position moves exactly as one `Update` moves it |
| CellStep.StepCellKeepsMatched | Game.cs:93-144 | a cell step never clears `matched`. A flagged panel outside the two cells a drop exchanges stays flagged, and a flagged panel that rises keeps its flag |
| CellStep.StepCellKeepsDestroy | Game.cs:93-144 | a cell step never clears `destroy`. A flagged panel keeps the flag in the cell it occupies after the drop |
| CellStep.StepCellMarksVerticalTriple | Game.cs:97-119 | three vertically consecutive panels of one non-empty kind, the outer two resting, are all matched after the step at the middle |
| CellStep.StepCellMarksHorizontalTriple | Game.cs:96-140 | three horizontally consecutive panels of one kind, the outer two resting, are all matched after the step at the middle. A middle panel that falls is marked in its new cell |
| CellStep.FallingPanelCanBeMarked | Game.cs:93-140 | a panel that falls in its step is moving afterwards and is nevertheless matched when its old row neighbours match its kind |
| CellStep.BottomEmptiesGetMarked | Game.cs:223-232 | three empty cells side by side on the bottom row, the outer two resting, are all marked by the step at the middle one |
| CellStep.SideNeighbourKept | Game.cs:96-119 | a match in another column of row y survives the drop and the vertical scan of the step at (x, y) |
| PassOrder.MovingPanelUpdatedOnceInRow | Game.cs:89-145 | a moving panel at (x, y), when the pass over row y is at a column up to x, comes out of that row's pass updated exactly once |
| PassOrder.PassRowsUpdatesOnce | Game.cs:89-146 | a moving panel in row y, when the pass reaches row y, comes out of the rest of the pass updated exactly once |
| PassOrder.RestKeepsStepCell | Game.cs:89-146 | after the step at (x, y), the rest of the pass changes at most the `matched` flag of the panel at (x, y) |
| PassOrder.RestUpdatesCellBelowOnce | Game.cs:89-146 | after the step at (x, y), a moving panel at (x, y + 1) is updated exactly once more by the rest of the pass |
| PassOrder.SecondFallStep | Panel.cs:23-32 | a panel one step into a one-cell fall moves a further 4 px straight down on its next update |
| PassOrder.RestAfterDrop | Game.cs:89-146 | after a drop at (x, y), the panel that fell ends the pass 8 px below its start. The panel at (x, y) keeps its kind and screen position |
| PassOrder.RestKeepsFlags | Game.cs:89-146 | a `destroy` flag raised by the step at (x, y) is still counted in its column when the pass ends |
| PassOrder.DroppedPanelUpdatedTwice | Game.cs:93-146 | when P at (x, y) falls, the rest of the pass updates it twice. It ends at (x, y + 1) with its kind, headed one cell down, 8 px lower. The panel that rose to (x, y) keeps its kind and screen position, so it is not updated |

## Left out

- Rendering: `Draw` (Game.cs:149-187) and the colour table are pure Raylib
  output. Only the table's length, 5 kinds, is used.
- The window and frame loop in Program.cs are left out. The window size only
  fixes the field origin, so `origin` is a parameter of the game state. For
  an 800 x 600 window it is (304, 108).
- Key polling through `IsKeyPressed` and the key bindings becomes a `Keys`
  record of five pressed flags. Their priority order is kept.
- The random generator becomes parameters. The constructor takes the initial
  kinds. The spawn takes a `SpawnDraw`: a column with `0 <= column <= 4` and
  two kinds in [0, 5). The retry loop is not modelled; only its outcome is
  required of the column.
- The float timer is left out. It adds 0.4f per frame until it reaches 100.0f.
  The model uses an integer count of tenths instead: +4 per frame, spawning at
  1000. In single precision the accumulated 0.4f first reaches 100.0f on the
  250th frame, which is the frame the integer count reaches 1000.
- Object identity is not modelled. No two cells ever share a `Panel` object in
  the source, so value semantics is exact. A mark on "the object P" is a mark
  on the cell P currently occupies.
- C# `int` overflow is not modelled: integers are unbounded. Every target stays
  on its own cell and every screen position moves towards it, so coordinates
  stay within a few hundred pixels of the field.
- Multi-frame scenarios are proved only per panel, per cell step and over one
  pass, not over several whole frames. These include a match being fully
  cleared after the delay, and columns compacting under gravity.
- Matching.Run: its own contract states only that every collected neighbour
  matches. Completeness (every matching neighbour is collected, and the length
  is one plus both arms) is proved separately by Matching.RunCollectsMatches,
  so that the cell-step proofs, which unfold `Run`, stay cheap.
- PassOrder.RestKeepsFlags: its guarantee ends with the pass. The next
  frame's spawn (Game.cs:65-76) runs before its destroy pass and overwrites
  cells (column, 0) and (column + 1, 0), as Simulation.AdvanceTimer states,
  so a flagged top-row panel there vanishes without being destroyed.
- Simulation.Tick: its own contract covers the cursor, timer and shape; the
  field is covered by TickKeepsAnchored and the pass lemmas.
