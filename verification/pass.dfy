/** What the update pass as a whole does to one column: a cell step touches
    only its own cell and the one below (beyond raising `matched` flags), so
    the order of the row-major pass decides how often each panel is
    updated. A panel that falls is updated twice in the pass that drops it,
    and the empty panel that rises in its place is not updated again. */
module PassOrder {
  import opened PanelModel
  import opened Grid
  import opened Simulation
  import opened CellStep
  import opened Invariants

  /** A moving panel that stands at `(x, y)` when the pass over row `y`
      starts at a column `x0 <= x` is updated exactly once by that row. */
  lemma {:induction false} MovingPanelUpdatedOnceInRow(c: Cells, y: int, x0: int, x: int, q: Panel)
    requires WellFormed(c) && InBounds(x, y) && 0 <= x0 <= x
    requires Moving(q) && SameButMatched(q, At(c, x, y))
    ensures SameButMatched(Update(q), At(PassRow(c, y, x0), x, y))
    decreases x - x0
  {
    var c1 := StepCell(c, x0, y);
    var r := PassRow(c1, y, x0 + 1);
    assert PassRow(c, y, x0) == r;
    if x0 < x {
      SameButMatchedTrans(q, At(c, x, y), At(c1, x, y));
      MovingPanelUpdatedOnceInRow(c1, y, x0 + 1, x, q);
    } else {
      var s := StagesOf(c, x, y);
      var m := At(s.horizontal, x, y);
      assert SameButMatched(q, m) && At(c1, x, y) == Update(m) by {
        assert !Drops(c, x, y);
        SameButMatchedTrans(q, At(c, x, y), At(s.vertical, x, y));
        SameButMatchedTrans(q, At(s.vertical, x, y), m);
      }
      assert SameButMatched(Update(q), At(c1, x, y));
      SameButMatchedTrans(Update(q), At(c1, x, y), At(r, x, y));
    }
  }

  /** The rest of the pass from cell `(x, y)` on, in the source's order:
      the remainder of row `y`, then every row below. */
  function RestOfPass(c: Cells, x: int, y: int): (r: Cells)
    requires WellFormed(c) && InBounds(x, y)
    ensures WellFormed(r)
  {
    PassRows(PassRow(c, y, x), y + 1)
  }

  /** The rest of the pass from `(x, y)` is the step at `(x, y)` followed by
      the rest of the pass after it. */
  lemma RestOfPassUnfold(c: Cells, x: int, y: int)
    requires WellFormed(c) && InBounds(x, y)
    ensures RestOfPass(c, x, y) == PassRows(PassRow(StepCell(c, x, y), y, x + 1), y + 1)
  {
  }

  /** After the step at `(x, y)`, the rest of the pass changes at most the
      `matched` flag of the panel at `(x, y)`. */
  lemma RestKeepsStepCell(c1: Cells, x: int, y: int)
    requires WellFormed(c1) && InBounds(x, y)
    ensures SameButMatched(At(c1, x, y), At(PassRows(PassRow(c1, y, x + 1), y + 1), x, y))
  {
    var c2 := PassRow(c1, y, x + 1);
    SameButMatchedTrans(At(c1, x, y), At(c2, x, y), At(PassRows(c2, y + 1), x, y));
  }

  /** The pass over rows `y` and below updates a moving panel that stands
      at `(x, y)` when it starts exactly once. */
  lemma PassRowsUpdatesOnce(c: Cells, x: int, y: int, q: Panel)
    requires WellFormed(c) && InBounds(x, y)
    requires Moving(q) && SameButMatched(q, At(c, x, y))
    ensures SameButMatched(Update(q), At(PassRows(c, y), x, y))
  {
    var u := Update(q);
    var c1 := PassRow(c, y, 0);
    var r := PassRows(c1, y + 1);
    assert PassRows(c, y) == r;
    assert SameButMatched(u, At(c1, x, y)) by {
      MovingPanelUpdatedOnceInRow(c, y, 0, x, q);
    }
    SameButMatchedTrans(u, At(c1, x, y), At(r, x, y));
  }

  /** After the step at `(x, y)`, the rest of the pass updates a moving panel
      at `(x, y + 1)` exactly once more, in the step at `(x, y + 1)`. */
  lemma RestUpdatesCellBelowOnce(c1: Cells, x: int, y: int)
    requires WellFormed(c1) && InBounds(x, y) && InBounds(x, y + 1)
    requires Moving(At(c1, x, y + 1))
    ensures SameButMatched(Update(At(c1, x, y + 1)), At(PassRows(PassRow(c1, y, x + 1), y + 1), x, y + 1))
  {
    var q := At(c1, x, y + 1);
    var c2 := PassRow(c1, y, x + 1);
    PassRowsUpdatesOnce(c2, x, y + 1, q);
  }

  /** A panel that was resting at `p`'s position, was sent one cell down
      and has taken one step takes its second step straight down. */
  lemma SecondFallStep(p: Panel, q: Panel)
    requires !Moving(p)
    requires q.targetPos == Vec(p.targetPos.x, p.targetPos.y + CellSize)
    requires q.screenPos == Vec(p.screenPos.x, p.screenPos.y + StepSize)
    ensures Update(q).screenPos == Vec(p.screenPos.x, p.screenPos.y + 2 * StepSize)
  {
  }

  /** The rest of the pass after a drop at `(x, y)`: the panel that fell to
      `(x, y + 1)`, one step into its fall, takes exactly one more step; the
      panel left at `(x, y)` takes none. */
  lemma RestAfterDrop(c1: Cells, x: int, y: int, p: Panel)
    requires WellFormed(c1) && InBounds(x, y) && InBounds(x, y + 1) && !Moving(p)
    requires At(c1, x, y + 1).kind == p.kind
    requires At(c1, x, y + 1).targetPos == Vec(p.targetPos.x, p.targetPos.y + CellSize)
    requires At(c1, x, y + 1).screenPos == Vec(p.screenPos.x, p.screenPos.y + StepSize)
    ensures var rest := PassRows(PassRow(c1, y, x + 1), y + 1);
      && At(rest, x, y + 1).kind == p.kind
      && At(rest, x, y + 1).targetPos == Vec(p.targetPos.x, p.targetPos.y + CellSize)
      && At(rest, x, y + 1).screenPos == Vec(p.screenPos.x, p.screenPos.y + 2 * StepSize)
      && At(rest, x, y).kind == At(c1, x, y).kind
      && At(rest, x, y).screenPos == At(c1, x, y).screenPos
  {
    var rest := PassRows(PassRow(c1, y, x + 1), y + 1);
    var q := At(c1, x, y + 1);
    assert SameButMatched(At(c1, x, y), At(rest, x, y)) by {
      RestKeepsStepCell(c1, x, y);
    }
    assert SameButMatched(Update(q), At(rest, x, y + 1)) by {
      assert Moving(q);
      RestUpdatesCellBelowOnce(c1, x, y);
    }
    SecondFallStep(p, q);
  }

  /** When the panel P at `(x, y)` falls, the rest of the pass updates it
      twice: it ends one cell lower, headed one more cell down, 8 pixels
      below where it started. The panel that rose into `(x, y)` is not
      updated at all: it keeps its kind and its screen position. */
  lemma DroppedPanelUpdatedTwice(c: Cells, x: int, y: int)
    requires WellFormed(c) && InBounds(x, y) && Drops(c, x, y)
    ensures At(RestOfPass(c, x, y), x, y + 1).kind == At(c, x, y).kind
    ensures At(RestOfPass(c, x, y), x, y + 1).targetPos
      == Vec(At(c, x, y).targetPos.x, At(c, x, y).targetPos.y + CellSize)
    ensures At(RestOfPass(c, x, y), x, y + 1).screenPos
      == Vec(At(c, x, y).screenPos.x, At(c, x, y).screenPos.y + 2 * StepSize)
    ensures At(RestOfPass(c, x, y), x, y).kind == At(c, x, y + 1).kind
    ensures At(RestOfPass(c, x, y), x, y).screenPos == At(c, x, y + 1).screenPos
  {
    var p := At(c, x, y);
    var c1 := StepCell(c, x, y);
    assert At(c1, x, y + 1).kind == p.kind
      && At(c1, x, y + 1).targetPos == Vec(p.targetPos.x, p.targetPos.y + CellSize)
      && At(c1, x, y + 1).screenPos == Vec(p.screenPos.x, p.screenPos.y + StepSize)
      && At(c1, x, y) == SwapTo(At(c, x, y + 1), 0, -1) by {
      DroppedPanelSteppedOnce(c, x, y);
    }
    RestAfterDrop(c1, x, y, p);
    RestOfPassUnfold(c, x, y);
  }

  /** No column has fewer flagged panels at the end of the pass than right
      after the step at `(x, y)`, whatever that step raised. */
  lemma RestKeepsFlags(c: Cells, x: int, y: int, i: int)
    requires WellFormed(c) && InBounds(x, y) && 0 <= i < Width
    ensures FlagCount(StepCell(c, x, y)[i]) <= FlagCount(RestOfPass(c, x, y)[i])
  {
    PassRowKeepsFlags(StepCell(c, x, y), y, x + 1, i);
    PassRowsKeepsFlags(PassRow(StepCell(c, x, y), y, x + 1), y + 1, i);
    RestOfPassUnfold(c, x, y);
  }
}
