/** What one cell step of the update pass does, as the source is written:
    which panels it moves, which it marks, and which it updates. */
module CellStep {
  import opened PanelModel
  import opened Grid
  import opened Matching
  import opened Simulation

  /** The intermediate fields of one cell step, named as in `StepCell`. */
  datatype Stages = Stages(dropped: Cells, pos: Vec, vertical: Cells, horizontal: Cells, result: Cells)

  function StagesOf(c: Cells, x: int, y: int): (s: Stages)
    requires WellFormed(c) && InBounds(x, y)
    ensures WellFormed(s.dropped) && WellFormed(s.vertical) && WellFormed(s.horizontal)
  {
    var p := At(c, x, y);
    var c1 := if Drops(c, x, y) then DropPanel(c, x, y) else c;
    var pos := PanelSlot(c, x, y);
    var c2 := Scan(c1, pos, x, y, 0, 1, p.kind);
    var c3 := Scan(c2, pos, x, y, 1, 0, p.kind);
    Stages(c1, pos, c2, c3, Put(c3, pos.x, pos.y, Update(At(c3, pos.x, pos.y))))
  }

  /** When the panel P at `(x, y)` falls, the step leaves at `(x, y)` the
      panel that rose from below, headed one cell up and not updated in this
      step; P sits at `(x, y + 1)`, headed one cell down, and has already
      made its first 4-pixel step. Since the pass reaches `(x, y + 1)` later,
      P is updated a second time in the same pass. */
  lemma DroppedPanelSteppedOnce(c: Cells, x: int, y: int)
    requires WellFormed(c) && InBounds(x, y) && Drops(c, x, y)
    ensures At(StepCell(c, x, y), x, y) == SwapTo(At(c, x, y + 1), 0, -1)
    ensures At(StepCell(c, x, y), x, y + 1).kind == At(c, x, y).kind
    ensures At(StepCell(c, x, y), x, y + 1).targetPos == SwapTo(At(c, x, y), 0, 1).targetPos
    ensures At(StepCell(c, x, y), x, y + 1).screenPos
      == Vec(At(c, x, y).screenPos.x, At(c, x, y).screenPos.y + StepSize)
  {
    var s := StagesOf(c, x, y);
    var p := At(c, x, y);
    assert s.pos == Vec(x, y + 1);
    var q := At(s.dropped, x, y + 1);
    assert q == SwapTo(p, 0, 1);
    assert Moving(q);
    // The scans mark only cells of the runs; (x, y) is in neither run.
    var v := Run(s.dropped, s.pos, x, y, 0, 1, p.kind);
    var h := Run(s.vertical, s.pos, x, y, 1, 0, p.kind);
    assert !IsMatch(s.dropped, x, y + 1, p.kind);
    assert Vec(x, y) !in v by {
      var before := Arm(s.dropped, x, y, 0, -1, p.kind);
      var after := Arm(s.dropped, x, y, 0, 1, p.kind);
      assert v == [s.pos] + before + after;
      assert |after| == 0;
      assert forall k :: 0 <= k < |before| ==> before[k].y < y;
    }
    assert Vec(x, y) !in h by {
      var before := Arm(s.vertical, x, y, -1, 0, p.kind);
      var after := Arm(s.vertical, x, y, 1, 0, p.kind);
      assert h == [s.pos] + before + after;
      assert forall k :: 0 <= k < |before| ==> before[k].x < x;
      assert forall k :: 0 <= k < |after| ==> after[k].x > x;
    }
    assert At(s.vertical, x, y) == At(s.dropped, x, y);
    assert At(s.horizontal, x, y) == At(s.vertical, x, y);
    var m := At(s.horizontal, x, y + 1);
    assert SameButMatched(q, m);
    assert Moving(m);
  }

  /** A panel that does not fall stays at `(x, y)` and is updated exactly
      once by its own step: its kind is kept and its screen position moves
      as one `Update` of P moves it. */
  lemma StayingPanelSteppedOnce(c: Cells, x: int, y: int)
    requires WellFormed(c) && InBounds(x, y) && !Drops(c, x, y)
    ensures At(StepCell(c, x, y), x, y).kind == At(c, x, y).kind
    ensures At(StepCell(c, x, y), x, y).screenPos == Update(At(c, x, y)).screenPos
    ensures At(StepCell(c, x, y), x, y).targetPos == At(c, x, y).targetPos
  {
    var s := StagesOf(c, x, y);
    var p := At(c, x, y);
    assert s.pos == Vec(x, y);
    var m := At(s.horizontal, x, y);
    assert SameButMatched(At(s.vertical, x, y), m);
    assert SameButMatched(p, At(s.vertical, x, y));
    assert SameButMatched(p, m);
  }

  /** The step never clears a `matched` flag: outside the two cells a drop
      exchanges, every matched panel is still matched afterwards, and when a
      drop happens the flag travels with the rising panel. */
  lemma StepCellKeepsMatched(c: Cells, x: int, y: int, i: int, j: int)
    requires WellFormed(c) && InBounds(x, y) && InBounds(i, j)
    requires At(c, i, j).matched
    ensures Drops(c, x, y) && Vec(i, j) == Vec(x, y + 1) ==> At(StepCell(c, x, y), x, y).matched
    ensures !(Drops(c, x, y) && (Vec(i, j) == Vec(x, y) || Vec(i, j) == Vec(x, y + 1))) ==>
      At(StepCell(c, x, y), i, j).matched
  {
    var s := StagesOf(c, x, y);
    if Drops(c, x, y) && Vec(i, j) == Vec(x, y + 1) {
      assert At(s.dropped, x, y).matched;
      assert At(s.vertical, x, y).matched;
      assert At(s.horizontal, x, y).matched;
      if s.pos != Vec(x, y) {
        assert At(s.result, x, y) == At(s.horizontal, x, y);
      }
    }
    if !(Drops(c, x, y) && (Vec(i, j) == Vec(x, y) || Vec(i, j) == Vec(x, y + 1))) {
      assert At(s.dropped, i, j).matched by {
        if Drops(c, x, y) {
          assert Vec(i, j) !in {Vec(x, y), Vec(x, y + 1)};
        }
      }
      assert At(s.vertical, i, j).matched;
      assert At(s.horizontal, i, j).matched;
      if Vec(i, j) == s.pos {
        assert At(s.result, i, j) == Update(At(s.horizontal, i, j));
      } else {
        assert At(s.result, i, j) == At(s.horizontal, i, j);
      }
    }
  }

  /** The step never clears a `destroy` flag: a flagged panel keeps it in
      the cell it occupies after the drop. */
  lemma StepCellKeepsDestroy(c: Cells, x: int, y: int, i: int, j: int)
    requires WellFormed(c) && InBounds(x, y) && InBounds(i, j)
    requires At(c, i, j).destroy
    ensures Drops(c, x, y) && Vec(i, j) == Vec(x, y) ==> At(StepCell(c, x, y), x, y + 1).destroy
    ensures Drops(c, x, y) && Vec(i, j) == Vec(x, y + 1) ==> At(StepCell(c, x, y), x, y).destroy
    ensures !(Drops(c, x, y) && (Vec(i, j) == Vec(x, y) || Vec(i, j) == Vec(x, y + 1))) ==>
      At(StepCell(c, x, y), i, j).destroy
  {
    var s := StagesOf(c, x, y);
    // Where the flagged panel sits once the drop is done.
    var k := if Drops(c, x, y) && Vec(i, j) == Vec(x, y) then Vec(x, y + 1)
      else if Drops(c, x, y) && Vec(i, j) == Vec(x, y + 1) then Vec(x, y)
      else Vec(i, j);
    assert At(s.dropped, k.x, k.y).destroy by {
      if Drops(c, x, y) && Vec(i, j) != Vec(x, y) && Vec(i, j) != Vec(x, y + 1) {
        assert Vec(i, j) !in {Vec(x, y), Vec(x, y + 1)};
      }
    }
    assert At(s.vertical, k.x, k.y).destroy;
    assert At(s.horizontal, k.x, k.y).destroy;
    if k == s.pos {
      assert At(s.result, k.x, k.y) == Update(At(s.horizontal, k.x, k.y));
    } else {
      assert At(s.result, k.x, k.y) == At(s.horizontal, k.x, k.y);
    }
  }

  /** Three vertically consecutive panels of one non-empty kind, the outer two
      resting, are all matched after the step at the middle one. */
  lemma StepCellMarksVerticalTriple(c: Cells, x: int, y: int)
    requires WellFormed(c) && InBounds(x, y)
    requires At(c, x, y).kind != Empty
    requires IsMatch(c, x, y - 1, At(c, x, y).kind) && IsMatch(c, x, y + 1, At(c, x, y).kind)
    ensures At(StepCell(c, x, y), x, y - 1).matched
    ensures At(StepCell(c, x, y), x, y).matched
    ensures At(StepCell(c, x, y), x, y + 1).matched
  {
    var k := At(c, x, y).kind;
    var v := Scan(c, Vec(x, y), x, y, 0, 1, k);
    ScanMarksTriple(c, Vec(x, y), x, y, 0, 1, k);
    var s := StagesOf(c, x, y);
    assert !Drops(c, x, y);
    assert s.dropped == c && s.pos == Vec(x, y);
    assert s.vertical == v;
    MarkedSurvives(c, x, y, x, y - 1);
    MarkedSurvives(c, x, y, x, y);
    MarkedSurvives(c, x, y, x, y + 1);
  }

  /** Three horizontally consecutive panels of one kind, the outer two
      resting, are all matched after the step at the middle one; when the
      middle panel falls in that step it is marked in the cell it fell to.
      The kind may be empty: resting empty cells form runs as well. */
  lemma StepCellMarksHorizontalTriple(c: Cells, x: int, y: int)
    requires WellFormed(c) && InBounds(x, y)
    requires IsMatch(c, x - 1, y, At(c, x, y).kind) && IsMatch(c, x + 1, y, At(c, x, y).kind)
    ensures At(StepCell(c, x, y), x - 1, y).matched
    ensures At(StepCell(c, x, y), x + 1, y).matched
    ensures At(StepCell(c, x, y), x, PanelSlot(c, x, y).y).matched
  {
    var s := StagesOf(c, x, y);
    var k := At(c, x, y).kind;
    assert s.pos == PanelSlot(c, x, y);
    assert s.horizontal == Scan(s.vertical, s.pos, x, y, 1, 0, k);
    SideNeighbourKept(c, x, y, x - 1, k);
    SideNeighbourKept(c, x, y, x + 1, k);
    ScanMarksTriple(s.vertical, s.pos, x, y, 1, 0, k);
    MarkedSurvives(c, x, y, x - 1, y);
    MarkedSurvives(c, x, y, x + 1, y);
    MarkedSurvives(c, x, y, s.pos.x, s.pos.y);
  }

  /** The scans do not test the current panel itself for `Moving`: a panel
      that falls in this step, and is therefore moving, is still marked when
      its two horizontal neighbours at its old row match its kind. */
  lemma FallingPanelCanBeMarked(c: Cells, x: int, y: int)
    requires WellFormed(c) && InBounds(x, y) && Drops(c, x, y)
    requires IsMatch(c, x - 1, y, At(c, x, y).kind) && IsMatch(c, x + 1, y, At(c, x, y).kind)
    ensures At(StepCell(c, x, y), x, y + 1).matched
    ensures Moving(At(StepCell(c, x, y), x, y + 1))
  {
    StepCellMarksHorizontalTriple(c, x, y);
    DroppedPanelSteppedOnce(c, x, y);
  }

  /** The match test does not exclude empty cells: an empty panel on the
      bottom row between two resting empty panels is marked together with
      them by its own step (the middle panel may even be moving). */
  lemma BottomEmptiesGetMarked(c: Cells, x: int)
    requires WellFormed(c) && 1 <= x < Width - 1
    requires At(c, x, Height - 1).kind == Empty
    requires IsMatch(c, x - 1, Height - 1, Empty) && IsMatch(c, x + 1, Height - 1, Empty)
    ensures At(StepCell(c, x, Height - 1), x - 1, Height - 1).matched
    ensures At(StepCell(c, x, Height - 1), x, Height - 1).matched
    ensures At(StepCell(c, x, Height - 1), x + 1, Height - 1).matched
  {
    StepCellMarksHorizontalTriple(c, x, Height - 1);
  }

  /** A match in another column of row `y` survives the drop and the
      vertical scan of the step at `(x, y)`. */
  lemma SideNeighbourKept(c: Cells, x: int, y: int, i: int, k: int)
    requires WellFormed(c) && InBounds(x, y) && i != x
    requires IsMatch(c, i, y, k)
    ensures IsMatch(StagesOf(c, x, y).vertical, i, y, k)
  {
    var s := StagesOf(c, x, y);
    assert Vec(i, y) !in {Vec(x, y), Vec(x, y + 1)};
    assert At(s.dropped, i, y) == At(c, i, y);
    assert SameButMatched(At(s.dropped, i, y), At(s.vertical, i, y));
  }

  /** A flag raised by either scan is still set after the final update. */
  lemma MarkedSurvives(c: Cells, x: int, y: int, i: int, j: int)
    requires WellFormed(c) && InBounds(x, y) && InBounds(i, j)
    requires At(StagesOf(c, x, y).horizontal, i, j).matched
    ensures At(StepCell(c, x, y), i, j).matched
  {
    var s := StagesOf(c, x, y);
    assert s.pos == PanelSlot(c, x, y);
    assert StepCell(c, x, y) == Put(s.horizontal, s.pos.x, s.pos.y, Update(At(s.horizontal, s.pos.x, s.pos.y)));
  }
}
