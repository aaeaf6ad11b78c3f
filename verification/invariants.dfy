/** The invariant every frame keeps: each panel is headed for the pixel
    position of the cell that holds it, its remaining distance is a whole
    number of 4-pixel steps, its destroy delay lies in [0, 5] and its kind is
    a colour or empty; the cursor is on the field and the timer below the
    threshold. Also: the update pass never creates or removes a panel kind
    from a column, it only moves kinds within the column by drops. */
module Invariants {
  import opened PanelModel
  import opened Grid
  import opened Matching
  import opened Simulation

  /** `p` is a well-behaved panel held by the cell whose pixel position is `slot`. */
  predicate PanelOk(p: Panel, slot: Vec) {
    && p.targetPos == slot
    && Aligned(p)
    && 0 <= p.destroyDelay <= DestroyDelayStart
    && Empty <= p.kind < KindCount
  }

  predicate Anchored(c: Cells, origin: Vec)
    requires WellFormed(c)
  {
    forall i, j {:trigger At(c, i, j)} :: 0 <= i < Width && 0 <= j < Height ==>
      PanelOk(At(c, i, j), SlotPos(origin, i, j))
  }

  predicate Valid(g: Game) {
    && WellFormed(g.cells)
    && Anchored(g.cells, g.origin)
    && CursorInRange(g.cursor)
    && 0 <= g.timer < TimerThreshold
  }

  /** The kinds of one column, top to bottom. */
  function Kinds(col: seq<Panel>): seq<int> {
    seq(|col|, k requires 0 <= k < |col| => col[k].kind)
  }

  /** Every column holds the same multiset of kinds in `a` and in `b`. */
  predicate SameColumnKinds(a: Cells, b: Cells)
    requires WellFormed(a) && WellFormed(b)
  {
    forall i :: 0 <= i < Width ==> multiset(Kinds(a[i])) == multiset(Kinds(b[i]))
  }

  lemma UpdateKeepsOk(p: Panel, slot: Vec)
    requires PanelOk(p, slot)
    ensures PanelOk(Update(p), slot)
  {
    var q := Update(p);
    if Moving(p) {
      assert (q.targetPos.x - q.screenPos.x) % StepSize == 0;
      assert (q.targetPos.y - q.screenPos.y) % StepSize == 0;
    }
  }

  lemma FreshOk(slot: Vec, kind: int)
    requires Empty <= kind < KindCount
    ensures PanelOk(Fresh(slot, kind), slot)
  {
  }

  /** The invariant does not look at the `matched` flag. */
  lemma OkIgnoresMatched(p: Panel, q: Panel, slot: Vec)
    requires PanelOk(p, slot) && SameButMatched(p, q)
    ensures PanelOk(q, slot)
  {
    assert q.screenPos == p.screenPos && q.targetPos == p.targetPos;
    assert q.kind == p.kind && q.destroyDelay == p.destroyDelay;
  }

  /** The constructor establishes the invariant, given kinds in range. */
  lemma InitValid(origin: Vec, kinds: seq<seq<int>>)
    requires |kinds| == Width && forall x :: 0 <= x < Width ==> |kinds[x]| == Height
    requires forall x, y :: 0 <= x < Width && Height / 2 < y < Height ==> 0 <= kinds[x][y] < KindCount
    ensures Valid(Init(origin, kinds))
  {
    var g := Init(origin, kinds);
    forall i, j | 0 <= i < Width && 0 <= j < Height
      ensures PanelOk(At(g.cells, i, j), SlotPos(origin, i, j))
    {
      assert InBounds(i, j);
    }
  }

  lemma SwapKeepsAnchored(c: Cells, origin: Vec, cursor: Vec)
    requires WellFormed(c) && CursorInRange(cursor) && Anchored(c, origin)
    ensures Anchored(SwapPanels(c, cursor), origin)
  {
    var r := SwapPanels(c, cursor);
    forall i, j | 0 <= i < Width && 0 <= j < Height
      ensures PanelOk(At(r, i, j), SlotPos(origin, i, j))
    {
      if Vec(i, j) == cursor {
        assert At(r, i, j) == SwapTo(At(c, i + 1, j), -1, 0);
        assert PanelOk(At(c, i + 1, j), SlotPos(origin, i + 1, j));
      } else if Vec(i, j) == Vec(cursor.x + 1, cursor.y) {
        assert At(r, i, j) == SwapTo(At(c, i - 1, j), 1, 0);
        assert PanelOk(At(c, i - 1, j), SlotPos(origin, i - 1, j));
      }
    }
  }

  lemma DropKeepsAnchored(c: Cells, origin: Vec, x: int, y: int)
    requires WellFormed(c) && InBounds(x, y) && InBounds(x, y + 1) && Anchored(c, origin)
    ensures Anchored(DropPanel(c, x, y), origin)
  {
    var r := DropPanel(c, x, y);
    forall i, j | 0 <= i < Width && 0 <= j < Height
      ensures PanelOk(At(r, i, j), SlotPos(origin, i, j))
    {
      if Vec(i, j) == Vec(x, y) {
        assert At(r, i, j) == SwapTo(At(c, i, j + 1), 0, -1);
        assert PanelOk(At(c, i, j + 1), SlotPos(origin, i, j + 1));
      } else if Vec(i, j) == Vec(x, y + 1) {
        assert At(r, i, j) == SwapTo(At(c, i, j - 1), 0, 1);
        assert PanelOk(At(c, i, j - 1), SlotPos(origin, i, j - 1));
      }
    }
  }

  lemma ScanKeepsAnchored(c: Cells, origin: Vec, pos: Vec, x: int, y: int, dx: int, dy: int, kind: int)
    requires WellFormed(c) && InBounds(pos.x, pos.y) && Anchored(c, origin)
    ensures Anchored(Scan(c, pos, x, y, dx, dy, kind), origin)
  {
    var r := Scan(c, pos, x, y, dx, dy, kind);
    forall i, j | 0 <= i < Width && 0 <= j < Height
      ensures PanelOk(At(r, i, j), SlotPos(origin, i, j))
    {
      assert InBounds(i, j);
      OkIgnoresMatched(At(c, i, j), At(r, i, j), SlotPos(origin, i, j));
    }
  }

  lemma StepCellKeepsAnchored(c: Cells, origin: Vec, x: int, y: int)
    requires WellFormed(c) && InBounds(x, y) && Anchored(c, origin)
    ensures Anchored(StepCell(c, x, y), origin)
  {
    var p := At(c, x, y);
    var c1 := if Drops(c, x, y) then DropPanel(c, x, y) else c;
    if Drops(c, x, y) {
      DropKeepsAnchored(c, origin, x, y);
    }
    var pos := PanelSlot(c, x, y);
    var c2 := Scan(c1, pos, x, y, 0, 1, p.kind);
    ScanKeepsAnchored(c1, origin, pos, x, y, 0, 1, p.kind);
    var c3 := Scan(c2, pos, x, y, 1, 0, p.kind);
    ScanKeepsAnchored(c2, origin, pos, x, y, 1, 0, p.kind);
    UpdateKeepsOk(At(c3, pos.x, pos.y), SlotPos(origin, pos.x, pos.y));
    var r := Put(c3, pos.x, pos.y, Update(At(c3, pos.x, pos.y)));
    assert r == StepCell(c, x, y);
    forall i, j | 0 <= i < Width && 0 <= j < Height
      ensures PanelOk(At(r, i, j), SlotPos(origin, i, j))
    {
      assert InBounds(i, j);
    }
  }

  lemma {:induction false} PassRowKeepsAnchored(c: Cells, origin: Vec, y: int, x: int)
    requires WellFormed(c) && 0 <= y < Height && 0 <= x <= Width && Anchored(c, origin)
    ensures Anchored(PassRow(c, y, x), origin)
    decreases Width - x
  {
    if x < Width {
      StepCellKeepsAnchored(c, origin, x, y);
      PassRowKeepsAnchored(StepCell(c, x, y), origin, y, x + 1);
    }
  }

  lemma {:induction false} PassRowsKeepsAnchored(c: Cells, origin: Vec, y: int)
    requires WellFormed(c) && 0 <= y <= Height && Anchored(c, origin)
    ensures Anchored(PassRows(c, y), origin)
    decreases Height - y
  {
    var r := PassRows(c, y);
    assert WellFormed(r);
    if y < Height {
      var c1 := PassRow(c, y, 0);
      PassRowKeepsAnchored(c, origin, y, 0);
      PassRowsKeepsAnchored(c1, origin, y + 1);
      assert r == PassRows(c1, y + 1);
    } else {
      assert r == c;
    }
  }

  lemma AdvanceTimerKeepsAnchored(g: Game, d: SpawnDraw)
    requires WellFormed(g.cells) && DrawOk(d) && Anchored(g.cells, g.origin)
    ensures Anchored(AdvanceTimer(g, d).cells, g.origin)
    ensures 0 <= g.timer < TimerThreshold ==> 0 <= AdvanceTimer(g, d).timer < TimerThreshold
  {
    var r := AdvanceTimer(g, d);
    forall i, j | 0 <= i < Width && 0 <= j < Height
      ensures PanelOk(At(r.cells, i, j), SlotPos(g.origin, i, j))
    {
      if g.timer + TimerIncrement >= TimerThreshold
        && Vec(i, j) != Vec(d.column, 0) && Vec(i, j) != Vec(d.column + 1, 0) {
        assert At(r.cells, i, j) == At(g.cells, i, j);
      }
    }
  }

  lemma ClearKeepsAnchored(c: Cells, origin: Vec)
    requires WellFormed(c) && Anchored(c, origin)
    ensures Anchored(ClearDestroyed(c, origin), origin)
  {
    var r := ClearDestroyed(c, origin);
    forall i, j | 0 <= i < Width && 0 <= j < Height
      ensures PanelOk(At(r, i, j), SlotPos(origin, i, j))
    {
      assert InBounds(i, j);
      if At(c, i, j).destroy {
        FreshOk(SlotPos(origin, i, j), Empty);
      } else {
        assert At(r, i, j) == At(c, i, j);
      }
    }
  }

  lemma ApplyKeepsAnchored(g: Game, cmd: Command)
    requires WellFormed(g.cells) && CursorInRange(g.cursor) && Anchored(g.cells, g.origin)
    ensures Anchored(Apply(g, cmd).cells, g.origin)
  {
    if cmd == SwapCommand {
      SwapKeepsAnchored(g.cells, g.origin, g.cursor);
    }
  }

  lemma TickKeepsAnchored(g: Game, keys: Keys, d: SpawnDraw)
    requires WellFormed(g.cells) && CursorInRange(g.cursor) && DrawOk(d)
    requires Anchored(g.cells, g.origin)
    ensures Anchored(Tick(g, keys, d).cells, g.origin)
  {
    var g1 := Apply(g, Input(keys));
    ApplyKeepsAnchored(g, Input(keys));
    var g2 := AdvanceTimer(g1, d);
    AdvanceTimerKeepsAnchored(g1, d);
    var g3 := ClearStage(g2);
    ClearKeepsAnchored(g2.cells, g2.origin);
    PassRowsKeepsAnchored(g3.cells, g3.origin, 0);
    assert Tick(g, keys, d) == PassStage(g3);
  }

  /** Every frame keeps the invariant. */
  lemma TickPreservesValid(g: Game, keys: Keys, d: SpawnDraw)
    requires Valid(g) && DrawOk(d)
    ensures Valid(Tick(g, keys, d))
  {
    TickKeepsAnchored(g, keys, d);
  }

  /** Panels that agree on every kind give every column the same kinds. */
  lemma KindsAgree(a: Cells, b: Cells)
    requires WellFormed(a) && WellFormed(b)
    requires forall i, j :: InBounds(i, j) ==> At(a, i, j).kind == At(b, i, j).kind
    ensures forall i :: 0 <= i < Width ==> Kinds(a[i]) == Kinds(b[i])
  {
    forall i | 0 <= i < Width
      ensures Kinds(a[i]) == Kinds(b[i])
    {
      forall k | 0 <= k < Height
        ensures Kinds(a[i])[k] == Kinds(b[i])[k]
      {
        assert InBounds(i, k);
      }
    }
  }

  /** Exchanging two entries of a sequence keeps its multiset. */
  lemma SwapKeepsMultiset<T>(s: seq<T>, a: int, b: int)
    requires 0 <= a < |s| && 0 <= b < |s|
    ensures multiset(s[a := s[b]][b := s[a]]) == multiset(s)
  {
    var t := s[a := s[b]];
    assert multiset(t) == multiset(s) - multiset{s[a]} + multiset{s[b]};
    assert multiset(t[b := s[a]]) == multiset(t) - multiset{t[b]} + multiset{s[a]};
  }

  /** The column a drop works on: its kinds with rows `y` and `y + 1` exchanged. */
  lemma DropColumnKinds(c: Cells, x: int, y: int)
    requires WellFormed(c) && InBounds(x, y) && InBounds(x, y + 1)
    ensures Kinds(DropPanel(c, x, y)[x]) == Kinds(c[x])[y := c[x][y + 1].kind][y + 1 := c[x][y].kind]
  {
    var r := DropPanel(c, x, y);
    var t := Kinds(c[x])[y := c[x][y + 1].kind][y + 1 := c[x][y].kind];
    forall k | 0 <= k < Height
      ensures Kinds(r[x])[k] == t[k]
    {
      assert InBounds(x, k);
      if k != y && k != y + 1 {
        assert Vec(x, k) !in {Vec(x, y), Vec(x, y + 1)};
        assert At(r, x, k) == At(c, x, k);
      }
    }
  }

  /** Every column a drop does not work on keeps its kinds. */
  lemma DropOtherColumnKinds(c: Cells, x: int, y: int, i: int)
    requires WellFormed(c) && InBounds(x, y) && InBounds(x, y + 1)
    requires 0 <= i < Width && i != x
    ensures Kinds(DropPanel(c, x, y)[i]) == Kinds(c[i])
  {
    var r := DropPanel(c, x, y);
    forall k | 0 <= k < Height
      ensures Kinds(r[i])[k] == Kinds(c[i])[k]
    {
      assert InBounds(i, k);
      assert Vec(i, k) !in {Vec(x, y), Vec(x, y + 1)};
      assert At(r, i, k) == At(c, i, k);
    }
  }

  /** A drop exchanges two kinds inside one column. */
  lemma DropKeepsColumnKinds(c: Cells, x: int, y: int)
    requires WellFormed(c) && InBounds(x, y) && InBounds(x, y + 1)
    ensures SameColumnKinds(DropPanel(c, x, y), c)
  {
    var r := DropPanel(c, x, y);
    forall i | 0 <= i < Width
      ensures multiset(Kinds(r[i])) == multiset(Kinds(c[i]))
    {
      if i == x {
        DropColumnKinds(c, x, y);
        SwapKeepsMultiset(Kinds(c[x]), y, y + 1);
      } else {
        DropOtherColumnKinds(c, x, y, i);
      }
    }
  }

  /** One cell step moves kinds only within a column. */
  lemma StepCellKeepsColumnKinds(c: Cells, x: int, y: int)
    requires WellFormed(c) && InBounds(x, y)
    ensures SameColumnKinds(StepCell(c, x, y), c)
  {
    var p := At(c, x, y);
    var c1 := if Drops(c, x, y) then DropPanel(c, x, y) else c;
    if Drops(c, x, y) {
      DropKeepsColumnKinds(c, x, y);
    }
    var pos := PanelSlot(c, x, y);
    var c2 := Scan(c1, pos, x, y, 0, 1, p.kind);
    var c3 := Scan(c2, pos, x, y, 1, 0, p.kind);
    var r := Put(c3, pos.x, pos.y, Update(At(c3, pos.x, pos.y)));
    assert r == StepCell(c, x, y);
    forall i, j | InBounds(i, j)
      ensures At(r, i, j).kind == At(c1, i, j).kind
    {
      assert At(c3, i, j).kind == At(c2, i, j).kind == At(c1, i, j).kind;
    }
    KindsAgree(r, c1);
  }

  lemma {:induction false} PassRowKeepsColumnKinds(c: Cells, y: int, x: int)
    requires WellFormed(c) && 0 <= y < Height && 0 <= x <= Width
    ensures SameColumnKinds(PassRow(c, y, x), c)
    decreases Width - x
  {
    if x < Width {
      StepCellKeepsColumnKinds(c, x, y);
      PassRowKeepsColumnKinds(StepCell(c, x, y), y, x + 1);
    }
  }

  lemma {:induction false} PassRowsKeepsColumnKinds(c: Cells, y: int, i: int)
    requires WellFormed(c) && 0 <= y <= Height && 0 <= i < Width
    ensures multiset(Kinds(PassRows(c, y)[i])) == multiset(Kinds(c[i]))
    decreases Height - y
  {
    if y < Height {
      PassRowKeepsColumnKinds(c, y, 0);
      PassRowsKeepsColumnKinds(PassRow(c, y, 0), y + 1, i);
    }
  }

  /** The rows of the update pass from `y` down neither create nor remove a
      kind in any column; `y = 0` is the whole pass. */
  lemma PassKeepsColumnKinds(c: Cells, y: int)
    requires WellFormed(c) && 0 <= y <= Height
    ensures SameColumnKinds(PassRows(c, y), c)
  {
    forall i | 0 <= i < Width
      ensures multiset(Kinds(PassRows(c, y)[i])) == multiset(Kinds(c[i]))
    {
      PassRowsKeepsColumnKinds(c, y, i);
    }
  }

  /** The `destroy` flags of one column, top to bottom. */
  function Flags(col: seq<Panel>): seq<bool> {
    seq(|col|, k requires 0 <= k < |col| => col[k].destroy)
  }

  /** How many of the flags are raised. */
  function Raised(s: seq<bool>): nat {
    if |s| == 0 then 0 else Raised(s[..|s| - 1]) + (if s[|s| - 1] then 1 else 0)
  }

  /** Counting raised flags is counting `true` in the multiset of flags, so
      the count ignores the order of the flags. */
  lemma {:induction false} RaisedCountsTrue(s: seq<bool>)
    ensures Raised(s) == multiset(s)[true]
  {
    if |s| > 0 {
      var n := |s| - 1;
      RaisedCountsTrue(s[..n]);
      assert s == s[..n] + [s[n]];
    }
  }

  /** How many panels of a column carry `destroy`. */
  function FlagCount(col: seq<Panel>): nat {
    Raised(Flags(col))
  }

  /** A column whose flags are only ever raised, position by position, has
      at least as many flagged panels afterwards. */
  lemma {:induction false} FlagCountMonotone(a: seq<Panel>, b: seq<Panel>)
    requires |a| == |b|
    requires forall k :: 0 <= k < |a| && a[k].destroy ==> b[k].destroy
    ensures FlagCount(a) <= FlagCount(b)
    decreases |a|
  {
    if |a| > 0 {
      var n := |a| - 1;
      FlagCountMonotone(a[..n], b[..n]);
      assert Flags(a)[..n] == Flags(a[..n]);
      assert Flags(b)[..n] == Flags(b[..n]);
    }
  }

  /** The column a drop works on: its flags with rows `y` and `y + 1` exchanged. */
  lemma DropColumnFlags(c: Cells, x: int, y: int)
    requires WellFormed(c) && InBounds(x, y) && InBounds(x, y + 1)
    ensures Flags(DropPanel(c, x, y)[x]) == Flags(c[x])[y := c[x][y + 1].destroy][y + 1 := c[x][y].destroy]
  {
    var r := DropPanel(c, x, y);
    var t := Flags(c[x])[y := c[x][y + 1].destroy][y + 1 := c[x][y].destroy];
    forall k | 0 <= k < Height
      ensures Flags(r[x])[k] == t[k]
    {
      assert InBounds(x, k);
      if k != y && k != y + 1 {
        assert Vec(x, k) !in {Vec(x, y), Vec(x, y + 1)};
        assert At(r, x, k) == At(c, x, k);
      }
    }
  }

  /** Every column a drop does not work on keeps its flags. */
  lemma DropOtherColumnFlags(c: Cells, x: int, y: int, i: int)
    requires WellFormed(c) && InBounds(x, y) && InBounds(x, y + 1)
    requires 0 <= i < Width && i != x
    ensures Flags(DropPanel(c, x, y)[i]) == Flags(c[i])
  {
    var r := DropPanel(c, x, y);
    forall k | 0 <= k < Height
      ensures Flags(r[i])[k] == Flags(c[i])[k]
    {
      assert InBounds(i, k);
      assert Vec(i, k) !in {Vec(x, y), Vec(x, y + 1)};
      assert At(r, i, k) == At(c, i, k);
    }
  }

  /** A drop exchanges two panels of one column, so it keeps every column's
      count of flagged panels. */
  lemma DropKeepsFlagCounts(c: Cells, x: int, y: int, i: int)
    requires WellFormed(c) && InBounds(x, y) && InBounds(x, y + 1) && 0 <= i < Width
    ensures FlagCount(DropPanel(c, x, y)[i]) == FlagCount(c[i])
  {
    if i == x {
      DropColumnFlags(c, x, y);
      SwapKeepsMultiset(Flags(c[x]), y, y + 1);
      RaisedCountsTrue(Flags(c[x])[y := c[x][y + 1].destroy][y + 1 := c[x][y].destroy]);
      RaisedCountsTrue(Flags(c[x]));
    } else {
      DropOtherColumnFlags(c, x, y, i);
    }
  }

  /** One cell step never lowers a column's count of flagged panels. */
  lemma StepCellKeepsFlags(c: Cells, x: int, y: int)
    requires WellFormed(c) && InBounds(x, y)
    ensures forall i :: 0 <= i < Width ==> FlagCount(c[i]) <= FlagCount(StepCell(c, x, y)[i])
  {
    var p := At(c, x, y);
    var c1 := if Drops(c, x, y) then DropPanel(c, x, y) else c;
    var pos := PanelSlot(c, x, y);
    var c2 := Scan(c1, pos, x, y, 0, 1, p.kind);
    var c3 := Scan(c2, pos, x, y, 1, 0, p.kind);
    var r := Put(c3, pos.x, pos.y, Update(At(c3, pos.x, pos.y)));
    assert r == StepCell(c, x, y);
    forall i | 0 <= i < Width
      ensures FlagCount(c[i]) <= FlagCount(r[i])
    {
      if Drops(c, x, y) {
        DropKeepsFlagCounts(c, x, y, i);
      }
      assert FlagCount(c1[i]) == FlagCount(c[i]);
      forall k | 0 <= k < Height && c1[i][k].destroy
        ensures r[i][k].destroy
      {
        assert InBounds(i, k);
        assert At(c2, i, k).destroy == At(c1, i, k).destroy;
        assert At(c3, i, k).destroy == At(c2, i, k).destroy;
      }
      FlagCountMonotone(c1[i], r[i]);
    }
  }

  lemma {:induction false} PassRowKeepsFlags(c: Cells, y: int, x: int, i: int)
    requires WellFormed(c) && 0 <= y < Height && 0 <= x <= Width && 0 <= i < Width
    ensures FlagCount(c[i]) <= FlagCount(PassRow(c, y, x)[i])
    decreases Width - x
  {
    if x < Width {
      StepCellKeepsFlags(c, x, y);
      PassRowKeepsFlags(StepCell(c, x, y), y, x + 1, i);
    }
  }

  lemma {:induction false} PassRowsKeepsFlags(c: Cells, y: int, i: int)
    requires WellFormed(c) && 0 <= y <= Height && 0 <= i < Width
    ensures FlagCount(c[i]) <= FlagCount(PassRows(c, y)[i])
    decreases Height - y
  {
    if y < Height {
      PassRowKeepsFlags(c, y, 0, i);
      PassRowsKeepsFlags(PassRow(c, y, 0), y + 1, i);
    }
  }

  /** Every column ends the update pass with at least as many flagged panels
      as it started with. */
  lemma PassKeepsFlags(c: Cells)
    requires WellFormed(c)
    ensures forall i :: 0 <= i < Width ==> FlagCount(c[i]) <= FlagCount(PassRows(c, 0)[i])
  {
    forall i | 0 <= i < Width
      ensures FlagCount(c[i]) <= FlagCount(PassRows(c, 0)[i])
    {
      PassRowsKeepsFlags(c, 0, i);
    }
  }
}
