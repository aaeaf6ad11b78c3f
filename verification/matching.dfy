/** The vertical and horizontal match scans that Game.cs runs at every cell:
    starting from the current panel, collect up to two matching neighbours
    on each side along one axis, and mark the whole collection when it has at
    least three members. */
module Matching {
  import opened PanelModel
  import opened Grid

  /** The cells the scan adds on one side of `(x, y)`, in direction
      `(dx, dy)`: the nearer neighbour if it matches `kind`, and then the
      farther one only if it matches too. */
  function Arm(c: Cells, x: int, y: int, dx: int, dy: int, kind: int): (r: seq<Vec>)
    requires WellFormed(c)
    ensures |r| <= 2
    ensures |r| >= 1 <==> IsMatch(c, x + dx, y + dy, kind)
    ensures |r| == 2 <==> IsMatch(c, x + dx, y + dy, kind) && IsMatch(c, x + 2 * dx, y + 2 * dy, kind)
    ensures forall i :: 0 <= i < |r| ==> r[i] == Vec(x + (i + 1) * dx, y + (i + 1) * dy)
    ensures forall v :: v in r ==> IsMatch(c, v.x, v.y, kind)
  {
    if IsMatch(c, x + dx, y + dy, kind) then
      var far := if IsMatch(c, x + 2 * dx, y + 2 * dy, kind) then [Vec(x + 2 * dx, y + 2 * dy)] else [];
      [Vec(x + dx, y + dy)] + far
    else []
  }

  /** The collection one scan builds: the current panel, which sits at `pos`,
      then the cells before `(x, y)` on the axis `(dx, dy)`, then those after.
      `pos` is `(x, y)` unless the panel was dropped one row earlier in the
      same cell step; the neighbours are still taken around `(x, y)`. */
  function Run(c: Cells, pos: Vec, x: int, y: int, dx: int, dy: int, kind: int): (r: seq<Vec>)
    requires WellFormed(c)
    ensures 1 <= |r| <= 5 && r[0] == pos
    ensures forall i :: 1 <= i < |r| ==> IsMatch(c, r[i].x, r[i].y, kind)
  {
    [pos] + Arm(c, x, y, -dx, -dy, kind) + Arm(c, x, y, dx, dy, kind)
  }

  /** The collection is complete: besides the current panel it holds exactly
      the matching neighbours the nested tests reach, the nearer one on each
      side when it matches and the farther one when both match. */
  lemma RunCollectsMatches(c: Cells, pos: Vec, x: int, y: int, dx: int, dy: int, kind: int)
    requires WellFormed(c)
    ensures var r := Run(c, pos, x, y, dx, dy, kind);
      && |r| == 1 + |Arm(c, x, y, -dx, -dy, kind)| + |Arm(c, x, y, dx, dy, kind)|
      && (IsMatch(c, x - dx, y - dy, kind) ==> Vec(x - dx, y - dy) in r[1..])
      && (IsMatch(c, x + dx, y + dy, kind) ==> Vec(x + dx, y + dy) in r[1..])
      && (IsMatch(c, x - dx, y - dy, kind) && IsMatch(c, x - 2 * dx, y - 2 * dy, kind) ==>
          Vec(x - 2 * dx, y - 2 * dy) in r[1..])
      && (IsMatch(c, x + dx, y + dy, kind) && IsMatch(c, x + 2 * dx, y + 2 * dy, kind) ==>
          Vec(x + 2 * dx, y + 2 * dy) in r[1..])
  {
    RunCollectsBefore(c, pos, x, y, dx, dy, kind);
    RunCollectsAfter(c, pos, x, y, dx, dy, kind);
  }

  /** The cells before `(x, y)` that the nested tests reach are collected. */
  lemma RunCollectsBefore(c: Cells, pos: Vec, x: int, y: int, dx: int, dy: int, kind: int)
    requires WellFormed(c)
    ensures IsMatch(c, x - dx, y - dy, kind) ==> Vec(x - dx, y - dy) in Run(c, pos, x, y, dx, dy, kind)[1..]
    ensures IsMatch(c, x - dx, y - dy, kind) && IsMatch(c, x - 2 * dx, y - 2 * dy, kind) ==>
      Vec(x - 2 * dx, y - 2 * dy) in Run(c, pos, x, y, dx, dy, kind)[1..]
  {
    var before := Arm(c, x, y, -dx, -dy, kind);
    var after := Arm(c, x, y, dx, dy, kind);
    var r := Run(c, pos, x, y, dx, dy, kind);
    assert r == [pos] + before + after;
    ArmPositions(c, x, y, -dx, -dy, kind);
    if |before| >= 1 {
      assert r[1..][0] == r[1] == before[0];
    }
    if |before| == 2 {
      assert r[1..][1] == r[2] == before[1];
    }
  }

  /** The cells after `(x, y)` that the nested tests reach are collected. */
  lemma RunCollectsAfter(c: Cells, pos: Vec, x: int, y: int, dx: int, dy: int, kind: int)
    requires WellFormed(c)
    ensures IsMatch(c, x + dx, y + dy, kind) ==> Vec(x + dx, y + dy) in Run(c, pos, x, y, dx, dy, kind)[1..]
    ensures IsMatch(c, x + dx, y + dy, kind) && IsMatch(c, x + 2 * dx, y + 2 * dy, kind) ==>
      Vec(x + 2 * dx, y + 2 * dy) in Run(c, pos, x, y, dx, dy, kind)[1..]
  {
    var before := Arm(c, x, y, -dx, -dy, kind);
    var after := Arm(c, x, y, dx, dy, kind);
    var r := Run(c, pos, x, y, dx, dy, kind);
    assert r == [pos] + before + after;
    ArmPositions(c, x, y, dx, dy, kind);
    var n := 1 + |before|;
    if |after| >= 1 {
      assert r[1..][n - 1] == r[n] == after[0];
    }
    if |after| == 2 {
      assert r[1..][n] == r[n + 1] == after[1];
    }
  }

  /** Where one side of the scan puts its cells: the nearer neighbour first,
      then the farther one. */
  lemma ArmPositions(c: Cells, x: int, y: int, dx: int, dy: int, kind: int)
    requires WellFormed(c)
    ensures |Arm(c, x, y, dx, dy, kind)| >= 1 ==> Arm(c, x, y, dx, dy, kind)[0] == Vec(x + dx, y + dy)
    ensures |Arm(c, x, y, dx, dy, kind)| == 2 ==> Arm(c, x, y, dx, dy, kind)[1] == Vec(x + 2 * dx, y + 2 * dy)
  {
  }

  /** Every position of `run` is a cell of the field. */
  predicate AllInBounds(run: seq<Vec>) {
    forall i :: 0 <= i < |run| ==> InBounds(run[i].x, run[i].y)
  }

  /** Sets `matched` on every cell of `run`, and on nothing else. */
  function MarkAll(c: Cells, run: seq<Vec>): (r: Cells)
    requires WellFormed(c) && AllInBounds(run)
    ensures WellFormed(r)
    ensures forall i, j {:trigger At(r, i, j)} :: InBounds(i, j) ==>
      At(r, i, j) == At(c, i, j).(matched := At(c, i, j).matched || Vec(i, j) in run)
    decreases |run|
  {
    if |run| == 0 then c
    else
      var v := run[0];
      var c1 := Put(c, v.x, v.y, At(c, v.x, v.y).(matched := true));
      MarkAll(c1, run[1..])
  }

  /** Marks every collected cell when at least three were collected, and
      leaves the field alone otherwise. */
  function MarkIfRun(c: Cells, run: seq<Vec>): (r: Cells)
    requires WellFormed(c) && AllInBounds(run)
    ensures WellFormed(r)
    ensures forall i, j {:trigger At(r, i, j)} :: InBounds(i, j) ==>
      At(r, i, j) == At(c, i, j).(matched := At(c, i, j).matched || (|run| >= 3 && Vec(i, j) in run))
  {
    if |run| >= 3 then MarkAll(c, run) else c
  }

  /** One scan along the axis `(dx, dy)` around `(x, y)` for the panel at
      `pos`: it only ever raises `matched`, and it raises it exactly on the
      collected cells when there are at least three of them. */
  function Scan(c: Cells, pos: Vec, x: int, y: int, dx: int, dy: int, kind: int): (r: Cells)
    requires WellFormed(c) && InBounds(pos.x, pos.y)
    ensures WellFormed(r)
    ensures forall i, j {:trigger At(r, i, j)} :: InBounds(i, j) ==>
      && SameButMatched(At(c, i, j), At(r, i, j))
      && (At(c, i, j).matched ==> At(r, i, j).matched)
    ensures forall i, j {:trigger At(r, i, j)} :: InBounds(i, j) ==>
      (At(r, i, j).matched <==>
        || At(c, i, j).matched
        || (Vec(i, j) in Run(c, pos, x, y, dx, dy, kind) && |Run(c, pos, x, y, dx, dy, kind)| >= 3))
  {
    var run := Run(c, pos, x, y, dx, dy, kind);
    assert AllInBounds(run) by {
      forall i | 0 <= i < |run| ensures InBounds(run[i].x, run[i].y) {
        if i > 0 { assert IsMatch(c, run[i].x, run[i].y, kind); }
      }
    }
    MarkIfRun(c, run)
  }

  /** When the two cells on either side of `(x, y)` along the axis rest and
      have the scanned kind, the scan marks both of them and the current
      panel's slot `pos`, whatever the state of that panel (`pos` is the
      middle cell itself when the panel did not fall). */
  lemma ScanMarksTriple(c: Cells, pos: Vec, x: int, y: int, dx: int, dy: int, kind: int)
    requires WellFormed(c) && InBounds(pos.x, pos.y)
    requires IsMatch(c, x - dx, y - dy, kind) && IsMatch(c, x + dx, y + dy, kind)
    ensures At(Scan(c, pos, x, y, dx, dy, kind), pos.x, pos.y).matched
    ensures At(Scan(c, pos, x, y, dx, dy, kind), x - dx, y - dy).matched
    ensures At(Scan(c, pos, x, y, dx, dy, kind), x + dx, y + dy).matched
  {
    var run := Run(c, pos, x, y, dx, dy, kind);
    var before := Arm(c, x, y, -dx, -dy, kind);
    var after := Arm(c, x, y, dx, dy, kind);
    assert run == [pos] + before + after;
    assert before[0] == Vec(x - dx, y - dy);
    assert after[0] == Vec(x + dx, y + dy);
    assert run[1 + |before|] == Vec(x + dx, y + dy);
    assert |run| >= 3;
  }

  /** A scan whose collection has fewer than three cells changes nothing. */
  lemma ShortRunNoMark(c: Cells, pos: Vec, x: int, y: int, dx: int, dy: int, kind: int)
    requires WellFormed(c) && InBounds(pos.x, pos.y)
    requires |Run(c, pos, x, y, dx, dy, kind)| < 3
    ensures Scan(c, pos, x, y, dx, dy, kind) == c
  {
    var r := Scan(c, pos, x, y, dx, dy, kind);
    forall i | 0 <= i < Width
      ensures r[i] == c[i]
    {
      forall j | 0 <= j < Height
        ensures r[i][j] == c[i][j]
      {
        assert At(r, i, j) == At(c, i, j);
      }
    }
  }
}
