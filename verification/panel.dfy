/** The state of one grid cell and its per-frame animation and decay
    machine (Panel.cs). A panel is an immutable record here; every method of
    the source class that mutates `this` becomes a function returning the
    updated record. */
module PanelModel {

  /** An integer pair: a screen position in pixels or a grid coordinate. */
  datatype Vec = Vec(x: int, y: int)

  /** Pixels a moving panel travels on each axis per update. */
  const StepSize: int := 4
  /** Pixel edge of one grid cell; `SwapTo` shifts targets by whole cells. */
  const CellSize: int := 32
  /** Updates a matched, resting panel counts down before it asks to be removed. */
  const DestroyDelayStart: int := 5

  /** `kind` is the source's `Type`: a colour index, or -1 for an empty cell. */
  datatype Panel = Panel(
    screenPos: Vec,
    targetPos: Vec,
    kind: int,
    matched: bool,
    destroy: bool,
    destroyDelay: int)

  /** A panel is animating exactly while it has not reached its target. */
  predicate Moving(p: Panel) {
    p.screenPos != p.targetPos
  }

  function Abs(n: int): nat {
    if n < 0 then -n else n
  }

  function Max(a: int, b: int): int {
    if a < b then b else a
  }

  /** The constructor: a panel resting at `pos`, unmatched, with a full delay. */
  function Fresh(pos: Vec, kind: int): (p: Panel)
    ensures p.screenPos == pos && p.targetPos == pos && p.kind == kind
    ensures !Moving(p) && !p.matched && !p.destroy
    ensures p.destroyDelay == DestroyDelayStart
  {
    Panel(pos, pos, kind, false, false, DestroyDelayStart)
  }

  /** `q` is `p` apart, possibly, from its `matched` flag. */
  predicate SameButMatched(p: Panel, q: Panel) {
    q.(matched := p.matched) == p
  }

  lemma SameButMatchedTrans(a: Panel, b: Panel, c: Panel)
    requires SameButMatched(a, b) && SameButMatched(b, c)
    ensures SameButMatched(a, c)
  {
  }

  /** Shifts the screen position by `(dx, dy)` pixels. */
  function Move(p: Panel, dx: int, dy: int): (q: Panel)
    ensures q.screenPos == Vec(p.screenPos.x + dx, p.screenPos.y + dy)
    ensures q.(screenPos := p.screenPos) == p
  {
    p.(screenPos := Vec(p.screenPos.x + dx, p.screenPos.y + dy))
  }

  /** Shifts the target position by `(cx, cy)` whole cells. */
  function SwapTo(p: Panel, cx: int, cy: int): (q: Panel)
    ensures q.targetPos == Vec(p.targetPos.x + cx * CellSize, p.targetPos.y + cy * CellSize)
    ensures q.(targetPos := p.targetPos) == p
  {
    p.(targetPos := Vec(p.targetPos.x + cx * CellSize, p.targetPos.y + cy * CellSize))
  }

  /** `b` is one step from `a` in the direction of `t`, or `a` itself when `a` is on `t`. */
  predicate StepsToward(a: int, b: int, t: int) {
    && (a < t ==> b == a + StepSize)
    && (a > t ==> b == a - StepSize)
    && (a == t ==> b == a)
  }

  /** The signed step the source picks on one axis: towards the target, or 0 on it. */
  function AxisStep(from: int, to: int): (r: int)
    ensures StepsToward(from, from + r, to)
    ensures r == 0 <==> from == to
    ensures r == StepSize || r == -StepSize || r == 0
  {
    if from < to then StepSize else if from > to then -StepSize else 0
  }

  /** One frame of the panel: move towards the target if moving; otherwise,
      if matched, count the destroy delay down, and once it is exhausted
      raise `destroy`. */
  function Update(p: Panel): (q: Panel)
    ensures q.kind == p.kind && q.targetPos == p.targetPos && q.matched == p.matched
    ensures p.destroy ==> q.destroy
    ensures Moving(p) ==>
      && StepsToward(p.screenPos.x, q.screenPos.x, p.targetPos.x)
      && StepsToward(p.screenPos.y, q.screenPos.y, p.targetPos.y)
      && q.destroy == p.destroy && q.destroyDelay == p.destroyDelay
    ensures !Moving(p) ==> q.screenPos == p.screenPos
    ensures !Moving(p) && !p.matched ==> q == p
    ensures !Moving(p) && p.matched && p.destroyDelay > 0 ==>
      q.destroyDelay == p.destroyDelay - 1 && q.destroy == p.destroy
    ensures !Moving(p) && p.matched && p.destroyDelay <= 0 ==>
      q.destroyDelay == p.destroyDelay && q.destroy
    ensures p.destroyDelay >= 0 ==> 0 <= q.destroyDelay <= p.destroyDelay
  {
    if Moving(p) then
      Move(p, AxisStep(p.screenPos.x, p.targetPos.x), AxisStep(p.screenPos.y, p.targetPos.y))
    else if p.matched then
      if p.destroyDelay > 0 then p.(destroyDelay := p.destroyDelay - 1)
      else p.(destroy := true)
    else
      p
  }

  /** `n` consecutive updates of one panel. */
  function Iterate(p: Panel, n: nat): (q: Panel)
    ensures q.kind == p.kind && q.targetPos == p.targetPos && q.matched == p.matched
    ensures p.destroy ==> q.destroy
    ensures p.destroyDelay >= 0 ==> 0 <= q.destroyDelay <= p.destroyDelay
    decreases n
  {
    if n == 0 then p else Iterate(Update(p), n - 1)
  }

  /** The remaining distance to the target is a whole number of steps on both axes. */
  predicate Aligned(p: Panel) {
    && (p.targetPos.x - p.screenPos.x) % StepSize == 0
    && (p.targetPos.y - p.screenPos.y) % StepSize == 0
  }

  /** Chebyshev distance to the target, in pixels. */
  function Distance(p: Panel): nat {
    Max(Abs(p.targetPos.x - p.screenPos.x), Abs(p.targetPos.y - p.screenPos.y))
  }

  lemma DistanceZeroIffResting(p: Panel)
    ensures Distance(p) == 0 <==> !Moving(p)
  {
  }

  /** One update of an aligned moving panel takes exactly one step off every
      non-zero axis distance and never overshoots; the panel stays aligned. */
  lemma UpdateApproaches(p: Panel)
    requires Aligned(p) && Moving(p)
    ensures Aligned(Update(p))
    ensures Abs(Update(p).targetPos.x - Update(p).screenPos.x)
      == Max(Abs(p.targetPos.x - p.screenPos.x) - StepSize, 0)
    ensures Abs(Update(p).targetPos.y - Update(p).screenPos.y)
      == Max(Abs(p.targetPos.y - p.screenPos.y) - StepSize, 0)
    ensures Distance(Update(p)) == Distance(p) - StepSize
  {
    var q := Update(p);
    var dx := p.targetPos.x - p.screenPos.x;
    var dy := p.targetPos.y - p.screenPos.y;
    assert dx != 0 ==> Abs(dx) >= StepSize;
    assert dy != 0 ==> Abs(dy) >= StepSize;
  }

  /** An aligned panel comes to rest after exactly Distance / 4 updates, and
      is moving after every smaller number of them. */
  lemma {:induction false} Arrival(p: Panel, k: nat)
    requires Aligned(p)
    ensures Distance(p) % StepSize == 0
    ensures !Moving(Iterate(p, Distance(p) / StepSize))
    ensures k < Distance(p) / StepSize ==> Moving(Iterate(p, k))
    decreases Distance(p)
  {
    if Moving(p) {
      UpdateApproaches(p);
      var q := Update(p);
      Arrival(q, if k == 0 then 0 else k - 1);
      assert Distance(p) / StepSize == Distance(q) / StepSize + 1;
      if k > 0 && k < Distance(p) / StepSize {
        assert Iterate(p, k) == Iterate(q, k - 1);
      }
    } else {
      DistanceZeroIffResting(p);
    }
  }

  /** A resting, matched panel counts down by one per update and keeps
      `destroy` false while the delay lasts ... */
  lemma {:induction false} CountdownRuns(p: Panel, n: nat)
    requires !Moving(p) && p.matched && !p.destroy
    requires n <= p.destroyDelay
    ensures Iterate(p, n) == p.(destroyDelay := p.destroyDelay - n)
    decreases n
  {
    if n > 0 {
      CountdownRuns(Update(p), n - 1);
    }
  }

  /** ... and raises `destroy` on the update after the delay reached 0. */
  lemma {:induction false} CountdownEnds(p: Panel)
    requires !Moving(p) && p.matched && !p.destroy
    requires p.destroyDelay >= 0
    ensures !Iterate(p, p.destroyDelay).destroy
    ensures Iterate(p, p.destroyDelay + 1).destroy
  {
    CountdownRuns(p, p.destroyDelay);
    var r := Iterate(p, p.destroyDelay);
    IterateSplit(p, p.destroyDelay, 1);
    assert Iterate(r, 1) == Update(r);
  }

  /** Updating n + m times is updating n times, then m times. */
  lemma {:induction false} IterateSplit(p: Panel, n: nat, m: nat)
    ensures Iterate(p, n + m) == Iterate(Iterate(p, n), m)
    decreases n
  {
    if n > 0 {
      IterateSplit(Update(p), n - 1, m);
    }
  }

  /** A freshly constructed panel that gets matched raises `destroy` on
      exactly its sixth resting update. */
  lemma FreshMatchedDestroyedOnSixthUpdate(pos: Vec, kind: int)
    ensures !Iterate(Fresh(pos, kind).(matched := true), 5).destroy
    ensures Iterate(Fresh(pos, kind).(matched := true), 6).destroy
  {
    CountdownEnds(Fresh(pos, kind).(matched := true));
  }

  /** Shifting a target by a cell and back restores the panel. */
  lemma SwapToInverse(p: Panel, cx: int, cy: int)
    ensures SwapTo(SwapTo(p, cx, cy), -cx, -cy) == p
  {
  }

  /** Moving by an offset and back restores the panel. */
  lemma MoveInverse(p: Panel, dx: int, dy: int)
    ensures Move(Move(p, dx, dy), -dx, -dy) == p
  {
  }
}
