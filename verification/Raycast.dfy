// The DDA ray walk of src/raycast.cpp over the reals.
module Raycast {
  import opened Grid
  import opened Canvas

  datatype Ray = Ray(px: real, py: real, dx: real, dy: real)

  const SENTINEL: real := 1000000000000000000000000000000.0

  // ---- One axis: position p, direction d ----

  // Products are named so that proofs can reason about them linearly.
  function Times(a: real, d: real): real {
    a * d
  }

  function At(p: real, d: real, t: real): real {
    p + Times(t, d)
  }

  function Delta(d: real): real {
    var q := if d == 0.0 then SENTINEL else 1.0 / d;
    if q < 0.0 then -q else q
  }

  function StepOf(d: real): int {
    if d < 0.0 then -1 else 1
  }

  function FirstSide(p: real, d: real): real {
    var m := Trunc(p);
    if d < 0.0 then (p - m as real) * Delta(d) else (m as real + 1.0 - p) * Delta(d)
  }

  // The gridline by which the ray leaves column (or row) m along this axis.
  function ExitLine(m: int, d: real): real {
    if d < 0.0 then m as real else m as real + 1.0
  }

  // side is the parameter at which the ray leaves column m.
  ghost predicate SideIs(p: real, d: real, m: int, side: real) {
    if d == 0.0 then m == Trunc(p) && side == FirstSide(p, d)
    else At(p, d, side) == ExitLine(m, d)
  }

  lemma DeltaInverts(d: real)
    requires d != 0.0
    ensures Delta(d) > 0.0 && Times(Delta(d), d) == StepOf(d) as real
  {
    var q := 1.0 / d;
    assert q * d == 1.0;
    assert d > 0.0 ==> q > 0.0;
    assert d < 0.0 ==> q < 0.0;
  }

  lemma TimesOrder(a: real, b: real, d: real)
    ensures a <= b && d >= 0.0 ==> Times(a, d) <= Times(b, d)
    ensures a <= b && d <= 0.0 ==> Times(b, d) <= Times(a, d)
    ensures a < b && d > 0.0 ==> Times(a, d) < Times(b, d)
    ensures a < b && d < 0.0 ==> Times(b, d) < Times(a, d)
    ensures Times(0.0, d) == 0.0
  {
    assert (b - a) * d == b * d - a * d;
  }

  lemma TimesSum(a: real, b: real, d: real)
    ensures Times(a + b, d) == Times(a, d) + Times(b, d)
    ensures Times(a - b, d) == Times(a, d) - Times(b, d)
  {
  }

  // Starts the walk treats as in column 0 or above, along one axis: from (-1, 0),
  // which truncation puts in column 0, only if the ray does not lead further out.
  predicate Ahead(p: real, d: real) {
    -1.0 < p && (p >= 0.0 || d >= 0.0)
  }

  // The gridline below column m as truncation cuts the axis: seen from a start
  // below 0, column 0 begins at -1.
  function Line(p: real, m: int): real {
    if p < 0.0 && m <= 0 then m as real - 1.0 else m as real
  }

  lemma FirstSideIs(p: real, d: real)
    requires Ahead(p, d)
    ensures SideIs(p, d, Trunc(p), FirstSide(p, d))
    ensures FirstSide(p, d) >= 0.0
  {
    var m := Trunc(p) as real;
    var gap := if d < 0.0 then p - m else m + 1.0 - p;
    if d != 0.0 {
      DeltaInverts(d);
      assert gap * Delta(d) * d == gap * (Delta(d) * d);
    }
    assert gap * Delta(d) >= 0.0;
  }

  // Stepping to the next column moves the exit parameter on by Delta.
  lemma SideSteps(p: real, d: real, m: int, side: real)
    requires d != 0.0 && SideIs(p, d, m, side)
    ensures SideIs(p, d, m + StepOf(d), side + Delta(d))
  {
    hide Times;
    DeltaInverts(d);
    TimesSum(side, Delta(d), d);
  }

  // Between the parameters of its two gridlines the ray is in column m.
  lemma BetweenLines(p: real, d: real, m: int, side: real, t: real)
    requires Ahead(p, d) && (p < 0.0 ==> m >= 0) && SideIs(p, d, m, side) && 0.0 <= t <= side
    requires m == Trunc(p) || (d != 0.0 && side - Delta(d) <= t)
    ensures Line(p, m) <= At(p, d, t) <= Line(p, m + 1)
  {
    if d == 0.0 {
      assert Times(t, d) == 0.0;
    } else {
      hide Times;
      DeltaInverts(d);
      TimesOrder(t, side, d);
      TimesOrder(0.0, t, d);
      TimesOrder(side - Delta(d), t, d);
      TimesSum(side, Delta(d), d);
    }
  }

  // Before the ray crosses the entry line of column m it is not in column m.
  lemma BeforeEntry(p: real, d: real, m: int, side: real, t: real)
    requires d != 0.0 && SideIs(p, d, m, side) && t < side - Delta(d) && (p < 0.0 ==> m >= 1)
    ensures !(Line(p, m) <= At(p, d, t) <= Line(p, m + 1))
  {
    hide Times;
    DeltaInverts(d);
    TimesSum(side, Delta(d), d);
    TimesOrder(t, side - Delta(d), d);
  }

  lemma SideBound(p: real, d: real, m: int, side: real)
    requires d != 0.0 && SideIs(p, d, m, side) && -1.0 < p < 16.0 && 0 <= m < 16
    ensures side <= Times(17.0, Delta(d))
  {
    var bound := Times(17.0, Delta(d));
    assert Times(bound, d) == 17.0 * Times(Delta(d), d);
    hide Times;
    DeltaInverts(d);
    TimesOrder(bound, side, d);
  }

  // ---- The cells of a ray, in the order it meets them ----

  ghost predicate InClosed(r: Ray, t: real, c: Cell) {
    && Line(r.px, c.x) <= At(r.px, r.dx, t) <= Line(r.px, c.x + 1)
    && Line(r.py, c.y) <= At(r.py, r.dy, t) <= Line(r.py, c.y + 1)
  }

  ghost predicate InInterior(r: Ray, t: real, c: Cell) {
    && Line(r.px, c.x) < At(r.px, r.dx, t) < Line(r.px, c.x + 1)
    && Line(r.py, c.y) < At(r.py, r.dy, t) < Line(r.py, c.y + 1)
  }

  // When the ray reaches the gridline that bounds column m ahead of it.
  function ExitParam(p: real, d: real, m: int): real
    requires d != 0.0
  {
    (ExitLine(m, d) - p) / d
  }

  lemma ExitParamIs(p: real, d: real, m: int, side: real)
    requires d != 0.0 && SideIs(p, d, m, side)
    ensures side == ExitParam(p, d, m)
  {
  }

  // The ray leaves c through a vertical gridline. A tie goes to the horizontal one.
  predicate LeavesByX(r: Ray, c: Cell) {
    r.dx != 0.0 && (r.dy == 0.0 || ExitParam(r.px, r.dx, c.x) < ExitParam(r.py, r.dy, c.y))
  }

  predicate Moves(r: Ray) {
    r.dx != 0.0 || r.dy != 0.0
  }

  function Successor(r: Ray, c: Cell): Cell {
    if LeavesByX(r, c) then Cell(c.x + StepOf(r.dx), c.y) else Cell(c.x, c.y + StepOf(r.dy))
  }

  function ExitTime(r: Ray, c: Cell): real
    requires Moves(r)
  {
    if LeavesByX(r, c) then ExitParam(r.px, r.dx, c.x) else ExitParam(r.py, r.dy, c.y)
  }

  // The ray is in c from t to t', leaves it there into c', and was not in c' before.
  ghost predicate Crosses(r: Ray, c: Cell, t: real, c': Cell, t': real)
    requires Moves(r)
  {
    && t <= t' == ExitTime(r, c) && c' == Successor(r, c)
    && (forall u :: t <= u <= t' ==> InClosed(r, u, c))
    && InClosed(r, t', c')
    && forall u :: 0.0 <= u < t' ==> !InClosed(r, u, c')
  }

  // The first n crossings: cell k is met over the whole interval [ts[k], ts[k + 1]].
  ghost predicate Follows(r: Ray, cells: seq<Cell>, ts: seq<real>) {
    && Moves(r) && |cells| == |ts| > 0 && cells[0] == CellOf(r.px, r.py) && ts[0] == 0.0
    && forall k :: 0 <= k < |cells| - 1 ==> Crosses(r, cells[k], ts[k], cells[k + 1], ts[k + 1])
  }

  // What the walk has done when it stops: it followed the ray through open cells
  // into the first one that is solid or off the map.
  ghost predicate Walked(world: Map, r: Ray, cells: seq<Cell>, ts: seq<real>, hit: bool)
    requires IsMap(world)
  {
    var n := |cells| - 1;
    && Follows(r, cells, ts) && n >= 1
    && (forall k :: 1 <= k < n ==> Open(world, cells[k]))
    && if hit then InGrid(cells[n]) && Solid(world, cells[n]) else !InGrid(cells[n])
  }

  // 0 when the last gridline crossed was vertical, 1 when it was horizontal.
  ghost predicate LastSide(cells: seq<Cell>, side: int) {
    |cells| >= 2 && side == if cells[|cells| - 2].x != cells[|cells| - 1].x then 0 else 1
  }

  ghost predicate OnGrid(r: Ray) {
    -1.0 < r.px < 16.0 && -1.0 < r.py < 16.0
  }

  ghost predicate Forward(r: Ray) {
    Ahead(r.px, r.dx) && Ahead(r.py, r.dy)
  }

  // What one column learns: the walk along the ray stops in cell c at perp. A ray
  // that leads further out from below 0 finds the gridline behind it and stops.
  ghost predicate Reports(world: Map, r: Ray, hit: bool, c: Cell, side: int, perp: real)
    requires IsMap(world)
  {
    if Forward(r) then
      exists cells, ts :: Walked(world, r, cells, ts, hit) && LastSide(cells, side)
                          && c == cells[|cells| - 1] && perp == ts[|ts| - 1]
    else LeavesBackward(r, hit, c, side, perp)
  }

  ghost predicate LeavesBackward(r: Ray, hit: bool, c: Cell, side: int, perp: real) {
    var sx, sy := FirstSide(r.px, r.dx), FirstSide(r.py, r.dy);
    && !hit && !InGrid(c) && perp < 0.0
    && c == NextCell(r, CellOf(r.px, r.py), sx, sy)
    && if sx < sy then side == 0 && perp == sx else side == 1 && perp == sy
  }

  // ---- The outcome is determined ----

  lemma {:induction false} SamePrefix(r: Ray, cells: seq<Cell>, ts: seq<real>,
                                      cells': seq<Cell>, ts': seq<real>, k: nat)
    requires Follows(r, cells, ts) && Follows(r, cells', ts') && k < |cells| && k < |cells'|
    ensures cells[k] == cells'[k] && ts[k] == ts'[k]
  {
    if k > 0 {
      SamePrefix(r, cells, ts, cells', ts', k - 1);
      assert Crosses(r, cells[k - 1], ts[k - 1], cells[k], ts[k]);
      assert Crosses(r, cells'[k - 1], ts'[k - 1], cells'[k], ts'[k]);
    }
  }

  // One world and one ray allow one walk.
  lemma WalkUnique(world: Map, r: Ray, cells: seq<Cell>, ts: seq<real>, hit: bool,
                   cells': seq<Cell>, ts': seq<real>, hit': bool)
    requires IsMap(world) && Walked(world, r, cells, ts, hit) && Walked(world, r, cells', ts', hit')
    ensures cells == cells' && ts == ts' && hit == hit'
  {
    hide Crosses;
    var n, n' := |cells| - 1, |cells'| - 1;
    forall k | 0 <= k <= n && k <= n'
      ensures cells[k] == cells'[k] && ts[k] == ts'[k]
    {
      hide *;
      SamePrefix(r, cells, ts, cells', ts', k);
    }
    assert n < n' ==> Open(world, cells'[n]);
    assert n' < n ==> Open(world, cells[n']);
  }

  // Cell, face and distance are functions of world and ray.
  lemma ReportUnique(world: Map, r: Ray, hit: bool, c: Cell, side: int, perp: real,
                     hit': bool, c': Cell, side': int, perp': real)
    requires IsMap(world) && Reports(world, r, hit, c, side, perp) && Reports(world, r, hit', c', side', perp')
    ensures hit == hit' && c == c' && side == side' && perp == perp'
  {
    if Forward(r) {
      var cells, ts :| Walked(world, r, cells, ts, hit) && LastSide(cells, side)
                       && c == cells[|cells| - 1] && perp == ts[|ts| - 1];
      var cells', ts' :| Walked(world, r, cells', ts', hit') && LastSide(cells', side')
                         && c' == cells'[|cells'| - 1] && perp' == ts'[|ts'| - 1];
      hide Walked;
      WalkUnique(world, r, cells, ts, hit, cells', ts', hit');
    }
  }

  lemma {:induction false} TimesAscend(r: Ray, cells: seq<Cell>, ts: seq<real>, k: nat)
    requires Follows(r, cells, ts) && k < |ts|
    ensures ts[k] >= 0.0
  {
    if k > 0 {
      TimesAscend(r, cells, ts, k - 1);
      assert Crosses(r, cells[k - 1], ts[k - 1], cells[k], ts[k]);
    }
  }

  // The reported distance is negative exactly for the rays that stop behind the player.
  lemma SignOfDistance(world: Map, r: Ray, hit: bool, c: Cell, side: int, perp: real)
    requires IsMap(world) && Reports(world, r, hit, c, side, perp)
    ensures perp < 0.0 <==> !Forward(r)
    ensures perp < 0.0 ==> !hit && !InGrid(c)
  {
    if Forward(r) {
      var cells, ts :| Walked(world, r, cells, ts, hit) && LastSide(cells, side)
                       && c == cells[|cells| - 1] && perp == ts[|ts| - 1];
      TimesAscend(r, cells, ts, |ts| - 1);
    }
  }

  // ---- No wall is skipped ----

  // The intervals of the visited cells abut: every parameter up to the last lies in one.
  lemma {:induction false} IntervalOf(r: Ray, cells: seq<Cell>, ts: seq<real>, n: nat, t: real) returns (k: nat)
    requires Follows(r, cells, ts) && 1 <= n < |ts| && 0.0 <= t <= ts[n]
    ensures k < n && ts[k] <= t <= ts[k + 1] && InClosed(r, t, cells[k])
  {
    assert Crosses(r, cells[n - 1], ts[n - 1], cells[n], ts[n]);
    if n == 1 || ts[n - 1] <= t { k := n - 1; } else { k := IntervalOf(r, cells, ts, n - 1, t); }
  }

  // No wall is skipped: before the stop, the ray is inside no solid cell and inside
  // no cell beyond the grid, except that the start cell itself is never tested.
  lemma NoWallSkipped(world: Map, r: Ray, cells: seq<Cell>, ts: seq<real>, hit: bool, t: real, c: Cell)
    requires IsMap(world) && Walked(world, r, cells, ts, hit)
    requires 0.0 <= t <= ts[|ts| - 1] && InInterior(r, t, c) && c != CellOf(r.px, r.py)
    ensures Open(world, c)
  {
    hide Crosses;
    var k := IntervalOf(r, cells, ts, |ts| - 1, t);
    OneInterior(r, t, c, cells[k]);
  }

  // A point inside a cell lies in no other cell.
  lemma OneInterior(r: Ray, t: real, c: Cell, d: Cell)
    requires InInterior(r, t, c) && InClosed(r, t, d)
    ensures c == d
  {
    hide At;
  }

  // ---- The walk ----

  // A zero component never wins a comparison: its sentinel distance lies beyond
  // every gridline the other axis can reach inside the map.
  ghost predicate Steerable(r: Ray) {
    && Moves(r)
    && (r.dx == 0.0 ==> FirstSide(r.px, r.dx) >= Times(17.0, Delta(r.dy)))
    && (r.dy == 0.0 ==> FirstSide(r.py, r.dy) > Times(17.0, Delta(r.dx)))
  }

  // c was entered at t and is left at the smaller of sx and sy.
  ghost predicate Inside(r: Ray, c: Cell, sx: real, sy: real, t: real) {
    && SideIs(r.px, r.dx, c.x, sx) && SideIs(r.py, r.dy, c.y, sy)
    && 0.0 <= t <= sx && t <= sy
    && (r.px < 0.0 ==> c.x >= 0) && (r.py < 0.0 ==> c.y >= 0)
    && (c.x == Trunc(r.px) || (r.dx != 0.0 && sx - Delta(r.dx) <= t))
    && (c.y == Trunc(r.py) || (r.dy != 0.0 && sy - Delta(r.dy) <= t))
  }

  // The walk at a loop head.
  ghost predicate Walking(world: Map, r: Ray, cells: seq<Cell>, ts: seq<real>, sx: real, sy: real)
    requires IsMap(world)
  {
    && Follows(r, cells, ts) && InGrid(cells[|cells| - 1])
    && (forall k :: 1 <= k < |cells| ==> Open(world, cells[k]))
    && Inside(r, cells[|cells| - 1], sx, sy, ts[|ts| - 1])
  }

  lemma InsideIsClosed(r: Ray, c: Cell, sx: real, sy: real, t: real, u: real)
    requires Forward(r) && Inside(r, c, sx, sy, t) && t <= u <= sx && u <= sy
    ensures InClosed(r, u, c)
  {
    BetweenLines(r.px, r.dx, c.x, sx, u);
    BetweenLines(r.py, r.dy, c.y, sy, u);
  }

  lemma WalkStarts(world: Map, r: Ray)
    requires IsMap(world) && OnGrid(r) && Forward(r) && Moves(r)
    ensures Walking(world, r, [CellOf(r.px, r.py)], [0.0], FirstSide(r.px, r.dx), FirstSide(r.py, r.dy))
  {
    FirstSideIs(r.px, r.dx);
    FirstSideIs(r.py, r.dy);
  }

  lemma WalkStopsBehind(r: Ray)
    requires OnGrid(r) && !Forward(r)
    ensures var c, sx, sy := CellOf(r.px, r.py), FirstSide(r.px, r.dx), FirstSide(r.py, r.dy);
            if sx < sy then LeavesBackward(r, false, NextCell(r, c, sx, sy), 0, sx)
            else LeavesBackward(r, false, NextCell(r, c, sx, sy), 1, sy)
  {
    SideBehind(r.px, r.dx);
    SideBehind(r.py, r.dy);
  }

  lemma SideBehind(p: real, d: real)
    requires -1.0 < p
    ensures FirstSide(p, d) < 0.0 <==> !Ahead(p, d)
    ensures !Ahead(p, d) ==> Trunc(p) == 0 && StepOf(d) == -1
  {
    if Ahead(p, d) {
      FirstSideIs(p, d);
    } else {
      DeltaInverts(d);
      assert -p * Delta(d) > 0.0;
    }
  }

  // The cell the walk enters next.
  function NextCell(r: Ray, c: Cell, sx: real, sy: real): Cell {
    if sx < sy then Cell(c.x + StepOf(r.dx), c.y) else Cell(c.x, c.y + StepOf(r.dy))
  }

  // The comparison of the two side distances picks the gridline the ray meets first.
  lemma StepInside(r: Ray, c: Cell, sx: real, sy: real, t: real)
    requires OnGrid(r) && Forward(r) && Steerable(r) && InGrid(c) && Inside(r, c, sx, sy, t)
    ensures LeavesByX(r, c) <==> sx < sy
    ensures NextCell(r, c, sx, sy) == Successor(r, c) && ExitTime(r, c) == if sx < sy then sx else sy
    ensures if sx < sy then r.dx != 0.0 && Inside(r, Successor(r, c), sx + Delta(r.dx), sy, sx)
            else r.dy != 0.0 && Inside(r, Successor(r, c), sx, sy + Delta(r.dy), sy)
  {
    hide ExitParam;
    if r.dx != 0.0 {
      DeltaInverts(r.dx);
      SideBound(r.px, r.dx, c.x, sx);
      ExitParamIs(r.px, r.dx, c.x, sx);
      SideSteps(r.px, r.dx, c.x, sx);
    }
    if r.dy != 0.0 {
      DeltaInverts(r.dy);
      SideBound(r.py, r.dy, c.y, sy);
      ExitParamIs(r.py, r.dy, c.y, sy);
      SideSteps(r.py, r.dy, c.y, sy);
    }
  }

  // Where a component is zero, the step taken leads to a cell the ray meets exactly
  // when the sentinel distance does not win the comparison.
  lemma ZeroAxisStep(r: Ray, c: Cell, sx: real, sy: real, t: real)
    requires Forward(r) && Inside(r, c, sx, sy, t) && (r.dx == 0.0) != (r.dy == 0.0)
    ensures (exists u :: t <= u && InClosed(r, u, NextCell(r, c, sx, sy)))
            <==> (if r.dx == 0.0 then sx >= sy else sx < sy)
  {
    var next := NextCell(r, c, sx, sy);
    if r.dx == 0.0 && sx >= sy {
      SideSteps(r.py, r.dy, c.y, sy);
      DeltaInverts(r.dy);
      BetweenLines(r.py, r.dy, c.y + StepOf(r.dy), sy + Delta(r.dy), sy);
      BetweenLines(r.px, r.dx, c.x, sx, sy);
      assert InClosed(r, sy, next);
    } else if r.dy == 0.0 && sx < sy {
      SideSteps(r.px, r.dx, c.x, sx);
      DeltaInverts(r.dx);
      BetweenLines(r.px, r.dx, c.x + StepOf(r.dx), sx + Delta(r.dx), sx);
      BetweenLines(r.py, r.dy, c.y, sy, sx);
      assert InClosed(r, sx, next);
    } else {
      forall u | t <= u
        ensures !InClosed(r, u, next)
      {
        assert r.dx == 0.0 ==> Times(u, r.dx) == 0.0;
        assert r.dy == 0.0 ==> Times(u, r.dy) == 0.0;
      }
    }
  }

  // One step of the code's comparison is one crossing of the ray.
  lemma StepCrosses(r: Ray, c: Cell, sx: real, sy: real, t: real)
    requires OnGrid(r) && Forward(r) && Steerable(r) && InGrid(c) && Inside(r, c, sx, sy, t)
    ensures Crosses(r, c, t, Successor(r, c), ExitTime(r, c))
  {
    StepInside(r, c, sx, sy, t);
    var next, u := Successor(r, c), ExitTime(r, c);
    var nx := if sx < sy then sx + Delta(r.dx) else sx;
    var ny := if sx < sy then sy else sy + Delta(r.dy);
    forall v | t <= v <= u
      ensures InClosed(r, v, c)
    {
      InsideIsClosed(r, c, sx, sy, t, v);
    }
    InsideIsClosed(r, next, nx, ny, u, u);
    forall v | 0.0 <= v < u
      ensures !InClosed(r, v, next)
    {
      if sx < sy { BeforeEntry(r.px, r.dx, next.x, nx, v); } else { BeforeEntry(r.py, r.dy, next.y, ny, v); }
    }
  }

  method Dda(flat: seq<nat>, r: Ray) returns (hit: bool, mapX: int, mapY: int, side: int, perp: real)
    requires |flat| == MAP_CELLS && OnGrid(r) && Steerable(r)
    ensures Reports(Rows(flat), r, hit, Cell(mapX, mapY), side, perp)
  {
    ghost var world := Rows(flat);
    mapX, mapY := Trunc(r.px), Trunc(r.py);
    var deltaX, deltaY := Delta(r.dx), Delta(r.dy);
    var stepX, sideX := StepOf(r.dx), FirstSide(r.px, r.dx);
    var stepY, sideY := StepOf(r.dy), FirstSide(r.py, r.dy);
    hit, side := false, 0;
    ghost var cells, ts := [Cell(mapX, mapY)], [0.0];
    if Forward(r) { WalkStarts(world, r); } else { WalkStopsBehind(r); }
    hide Walking;
    hide Walked;
    hide Steerable;
    hide Delta;
    hide FirstSide;
    hide LastSide;
    hide Forward;
    hide Rows;
    hide LeavesBackward;
    while true
      invariant !hit && |cells| > 0 && Cell(mapX, mapY) == cells[|cells| - 1] && InGrid(Cell(mapX, mapY))
      invariant if Forward(r) then Walking(world, r, cells, ts, sideX, sideY)
                else Cell(mapX, mapY) == CellOf(r.px, r.py)
                     && sideX == FirstSide(r.px, r.dx) && sideY == FirstSide(r.py, r.dy)
      invariant deltaX == Delta(r.dx) && deltaY == Delta(r.dy) && stepX == StepOf(r.dx) && stepY == StepOf(r.dy)
      decreases (if r.dx < 0.0 then mapX else 16 - mapX) + if r.dy < 0.0 then mapY else 16 - mapY
    {
      ghost var before, passed, sx, sy := cells, ts, sideX, sideY;
      if sideX < sideY {
        sideX := sideX + deltaX;
        mapX := mapX + stepX;
        side := 0;
      } else {
        sideY := sideY + deltaY;
        mapY := mapY + stepY;
        side := 1;
      }
      ghost var u := if side == 0 then sx else sy;
      cells, ts := cells + [Cell(mapX, mapY)], ts + [u];
      if Forward(r) { Extended(world, r, before, passed, sx, sy, u, Cell(mapX, mapY), sideX, sideY, side); }
      if mapX >= MAP_WIDTH || mapY >= MAP_HEIGHT || mapX < 0 || mapY < 0 { break; }
      var voxel := VoxelAt(flat, mapX, mapY);
      if voxel > 0 {
        hit := true;
        break;
      }
    }
    perp := if side == 0 then sideX - deltaX else sideY - deltaY;
  }

  // One step of the walk: either the walk goes on, or it has found what it reports.
  lemma Extended(world: Map, r: Ray, cells: seq<Cell>, ts: seq<real>, sx: real, sy: real, u: real, c: Cell,
                 sx': real, sy': real, side: int)
    requires IsMap(world) && OnGrid(r) && Forward(r) && Steerable(r) && Walking(world, r, cells, ts, sx, sy)
    requires c == NextCell(r, cells[|cells| - 1], sx, sy)
    requires if sx < sy then side == 0 && u == sx && sx' == sx + Delta(r.dx) && sy' == sy
             else side == 1 && u == sy && sx' == sx && sy' == sy + Delta(r.dy)
    ensures Open(world, c) ==> Walking(world, r, cells + [c], ts + [u], sx', sy')
    ensures InGrid(c) && Solid(world, c) ==> Walked(world, r, cells + [c], ts + [u], true)
    ensures !InGrid(c) ==> Walked(world, r, cells + [c], ts + [u], false)
    ensures LastSide(cells + [c], side) && (cells + [c])[|cells|] == c && (ts + [u])[|ts|] == u
  {
    var last := cells[|cells| - 1];
    StepInside(r, last, sx, sy, ts[|ts| - 1]);
    StepCrosses(r, last, sx, sy, ts[|ts| - 1]);
    hide Crosses;
    hide Inside;
    var all, times := cells + [c], ts + [u];
    forall k | 0 <= k < |all| - 1
      ensures Crosses(r, all[k], times[k], all[k + 1], times[k + 1])
    {
      assert k + 1 < |cells| ==> Crosses(r, cells[k], ts[k], cells[k + 1], ts[k + 1]);
    }
  }

  // ---- The rendered columns ----

  const COLOR_GOLD: nat := 0x00FFD700
  const COLOR_SHADOW: nat := 0x00B5A200

  // Binary32 coordinates below 16 stay at least 2^-24 short of the next gridline.
  const FLOAT_GAP: real := 1.0 / 16777216.0

  function CameraX(x: int): real {
    2.0 * x as real / 800.0 - 1.0
  }

  function ColumnRay(px: real, py: real, x: int): Ray {
    var c := CameraX(x);
    Ray(px, py, 1.0 - c * c, c)
  }

  // The fan of rays: from column 0 at dy = -1 the directions turn by 1/400 a column,
  // column 400 looks along x, and the ends of the directions lie on a parabola.
  lemma Fan(px: real, py: real, x: int)
    ensures var r, next := ColumnRay(px, py, x), ColumnRay(px, py, x + 1);
            && r.px == px && r.py == py
            && next.dy == r.dy + 1.0 / 400.0
            && r.dx == (1.0 - r.dy) * (1.0 + r.dy)
            && (x == 0 ==> r.dy == -1.0)
    ensures ColumnRay(px, py, 400).dx == 1.0 && ColumnRay(px, py, 400).dy == 0.0
  {
  }

  // Columns further right look further towards positive y.
  lemma FanTurns(px: real, py: real, x: int, y: int)
    requires x < y
    ensures ColumnRay(px, py, x).dy < ColumnRay(px, py, y).dy
  {
  }

  ghost predicate FloatPosition(p: real) {
    -1.0 < p < 16.0 && Trunc(p) as real + 1.0 - p >= FLOAT_GAP
  }

  // Both zero components the renderer produces (columns 0 and 400) are harmless.
  lemma ColumnRaySteerable(px: real, py: real, x: int)
    requires FloatPosition(px) && FloatPosition(py) && 0 <= x < SCREEN_WIDTH
    ensures OnGrid(ColumnRay(px, py, x)) && Steerable(ColumnRay(px, py, x))
  {
    var c := CameraX(x);
    assert -1.0 <= c < 1.0;
    assert Times(1.0 + c, 1.0 - c) == 1.0 - c * c;
    TimesOrder(0.0, 1.0 + c, 1.0 - c);
  }

  // No wall is drawn as if it were nearer than 0.1.
  function Clamped(perp: real): real {
    if perp <= 0.1 then 0.1 else perp
  }

  // Rows lit for a wall at distance perp: the strip of height 600 / perp about the
  // middle of the screen, clipped to it.
  function HalfHeight(perp: real): int {
    Trunc(SCREEN_HEIGHT as real / Clamped(perp)) / 2
  }

  predicate Lit(perp: real, y: int) {
    0 <= y < SCREEN_HEIGHT && 300 - HalfHeight(perp) <= y <= 300 + HalfHeight(perp)
  }

  // A nearer wall covers every row a farther one covers.
  lemma NearerIsTaller(p: real, q: real, y: int)
    requires p <= q && Lit(q, y)
    ensures Lit(p, y)
  {
    var a, b := Clamped(p), Clamped(q);
    var u, v := SCREEN_HEIGHT as real / a, SCREEN_HEIGHT as real / b;
    assert Times(u, a) == Times(b, v) && Times(a, v) == Times(v, a);
    assert u >= v by {
      hide Times;
      TimesOrder(a, b, v);
      TimesOrder(u, v, a);
    }
    TruncMonotone(v, u);
  }

  // The strip is 600 / perp rows high, up to the rounding of two divisions, and lies
  // evenly about row 300; below distance 0.1 it is as high as at 0.1.
  lemma StripHeight(perp: real, y: int)
    ensures 600.0 - Times(2.0, Clamped(perp)) < Times(2.0 * HalfHeight(perp) as real, Clamped(perp)) <= 600.0
    ensures Lit(perp, y) <==> 0 <= y < 600 && -HalfHeight(perp) <= y - 300 <= HalfHeight(perp)
  {
    var d, half := Clamped(perp), HalfHeight(perp);
    var q := SCREEN_HEIGHT as real / d;
    assert Times(q, d) == 600.0 && q >= 0.0;
    hide Times;
    var rows := Trunc(q);
    assert 2 * half <= rows <= 2 * half + 1;
    assert rows as real <= q < rows as real + 1.0;
    var twice := 2.0 * half as real;
    hide HalfHeight;
    hide Lit;
    TimesOrder(twice, q, d);
    TimesOrder(q, twice + 2.0, d);
    TimesSum(twice, 2.0, d);
  }

  datatype Column = Column(hit: bool, side: int, perp: real)

  ghost predicate ColumnIs(world: Map, r: Ray, col: Column)
    requires IsMap(world)
  {
    exists c :: Reports(world, r, col.hit, c, col.side, col.perp)
  }

  lemma ColumnUnique(world: Map, r: Ray, a: Column, b: Column)
    requires IsMap(world) && ColumnIs(world, r, a) && ColumnIs(world, r, b)
    ensures a == b
  {
    hide Reports;
    var c :| Reports(world, r, a.hit, c, a.side, a.perp);
    var d :| Reports(world, r, b.hit, d, b.side, b.perp);
    ReportUnique(world, r, a.hit, c, a.side, a.perp, b.hit, d, b.side, b.perp);
  }

  function Shade(col: Column): nat {
    if col.side == 1 then COLOR_SHADOW else COLOR_GOLD
  }

  // Faces crossed in x are gold, faces crossed in y are in shadow.
  lemma ShadeOfFace(world: Map, r: Ray, cells: seq<Cell>, ts: seq<real>, col: Column)
    requires IsMap(world) && Walked(world, r, cells, ts, col.hit) && LastSide(cells, col.side)
    ensures var n := |cells| - 1;
            Shade(col) == if cells[n].y == cells[n - 1].y then 0x00FFD700 else 0x00B5A200
  {
    var n := |cells| - 1;
    assert Crosses(r, cells[n - 1], ts[n - 1], cells[n], ts[n]);
  }

  ghost predicate Painted(before: seq<nat>, now: seq<nat>, cols: seq<Column>) {
    && |before| == |now| == TOTAL_PIXELS
    && forall x, y :: OnScreen(x, y) ==>
         now[Pixel(x, y)] == if x < |cols| && Lit(cols[x].perp, y) then Shade(cols[x]) else before[Pixel(x, y)]
  }

  // Draws one strip from top to bottom.
  method DrawColumn(buffer: array<nat>, x: int, col: Column)
    requires buffer.Length == TOTAL_PIXELS && 0 <= x < SCREEN_WIDTH
    modifies buffer
    ensures forall i, y :: OnScreen(i, y) ==>
              buffer[Pixel(i, y)] == if i == x && Lit(col.perp, y) then Shade(col) else old(buffer[Pixel(i, y)])
  {
    var perp := if col.perp <= 0.1 then 0.1 else col.perp;
    var q := SCREEN_HEIGHT as real / perp;
    assert q >= 0.0;
    var lineHeight := Trunc(q);
    var drawStart := if 300 - lineHeight / 2 < 0 then 0 else 300 - lineHeight / 2;
    var drawEnd := if lineHeight / 2 + 300 >= SCREEN_HEIGHT then SCREEN_HEIGHT - 1 else lineHeight / 2 + 300;
    assert lineHeight / 2 == HalfHeight(col.perp);
    var y := drawStart;
    while y <= drawEnd
      invariant 0 <= drawStart <= y <= drawEnd + 1 <= SCREEN_HEIGHT
      invariant forall i, j :: OnScreen(i, j) ==>
                  buffer[Pixel(i, j)] == if i == x && drawStart <= j < y then Shade(col) else old(buffer[Pixel(i, j)])
    {
      PutPixel(buffer, x, y, Shade(col));
      y := y + 1;
    }
  }

  // render_voxel_world: every column shows the first wall on its ray.
  method RenderVoxelWorld(flat: seq<nat>, px: real, py: real, buffer: array<nat>) returns (ghost cols: seq<Column>)
    requires |flat| == MAP_CELLS && FloatPosition(px) && FloatPosition(py) && buffer.Length == TOTAL_PIXELS
    modifies buffer
    ensures |cols| == SCREEN_WIDTH && Painted(old(buffer[..]), buffer[..], cols)
    ensures forall x :: 0 <= x < |cols| ==> ColumnIs(Rows(flat), ColumnRay(px, py, x), cols[x])
  {
    hide Lit;
    hide Reports;
    hide Steerable;
    hide OnGrid;
    hide Rows;
    cols := [];
    var x := 0;
    while x < SCREEN_WIDTH
      invariant 0 <= x <= SCREEN_WIDTH && |cols| == x && Painted(old(buffer[..]), buffer[..], cols)
      invariant forall i :: 0 <= i < |cols| ==> ColumnIs(Rows(flat), ColumnRay(px, py, i), cols[i])
    {
      ColumnRaySteerable(px, py, x);
      var hit, mapX, mapY, side, perp := Dda(flat, ColumnRay(px, py, x));
      var col := Column(hit, side, perp);
      ghost var was := buffer[..];
      DrawColumn(buffer, x, col);
      cols := cols + [col];
      x := x + 1;
    }
  }
}
