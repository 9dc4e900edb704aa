// src/collision.cpp over the reals: sliding movement that tests one leading-edge
// point per axis.
module Collision {
  import opened Grid
  import opened Math3d

  const PLAYER_RADIUS: real := 0.2

  // A coordinate in a solid cell or outside the grid.
  predicate Blocked(grid: Map, x: real, y: real)
    requires IsMap(grid)
  {
    !Open(grid, CellOf(x, y))
  }

  // The point tested for a move d along one axis that would end at target.
  function Probe(target: real, d: real): real {
    if d > 0.0 then target + PLAYER_RADIUS else target - PLAYER_RADIUS
  }

  function Slide(grid: Map, pos: Vec3, delta: Vec3): Vec3
    requires IsMap(grid)
  {
    var toX, toY := pos.x + delta.x, pos.y + delta.y;
    var x := if delta.x != 0.0 && !Blocked(grid, Probe(toX, delta.x), pos.y) then toX else pos.x;
    var y := if delta.y != 0.0 && !Blocked(grid, x, Probe(toY, delta.y)) then toY else pos.y;
    Vec3(x, y, pos.z)
  }

  // x is settled first, and y is then decided from the new x.
  lemma SlidesXThenY(grid: Map, pos: Vec3, delta: Vec3)
    requires IsMap(grid)
    ensures Slide(grid, pos, delta) ==
              Slide(grid, Slide(grid, pos, Vec3(delta.x, 0.0, 0.0)), Vec3(0.0, delta.y, 0.0))
    ensures Slide(grid, pos, delta).z == pos.z
  {
  }

  // The point 0.2 ahead of a coordinate, in the direction of travel.
  function Ahead(q: real, d: real): real {
    if d > 0.0 then q + 0.2 else q - 0.2
  }

  // A move along one axis is carried out if and only if the point 0.2 ahead of its
  // target is in an empty cell; otherwise nothing moves.
  lemma OneAxisReaches(grid: Map, pos: Vec3, d: real)
    requires IsMap(grid) && d != 0.0
    ensures var q := pos.x + d;
            Slide(grid, pos, Vec3(d, 0.0, 0.0)) ==
              if Open(grid, CellOf(Ahead(q, d), pos.y)) then pos.(x := q) else pos
    ensures var q := pos.y + d;
            Slide(grid, pos, Vec3(0.0, d, 0.0)) ==
              if Open(grid, CellOf(pos.x, Ahead(q, d))) then pos.(y := q) else pos
  {
  }

  // At a corner the order decides: with only (2, 2) solid, the diagonal move from
  // (1.7, 1.7) slides along x.
  lemma CornerSlidesAlongX(grid: Map)
    requires IsMap(grid) && Solid(grid, Cell(2, 2)) && Open(grid, Cell(2, 1)) && Open(grid, Cell(1, 2))
    ensures Slide(grid, Vec3(1.7, 1.7, 0.0), Vec3(0.5, 0.5, 0.0)) == Vec3(2.2, 1.7, 0.0)
  {
    TruncIs(2.4, 2);
    TruncIs(1.7, 1);
    TruncIs(2.2, 2);
  }

  // check_wall_collision on the flat map.
  method CheckWallCollision(flat: seq<nat>, checkX: real, checkY: real) returns (wall: bool)
    requires |flat| == MAP_CELLS
    ensures wall == Blocked(Rows(flat), checkX, checkY)
    ensures wall <==> !(-1.0 < checkX < 16.0 && -1.0 < checkY < 16.0) || flat[16 * Trunc(checkY) + Trunc(checkX)] > 0
  {
    var mapX, mapY := Trunc(checkX), Trunc(checkY);
    if mapX < 0 || mapX >= MAP_WIDTH || mapY < 0 || mapY >= MAP_HEIGHT { return true; }
    var voxel := VoxelAt(flat, mapX, mapY);
    wall := voxel > 0;
  }

  // apply_aabb_clipping
  method ApplyAabbClipping(flat: seq<nat>, currentPos: Vec3, movementDelta: Vec3) returns (finalPos: Vec3)
    requires |flat| == MAP_CELLS
    ensures finalPos == Slide(Rows(flat), currentPos, movementDelta)
  {
    hide Blocked;
    finalPos := currentPos;
    var targetX := currentPos.x + movementDelta.x;
    if movementDelta.x > 0.0 {
      var wall := CheckWallCollision(flat, targetX + PLAYER_RADIUS, currentPos.y);
      if !wall { finalPos := finalPos.(x := targetX); }
    } else if movementDelta.x < 0.0 {
      var wall := CheckWallCollision(flat, targetX - PLAYER_RADIUS, currentPos.y);
      if !wall { finalPos := finalPos.(x := targetX); }
    }
    var targetY := currentPos.y + movementDelta.y;
    if movementDelta.y > 0.0 {
      var wall := CheckWallCollision(flat, finalPos.x, targetY + PLAYER_RADIUS);
      if !wall { finalPos := finalPos.(y := targetY); }
    } else if movementDelta.y < 0.0 {
      var wall := CheckWallCollision(flat, finalPos.x, targetY - PLAYER_RADIUS);
      if !wall { finalPos := finalPos.(y := targetY); }
    }
    finalPos := finalPos.(z := currentPos.z);
  }

  // Slow enough that centre and leading edge together cross at most one gridline.
  predicate Slow(d: real) {
    -(1.0 - PLAYER_RADIUS) <= d <= 1.0 - PLAYER_RADIUS
  }

  // Moves along one axis that can end with the centre in a wall. Cell 0 is twice as
  // wide as the others, so the two directions differ.
  predicate Tunnels(d: real) {
    1.0 - PLAYER_RADIUS < d < 16.0 || 1.0 - PLAYER_RADIUS < -d < 15.0
  }

  // Moves along one axis that cannot leave a component of empty cells: slow ones,
  // and those so long that the probe is off the map wherever they start.
  predicate Contained(d: real) {
    Slow(d) || d >= 17.0 - PLAYER_RADIUS || -d >= 17.0 - PLAYER_RADIUS
  }

  // Along one axis: the centre ends in its old cell or in the probed one, and
  // those are the same or neighbours.
  lemma AxisMove(p: real, d: real)
    requires d != 0.0 && Slow(d)
    ensures var a, b, c := Trunc(p), Trunc(p + d), Trunc(Probe(p + d, d));
            (b == a || b == c) && (c == a || c == a + 1 || a == c + 1)
  {
    if d > 0.0 {
      OneLine(p, p + d + PLAYER_RADIUS);
      TruncMonotone(p, p + d);
      TruncMonotone(p + d, p + d + PLAYER_RADIUS);
    } else {
      OneLine(p + d - PLAYER_RADIUS, p);
      TruncMonotone(p + d - PLAYER_RADIUS, p + d);
      TruncMonotone(p + d, p);
    }
  }

  lemma OneLine(x: real, y: real)
    requires x <= y <= x + 1.0
    ensures Trunc(x) <= Trunc(y) <= Trunc(x) + 1
  {
    TruncMonotone(x, y);
    TruncMonotone(y, x + 1.0);
    assert Trunc(x + 1.0) <= Trunc(x) + 1;
  }

  predicate OnAxis(m: int) {
    0 <= m < 16
  }

  // Within the grid, a move that is not of the tunnelling lengths ends in its old
  // cell or in the probed one, and a contained one ends there or next to it.
  lemma AxisSafe(p: real, d: real)
    requires d != 0.0 && !Tunnels(d) && OnAxis(Trunc(p)) && OnAxis(Trunc(Probe(p + d, d)))
    ensures var a, b, c := Trunc(p), Trunc(p + d), Trunc(Probe(p + d, d));
            (b == a || b == c) && (Contained(d) ==> c == a || c == a + 1 || a == c + 1)
  {
    if Slow(d) { AxisMove(p, d); }
  }

  // ---- Connected empty space ----

  ghost predicate Path(grid: Map, cells: seq<Cell>, a: Cell, b: Cell)
    requires IsMap(grid)
  {
    && |cells| > 0 && cells[0] == a && cells[|cells| - 1] == b
    && (forall k :: 0 <= k < |cells| ==> Open(grid, cells[k]))
    && forall k :: 0 <= k < |cells| - 1 ==> Adjacent(cells[k], cells[k + 1])
  }

  // a and b are empty cells of one 4-connected component.
  ghost predicate Connected(grid: Map, a: Cell, b: Cell)
    requires IsMap(grid)
  {
    exists cells :: Path(grid, cells, a, b)
  }

  lemma ConnectedStep(grid: Map, a: Cell, b: Cell, c: Cell)
    requires IsMap(grid) && Connected(grid, a, b) && Open(grid, c) && (b == c || Adjacent(b, c))
    ensures Connected(grid, a, c)
  {
    var cells :| Path(grid, cells, a, b);
    if b != c {
      var more := cells + [c];
      forall k | 0 <= k < |more| - 1
        ensures Adjacent(more[k], more[k + 1])
      {
        assert k + 1 < |cells| ==> Adjacent(cells[k], cells[k + 1]);
      }
      assert Path(grid, more, a, c);
    }
  }

  // One contained move of a centre in empty space stays in its component.
  lemma SlideStaysConnected(grid: Map, start: Cell, pos: Vec3, delta: Vec3)
    requires IsMap(grid) && Contained(delta.x) && Contained(delta.y)
    requires Connected(grid, start, CellOf(pos.x, pos.y)) && Open(grid, CellOf(pos.x, pos.y))
    ensures var p := Slide(grid, pos, delta);
            Open(grid, CellOf(p.x, p.y)) && Connected(grid, start, CellOf(p.x, p.y))
  {
    var p := Slide(grid, pos, delta);
    if p.x != pos.x {
      AxisSafe(pos.x, delta.x);
      ConnectedStep(grid, start, CellOf(pos.x, pos.y), CellOf(p.x, pos.y));
    }
    if p.y != pos.y {
      AxisSafe(pos.y, delta.y);
      ConnectedStep(grid, start, CellOf(p.x, pos.y), CellOf(p.x, p.y));
    }
  }

  // One move that does not tunnel ends in empty space.
  lemma SlideStaysOpen(grid: Map, pos: Vec3, delta: Vec3)
    requires IsMap(grid) && !Tunnels(delta.x) && !Tunnels(delta.y) && Open(grid, CellOf(pos.x, pos.y))
    ensures var p := Slide(grid, pos, delta); Open(grid, CellOf(p.x, p.y))
  {
    var p := Slide(grid, pos, delta);
    if p.x != pos.x { AxisSafe(pos.x, delta.x); }
    if p.y != pos.y { AxisSafe(pos.y, delta.y); }
  }

  // The positions after each of a sequence of moves.
  function Walk(grid: Map, pos: Vec3, deltas: seq<Vec3>): Vec3
    requires IsMap(grid)
  {
    if deltas == [] then pos else Slide(grid, Walk(grid, pos, deltas[..|deltas| - 1]), deltas[|deltas| - 1])
  }

  // No tunnelling: over every run of contained moves from an empty cell, slow ones in
  // particular, the centre is never in a solid cell or outside the grid, and never
  // leaves its component.
  lemma {:induction false} NoTunnelling(grid: Map, pos: Vec3, deltas: seq<Vec3>)
    requires IsMap(grid) && Open(grid, CellOf(pos.x, pos.y))
    requires forall i :: 0 <= i < |deltas| ==> Contained(deltas[i].x) && Contained(deltas[i].y)
    ensures var p := Walk(grid, pos, deltas);
            && Open(grid, CellOf(p.x, p.y))
            && Connected(grid, CellOf(pos.x, pos.y), CellOf(p.x, p.y))
            && p.z == pos.z
  {
    var c := CellOf(pos.x, pos.y);
    if deltas == [] {
      assert Path(grid, [c], c, c);
    } else {
      NoTunnelling(grid, pos, deltas[..|deltas| - 1]);
      SlideStaysConnected(grid, c, Walk(grid, pos, deltas[..|deltas| - 1]), deltas[|deltas| - 1]);
    }
  }

  // Over every run of moves that do not tunnel, the centre stays in empty space.
  lemma {:induction false} NeverInWall(grid: Map, pos: Vec3, deltas: seq<Vec3>)
    requires IsMap(grid) && Open(grid, CellOf(pos.x, pos.y))
    requires forall i :: 0 <= i < |deltas| ==> !Tunnels(deltas[i].x) && !Tunnels(deltas[i].y)
    ensures var p := Walk(grid, pos, deltas); Open(grid, CellOf(p.x, p.y))
  {
    if deltas != [] {
      NeverInWall(grid, pos, deltas[..|deltas| - 1]);
      SlideStaysOpen(grid, Walk(grid, pos, deltas[..|deltas| - 1]), deltas[|deltas| - 1]);
    }
  }

  // ---- The speed limits are exact ----

  // The coordinate a stripe is chosen by.
  function Along(vertical: bool, c: Cell): int {
    if vertical then c.x else c.y
  }

  // Every column (or row) in walls is solid, the others are empty.
  function Striped(vertical: bool, walls: set<int>): (grid: Map)
    ensures IsMap(grid)
    ensures forall c :: InGrid(c) ==> (Solid(grid, c) <==> Along(vertical, c) in walls)
  {
    seq(16, y => seq(16, x => if Along(vertical, Cell(x, y)) in walls then 1 else 0))
  }

  // A move of tunnelling length can pass its probe over a wall and end inside it.
  lemma TunnelWitness(d: real) returns (p: real, k: int)
    requires Tunnels(d)
    ensures OnAxis(k) && Trunc(p + d) == k
    ensures OnAxis(Trunc(p)) && Trunc(p) != k && OnAxis(Trunc(Probe(p + d, d))) && Trunc(Probe(p + d, d)) != k
  {
    if d > 0.0 {
      var least := if d > 15.8 then d - 1.0 else 14.8;
      var most := if d < 1.0 then 14.0 + d else 15.0;
      p, k := (least + most) / 2.0 - d, 14;
    } else {
      var least := if d < -1.0 then 1.0 else 2.0 + d;
      var most := if d < -14.8 then 16.0 + d else 1.2;
      p, k := (least + most) / 2.0 - d, 1;
    }
  }

  // Longer moves that still fit jump from one edge of the map to the other.
  lemma JumpWitness(d: real) returns (p: real)
    requires !Tunnels(d) && !Contained(d)
    ensures var a, b, c := Trunc(p), Trunc(p + d), Trunc(Probe(p + d, d));
            b == c && ((a == 0 && b == 15) || (a == 15 && b == 0))
  {
    p := if d > 0.0 then (14.8 - d) / 2.0 else (15.2 - d) / 2.0;
  }

  // A move across the stripes whose probe lands in an empty one is carried out.
  lemma CrossesStripes(vertical: bool, walls: set<int>, p: real, delta: Vec3) returns (pos: Vec3)
    requires var d := if vertical then delta.x else delta.y;
             && d != 0.0 && (vertical || !Tunnels(delta.x))
             && OnAxis(Trunc(p)) && Trunc(p) !in walls
             && OnAxis(Trunc(Probe(p + d, d))) && Trunc(Probe(p + d, d)) !in walls
    ensures var d, grid := if vertical then delta.x else delta.y, Striped(vertical, walls);
            var q := Slide(grid, pos, delta);
            && Open(grid, CellOf(pos.x, pos.y)) && Along(vertical, CellOf(pos.x, pos.y)) == Trunc(p)
            && Along(vertical, CellOf(q.x, q.y)) == Trunc(p + d)
  {
    hide Striped;
    var grid, d := Striped(vertical, walls), if vertical then delta.x else delta.y;
    assert Trunc(8.5) == 8;
    if vertical {
      pos := Vec3(p, 8.5, 0.0);
      assert !Blocked(grid, Probe(p + d, d), 8.5);
    } else {
      pos := Vec3(8.5, p, 0.0);
      var x := Slide(grid, pos, delta).x;
      if x != pos.x { AxisSafe(pos.x, delta.x); }
      assert !Blocked(grid, x, Probe(p + d, d));
    }
  }

  // From every empty cell of every map, the move ends in an empty cell.
  ghost predicate LandsOpen(delta: Vec3) {
    forall grid: Map, pos: Vec3 :: IsMap(grid) && Open(grid, CellOf(pos.x, pos.y)) ==>
      var p := Slide(grid, pos, delta); Open(grid, CellOf(p.x, p.y))
  }

  // From every empty cell of every map, the move ends in the same component.
  ghost predicate KeepsComponent(delta: Vec3) {
    forall grid: Map, pos: Vec3 :: IsMap(grid) && Open(grid, CellOf(pos.x, pos.y)) ==>
      var p := Slide(grid, pos, delta); Connected(grid, CellOf(pos.x, pos.y), CellOf(p.x, p.y))
  }

  lemma TunnelsIntoWall(delta: Vec3) returns (grid: Map, pos: Vec3)
    requires Tunnels(delta.x) || Tunnels(delta.y)
    ensures IsMap(grid) && Open(grid, CellOf(pos.x, pos.y))
    ensures var p := Slide(grid, pos, delta); !Open(grid, CellOf(p.x, p.y))
  {
    var vertical := Tunnels(delta.x);
    var p, k := TunnelWitness(if vertical then delta.x else delta.y);
    grid := Striped(vertical, {k});
    pos := CrossesStripes(vertical, {k}, p, delta);
  }

  // The centre can end up in a wall if and only if one component has such a length.
  lemma SpeedLimit(delta: Vec3)
    ensures LandsOpen(delta) <==> !Tunnels(delta.x) && !Tunnels(delta.y)
  {
    hide Slide;
    if Tunnels(delta.x) || Tunnels(delta.y) {
      var grid, pos := TunnelsIntoWall(delta);
      assert !LandsOpen(delta);
    } else {
      forall grid: Map, pos: Vec3 | IsMap(grid) && Open(grid, CellOf(pos.x, pos.y))
        ensures var p := Slide(grid, pos, delta); Open(grid, CellOf(p.x, p.y))
      {
        SlideStaysOpen(grid, pos, delta);
      }
    }
  }

  // Walls everywhere but along two opposite edges of the map.
  const EDGE_TO_EDGE: set<int> := set m | 1 <= m < 15

  // A path cannot cross a wall of stripes.
  lemma {:induction false} PathKeepsSide(vertical: bool, cells: seq<Cell>, a: Cell, b: Cell)
    requires Path(Striped(vertical, EDGE_TO_EDGE), cells, a, b) && (Along(vertical, a) == 0 || Along(vertical, a) == 15)
    ensures Along(vertical, b) == Along(vertical, a)
    decreases |cells|
  {
    if |cells| > 1 {
      var n := |cells| - 2;
      assert Adjacent(cells[n], cells[n + 1]) && Open(Striped(vertical, EDGE_TO_EDGE), cells[n + 1]);
      PathKeepsSide(vertical, cells[..n + 1], a, cells[n]);
    }
  }

  lemma LeavesComponent(delta: Vec3) returns (grid: Map, pos: Vec3)
    requires !Contained(delta.x) || !Contained(delta.y)
    ensures IsMap(grid) && Open(grid, CellOf(pos.x, pos.y))
    ensures var p := Slide(grid, pos, delta); !Connected(grid, CellOf(pos.x, pos.y), CellOf(p.x, p.y))
  {
    if Tunnels(delta.x) || Tunnels(delta.y) {
      grid, pos := TunnelsIntoWall(delta);
    } else {
      var vertical := !Contained(delta.x);
      var p := JumpWitness(if vertical then delta.x else delta.y);
      grid := Striped(vertical, EDGE_TO_EDGE);
      pos := CrossesStripes(vertical, EDGE_TO_EDGE, p, delta);
      var q := Slide(grid, pos, delta);
      var a, b := CellOf(pos.x, pos.y), CellOf(q.x, q.y);
      if Connected(grid, a, b) {
        var cells :| Path(grid, cells, a, b);
        PathKeepsSide(vertical, cells, a, b);
      }
    }
  }

  // A move keeps every component if and only if both its components are contained.
  lemma ComponentLimit(delta: Vec3)
    ensures KeepsComponent(delta) <==> Contained(delta.x) && Contained(delta.y)
  {
    hide Slide;
    hide Connected;
    if !Contained(delta.x) || !Contained(delta.y) {
      var grid, pos := LeavesComponent(delta);
      assert !KeepsComponent(delta);
    } else {
      forall grid: Map, pos: Vec3 | IsMap(grid) && Open(grid, CellOf(pos.x, pos.y))
        ensures var p := Slide(grid, pos, delta); Connected(grid, CellOf(pos.x, pos.y), CellOf(p.x, p.y))
      {
        ItselfConnected(grid, CellOf(pos.x, pos.y));
        SlideStaysConnected(grid, CellOf(pos.x, pos.y), pos, delta);
      }
    }
  }

  lemma ItselfConnected(grid: Map, c: Cell)
    requires IsMap(grid) && Open(grid, c)
    ensures Connected(grid, c, c)
  {
    assert Path(grid, [c], c, c);
  }
}
