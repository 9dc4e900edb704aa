// Picking and editing voxels: src/selection.cpp and src/modification.cpp over the
// reals.
module Voxel {
  import opened Grid

  const RAY_STEP_SIZE: real := 0.05
  const MAX_SELECTION_DISTANCE: real := 4.0
  // The number of samples with k * RAY_STEP_SIZE up to MAX_SELECTION_DISTANCE.
  const SAMPLES: nat := 80

  const VOXEL_ACTION_DESTROY: nat := 0
  const VOXEL_ACTION_PLACE: nat := 1

  datatype Pose = Pose(x: real, y: real, angle: real)

  function CosA(p: Pose): real {
    1.0 - p.angle * p.angle * 0.5
  }

  // The view direction is close to a unit vector: off by the fourth order only.
  lemma ViewLength(p: Pose)
    ensures CosA(p) * CosA(p) + p.angle * p.angle == 1.0 + p.angle * p.angle * p.angle * p.angle / 4.0
    ensures p.angle == 0.0 ==> CosA(p) == 1.0
  {
    var q := p.angle * p.angle;
    assert CosA(p) == 1.0 - q * 0.5;
    assert (1.0 - q * 0.5) * (1.0 - q * 0.5) == 1.0 - q + q * q / 4.0;
    assert q * q == q * p.angle * p.angle;
  }

  // v scaled to one step of RAY_STEP_SIZE.
  function Stride(v: real): real {
    v * 0.05
  }

  // The distance walked after k steps.
  function Reached(k: nat): real {
    Stride(k as real)
  }

  // The k-th sample point, accumulated step by step.
  function SampleX(p: Pose, k: nat): real {
    if k == 0 then p.x else SampleX(p, k - 1) + Stride(CosA(p))
  }

  function SampleY(p: Pose, k: nat): real {
    if k == 0 then p.y else SampleY(p, k - 1) + Stride(p.angle)
  }

  // Sample k lies k * 0.05 along the view direction, the last one at 4 units.
  lemma {:induction false} SampleOnRay(p: Pose, k: nat)
    ensures SampleX(p, k) == p.x + k as real * 0.05 * CosA(p)
    ensures SampleY(p, k) == p.y + k as real * 0.05 * p.angle
    ensures SAMPLES as real * 0.05 == 4.0
  {
    if k > 0 {
      SampleOnRay(p, k - 1);
      var c, a := CosA(p), p.angle;
      hide CosA;
      assert k as real * 0.05 * c == (k - 1) as real * 0.05 * c + c * 0.05;
      assert k as real * 0.05 * a == (k - 1) as real * 0.05 * a + a * 0.05;
    }
  }

  function SampleCell(p: Pose, k: nat): Cell {
    CellOf(SampleX(p, k), SampleY(p, k))
  }

  // The first sample from k on that leaves the map or meets a solid cell; 81 if none.
  function FirstStop(grid: Map, p: Pose, k: nat): (j: nat)
    requires IsMap(grid) && k <= SAMPLES + 1
    ensures k <= j <= SAMPLES + 1
    ensures forall i :: k <= i < j ==> Open(grid, SampleCell(p, i))
    ensures j <= SAMPLES ==> !Open(grid, SampleCell(p, j))
    decreases SAMPLES + 1 - k
  {
    if k > SAMPLES || !Open(grid, SampleCell(p, k)) then k else FirstStop(grid, p, k + 1)
  }

  // The sample that hits a block, if any: bounds are left before blocks are seen.
  function Hit(grid: Map, p: Pose): nat
    requires IsMap(grid)
  {
    FirstStop(grid, p, 1)
  }

  predicate Hits(grid: Map, p: Pose)
    requires IsMap(grid)
  {
    Hit(grid, p) <= SAMPLES && InGrid(SampleCell(p, Hit(grid, p)))
  }

  // Which face the sample is taken to have struck: 0 for an x face, 1 for a y face.
  function Face(x: real, y: real, c: Cell): int {
    var remX, remY := x - c.x as real, y - c.y as real;
    if remX < 0.05 || remX > 0.95 then 0 else if remY < 0.05 || remY > 0.95 then 1 else 0
  }

  // A y face is reported exactly for a hit within 0.05 of a horizontal gridline and
  // not that near a vertical one.
  lemma FaceIs(x: real, y: real, c: Cell)
    ensures var remX, remY := x - c.x as real, y - c.y as real;
            Face(x, y, c) == if 0.05 <= remX <= 0.95 && !(0.05 <= remY <= 0.95) then 1 else 0
  {
  }

  datatype Selection = Selection(hit: bool, targetX: int, targetY: int, faceAxis: int)

  function Select(grid: Map, p: Pose): Selection
    requires IsMap(grid)
  {
    var k := Hit(grid, p);
    var c := SampleCell(p, k);
    if Hits(grid, p) then Selection(true, c.x, c.y, Face(SampleX(p, k), SampleY(p, k), c))
    else Selection(false, -1, -1, 0)
  }

  // trace_selection_ray accumulates position and distance step by step.
  method TraceSelectionRay(flat: seq<nat>, p: Pose) returns (result: Selection)
    requires |flat| == MAP_CELLS
    ensures result == Select(Rows(flat), p)
  {
    hide *;
    ghost var world := Rows(flat);
    result := Selection(false, -1, -1, 0);
    var cosA, sinA := CosA(p), p.angle;
    var distance, x, y := 0.0, p.x, p.y;
    ghost var k := 0;
    FirstSample(world, p);
    while distance < MAX_SELECTION_DISTANCE
      invariant 0 <= k <= SAMPLES && distance == Reached(k)
      invariant distance < MAX_SELECTION_DISTANCE <==> k < SAMPLES
      invariant x == SampleX(p, k) && y == SampleY(p, k)
      invariant result == Selection(false, -1, -1, 0) && Hit(world, p) == FirstStop(world, p, k + 1)
      decreases SAMPLES - k
    {
      x := x + Stride(cosA);
      y := y + Stride(sinA);
      distance := distance + RAY_STEP_SIZE;
      NextSample(p, k);
      k := k + 1;
      var checkX, checkY := Trunc(x), Trunc(y);
      StopsOrGoesOn(world, p, k, Cell(checkX, checkY));
      if checkX < 0 || checkX >= MAP_WIDTH || checkY < 0 || checkY >= MAP_HEIGHT { return; }
      var voxel := VoxelAt(flat, checkX, checkY);
      if voxel > 0 {
        var axis := StruckFace(x, y, checkX, checkY);
        return Selection(true, checkX, checkY, axis);
      }
    }
    Missed(world, p);
  }

  method StruckFace(x: real, y: real, checkX: int, checkY: int) returns (axis: int)
    ensures axis == Face(x, y, Cell(checkX, checkY))
  {
    var remX, remY := x - checkX as real, y - checkY as real;
    if remX < 0.05 || remX > 0.95 {
      axis := 0;
    } else if remY < 0.05 || remY > 0.95 {
      axis := 1;
    } else {
      axis := 0;
    }
  }

  lemma FirstSample(grid: Map, p: Pose)
    requires IsMap(grid)
    ensures SampleX(p, 0) == p.x && SampleY(p, 0) == p.y
    ensures Reached(0) == 0.0 < MAX_SELECTION_DISTANCE && SAMPLES > 0
    ensures Hit(grid, p) == FirstStop(grid, p, 1)
  {
  }

  // Sample k ends the walk beside the map, ends it with a hit, or lets it go on.
  lemma StopsOrGoesOn(grid: Map, p: Pose, k: nat, c: Cell)
    requires IsMap(grid) && 1 <= k <= SAMPLES && Hit(grid, p) == FirstStop(grid, p, k)
    requires c.x == Trunc(SampleX(p, k)) && c.y == Trunc(SampleY(p, k))
    ensures InGrid(c) <==> 0 <= c.x < MAP_WIDTH && 0 <= c.y < MAP_HEIGHT
    ensures if !InGrid(c) then Select(grid, p) == Selection(false, -1, -1, 0)
            else if grid[c.y][c.x] > 0 then
              Select(grid, p) == Selection(true, c.x, c.y, Face(SampleX(p, k), SampleY(p, k), c))
            else Hit(grid, p) == FirstStop(grid, p, k + 1)
  {
    assert c == SampleCell(p, k);
  }

  lemma Missed(grid: Map, p: Pose)
    requires IsMap(grid) && Hit(grid, p) == FirstStop(grid, p, SAMPLES + 1)
    ensures Select(grid, p) == Selection(false, -1, -1, 0)
  {
  }

  lemma NextSample(p: Pose, k: nat)
    ensures SampleX(p, k + 1) == SampleX(p, k) + Stride(CosA(p))
    ensures SampleY(p, k + 1) == SampleY(p, k) + Stride(p.angle)
    ensures Reached(k + 1) == Reached(k) + RAY_STEP_SIZE
    ensures Reached(k + 1) < MAX_SELECTION_DISTANCE <==> k + 1 < SAMPLES
  {
  }

  // Where a placed block goes: one cell back from the target along the struck axis.
  function PlaceCell(p: Pose, s: Selection): Cell {
    if s.faceAxis == 0 then Cell(s.targetX + (if CosA(p) > 0.0 then -1 else 1), s.targetY)
    else Cell(s.targetX, s.targetY + if p.angle > 0.0 then -1 else 1)
  }

  function Mutate(grid: Map, p: Pose, action: nat): (m: Map)
    requires IsMap(grid)
    ensures IsMap(m)
  {
    var s := Select(grid, p);
    if !s.hit then grid
    else if action == VOXEL_ACTION_DESTROY then Put(grid, Cell(s.targetX, s.targetY), 0)
    else if action == VOXEL_ACTION_PLACE && Open(grid, PlaceCell(p, s)) then Put(grid, PlaceCell(p, s), 1)
    else grid
  }

  lemma HitIsSolid(grid: Map, p: Pose)
    requires IsMap(grid)
    ensures var s := Select(grid, p);
            s.hit ==> InGrid(Cell(s.targetX, s.targetY)) && Solid(grid, Cell(s.targetX, s.targetY))
  {
  }

  // execute_voxel_mutation edits the world map in place.
  method ExecuteVoxelMutation(world: array<nat>, p: Pose, action: nat)
    requires world.Length == MAP_CELLS
    modifies world
    ensures Rows(world[..]) == Mutate(Rows(old(world[..])), p, action)
  {
    var select := TraceSelectionRay(world[..], p);
    HitIsSolid(Rows(world[..]), p);
    hide Hits;
    hide Hit;
    hide Face;
    hide CosA;
    hide Rows;
    hide Put;
    if !select.hit { return; }
    if action == VOXEL_ACTION_DESTROY {
      SetVoxel(world, select.targetX, select.targetY, 0);
    } else if action == VOXEL_ACTION_PLACE {
      var x, y := select.targetX, select.targetY;
      if select.faceAxis == 0 {
        x := x + if CosA(p) > 0.0 then -1 else 1;
      } else {
        y := y + if p.angle > 0.0 then -1 else 1;
      }
      if x >= 0 && x < MAP_WIDTH && y >= 0 && y < MAP_HEIGHT {
        var voxel := VoxelAt(world[..], x, y);
        if voxel == 0 { SetVoxel(world, x, y, 1); }
      }
    }
  }

  // ---- What one edit changes ----

  // A placement changes nothing, or fills one empty cell next to the struck block.
  lemma PlacementIsLocal(grid: Map, p: Pose)
    requires IsMap(grid)
    ensures var s, m := Select(grid, p), Mutate(grid, p, VOXEL_ACTION_PLACE);
            var struck := Cell(s.targetX, s.targetY);
            m == grid || (s.hit && InGrid(struck) && Solid(grid, struck)
                          && exists c :: Open(grid, c) && Adjacent(c, struck) && m == Put(grid, c, 1))
  {
    hide Put;
    var s := Select(grid, p);
    if s.hit {
      HitIsSolid(grid, p);
      assert Adjacent(PlaceCell(p, s), Cell(s.targetX, s.targetY));
    }
  }

  // The cell the ray was in one sample before the hit.
  function CameFrom(grid: Map, p: Pose): Cell
    requires IsMap(grid)
  {
    SampleCell(p, Hit(grid, p) - 1)
  }

  lemma HitSteps(grid: Map, p: Pose)
    requires IsMap(grid) && Hits(grid, p)
    ensures var k := Hit(grid, p);
            k >= 1 && CameFrom(grid, p) == CellOf(SampleX(p, k - 1), SampleY(p, k - 1))
            && SampleX(p, k) == SampleX(p, k - 1) + Stride(CosA(p))
            && SampleY(p, k) == SampleY(p, k - 1) + Stride(p.angle)
  {
  }

  lemma PutTells(grid: Map, c: Cell, d: Cell)
    requires IsMap(grid) && Open(grid, c) && Open(grid, d)
    ensures Put(grid, c, 1) != grid
    ensures c != d ==> Put(grid, c, 1) != Put(grid, d, 1)
  {
    assert Put(grid, c, 1)[c.y][c.x] == 1 && grid[c.y][c.x] == 0;
    if c != d { assert Put(grid, d, 1)[c.y][c.x] == 0; }
  }

  // A placement fills exactly the cell the place rule names, if that is empty.
  lemma PlacesAt(grid: Map, p: Pose, c: Cell)
    requires IsMap(grid) && Hits(grid, p) && Open(grid, c)
    ensures Mutate(grid, p, 1) == Put(grid, c, 1) <==> PlaceCell(p, Select(grid, p)) == c
  {
    hide Put;
    hide Hits;
    hide Face;
    var d := PlaceCell(p, Select(grid, p));
    PutTells(grid, c, c);
    if Open(grid, d) { PutTells(grid, c, d); }
  }

  // The block goes back to where the ray came from exactly if the ray entered through
  // a vertical gridline and the face rule says x, or through a horizontal one and it
  // says y.
  lemma PlacesBack(grid: Map, p: Pose)
    requires IsMap(grid) && Hits(grid, p) && Open(grid, CameFrom(grid, p))
    ensures var from, s := CameFrom(grid, p), Select(grid, p);
            Mutate(grid, p, 1) == Put(grid, from, 1) <==>
              if s.faceAxis == 0 then from.y == s.targetY && (from.x == s.targetX - 1 || from.x == s.targetX + 1)
              else from.x == s.targetX && (from.y == s.targetY - 1 || from.y == s.targetY + 1)
  {
    hide Put;
    hide Mutate;
    hide Face;
    hide CosA;
    hide SampleX;
    hide SampleY;
    hide CameFrom;
    hide Trunc;
    var k := Hit(grid, p);
    PlacesAt(grid, p, CameFrom(grid, p));
    HitSteps(grid, p);
    StepSide(SampleX(p, k - 1), CosA(p));
    StepSide(SampleY(p, k - 1), p.angle);
  }

  // A step leads to the side its direction says.
  lemma StepSide(x: real, d: real)
    ensures if d > 0.0 then Trunc(x) <= Trunc(x + Stride(d)) else Trunc(x + Stride(d)) <= Trunc(x)
  {
    if d > 0.0 { TruncMonotone(x, x + Stride(d)); } else { TruncMonotone(x + Stride(d), x); }
  }

  // For views up to 1 radian off the x axis: a ray that came through a vertical
  // gridline always fills the cell it came from, one that came through a horizontal
  // gridline does so exactly if the hit is not within 0.05 of a vertical one.
  lemma PlacesInFront(grid: Map, p: Pose)
    requires IsMap(grid) && Hits(grid, p) && Open(grid, CameFrom(grid, p)) && -1.0 < p.angle <= 1.0
    ensures var from, s := CameFrom(grid, p), Select(grid, p);
            Mutate(grid, p, 1) == Put(grid, from, 1) <==>
              || from.y == s.targetY
              || (from.x == s.targetX && 0.05 <= SampleX(p, Hit(grid, p)) - s.targetX as real <= 0.95)
  {
    PlacesBack(grid, p);
    HitSteps(grid, p);
    var k := Hit(grid, p);
    ShortSteps(p);
    EntryX(SampleX(p, k - 1), SampleX(p, k));
    EntryY(SampleY(p, k - 1), SampleY(p, k), p.angle);
  }

  // An input for which it does not: looking along angle 1 from just below cell (1, 1),
  // near its corner, the block goes beside the struck one, to (0, 1).
  lemma PlacesBeside(grid: Map)
    requires IsMap(grid) && Open(grid, Cell(1, 0)) && Solid(grid, Cell(1, 1)) && Open(grid, Cell(0, 1))
    ensures var p := Pose(1.0, 0.98, 1.0);
            Hits(grid, p) && CameFrom(grid, p) == Cell(1, 0) && Mutate(grid, p, 1) == Put(grid, Cell(0, 1), 1)
  {
    hide Put;
    var p := Pose(1.0, 0.98, 1.0);
    assert SampleX(p, 0) == 1.0 && SampleY(p, 0) == 0.98;
    assert SampleX(p, 1) == 1.025 && SampleY(p, 1) == 1.03;
    TruncIs(1.0, 1);
    TruncIs(0.98, 0);
    TruncIs(1.025, 1);
    TruncIs(1.03, 1);
    assert Hit(grid, p) == 1;
    PlacesAt(grid, p, Cell(0, 1));
  }

  lemma ShortSteps(p: Pose)
    requires -1.0 < p.angle <= 1.0
    ensures 0.5 <= CosA(p) <= 1.0 && 0.0 < Stride(CosA(p)) <= 0.05
    ensures -0.05 < Stride(p.angle) <= 0.05
  {
    assert p.angle * p.angle <= 1.0;
  }

  // Moving to the right by at most 0.05 into a new column ends just behind its gridline.
  lemma EntryX(x: real, x': real)
    requires x < x' <= x + 0.05
    ensures Trunc(x) <= Trunc(x') <= Trunc(x) + 1
    ensures Trunc(x) != Trunc(x') && Trunc(x') >= 1 ==> x' - Trunc(x') as real < 0.05
  {
    TruncMonotone(x, x');
    TruncIs(x, Trunc(x));
    TruncIs(x', Trunc(x'));
  }

  lemma EntryY(y: real, y': real, angle: real)
    requires y' == y + Stride(angle) && -1.0 < angle <= 1.0
    ensures Trunc(y) - 1 <= Trunc(y') <= Trunc(y) + 1
    ensures Trunc(y) != Trunc(y') && Trunc(y) >= 0 && Trunc(y') >= 0 ==>
              var rem := y' - Trunc(y') as real; rem < 0.05 || rem > 0.95
  {
    TruncIs(y, Trunc(y));
    TruncIs(y', Trunc(y'));
  }

  // Destroy and place are the only actions, and they act on the struck block and
  // beside it.
  lemma OtherActionsDoNothing(grid: Map, p: Pose, action: nat)
    requires IsMap(grid) && (action > 1 || !Hits(grid, p))
    ensures Mutate(grid, p, action) == grid
  {
  }

  // Destroying the block in view moves the next hit to a strictly later sample.
  lemma DestroyAdvances(grid: Map, p: Pose)
    requires IsMap(grid) && Hits(grid, p)
    ensures Hit(Mutate(grid, p, VOXEL_ACTION_DESTROY), p) > Hit(grid, p)
  {
    var k := Hit(grid, p);
    var m := Mutate(grid, p, VOXEL_ACTION_DESTROY);
    forall i | 1 <= i <= k
      ensures Open(m, SampleCell(p, i))
    {
      if i < k { assert Open(grid, SampleCell(p, i)); }
    }
  }

  lemma NothingInView(grid: Map, p: Pose)
    requires IsMap(grid)
    ensures !Hits(grid, p) ==> Mutate(grid, p, VOXEL_ACTION_DESTROY) == grid
    ensures 1 <= Hit(grid, p)
  {
  }

  function Mine(grid: Map, p: Pose, n: nat): (m: Map)
    requires IsMap(grid)
    ensures IsMap(m)
  {
    if n == 0 then grid else Mutate(Mine(grid, p, n - 1), p, VOXEL_ACTION_DESTROY)
  }

  // Repeated mining from one pose progresses with every blow: after n destroys the
  // first n samples are clear, or nothing is in view any more.
  lemma {:induction false} MiningProgresses(grid: Map, p: Pose, n: nat)
    requires IsMap(grid)
    ensures var m := Mine(grid, p, n); Hits(m, p) ==> Hit(m, p) > n
  {
    hide Mutate;
    hide Hit;
    NothingInView(Mine(grid, p, n), p);
    if n > 0 {
      MiningProgresses(grid, p, n - 1);
      NothingInView(Mine(grid, p, n - 1), p);
      if Hits(Mine(grid, p, n - 1), p) { DestroyAdvances(Mine(grid, p, n - 1), p); }
    }
  }

  // So at most 80 destroys clear the ray, and from then on mining changes nothing.
  lemma MiningClears(grid: Map, p: Pose, n: nat)
    requires IsMap(grid) && n >= SAMPLES
    ensures !Hits(Mine(grid, p, n), p) && Mine(grid, p, n + 1) == Mine(grid, p, n)
  {
    MiningProgresses(grid, p, n);
    NothingInView(Mine(grid, p, n), p);
  }

  // ---- How many blows a pose takes ----

  // The first sample from k on that is off the map; 81 if none is.
  function FirstOff(p: Pose, k: nat): (j: nat)
    requires k <= SAMPLES + 1
    ensures k <= j <= SAMPLES + 1
    ensures forall i :: k <= i < j ==> InGrid(SampleCell(p, i))
    ensures j <= SAMPLES ==> !InGrid(SampleCell(p, j))
    decreases SAMPLES + 1 - k
  {
    if k > SAMPLES || !InGrid(SampleCell(p, k)) then k else FirstOff(p, k + 1)
  }

  // The solid cells the samples meet before they leave the map.
  ghost function Blocks(grid: Map, p: Pose): set<Cell>
    requires IsMap(grid)
  {
    set i | 1 <= i < FirstOff(p, 1) && Solid(grid, SampleCell(p, i)) :: SampleCell(p, i)
  }

  lemma HitsIfBlocks(grid: Map, p: Pose)
    requires IsMap(grid)
    ensures Hits(grid, p) <==> Blocks(grid, p) != {}
    ensures Hits(grid, p) ==> SampleCell(p, Hit(grid, p)) in Blocks(grid, p)
  {
    var k := Hit(grid, p);
    if Hits(grid, p) {
      assert SampleCell(p, k) in Blocks(grid, p);
    }
    if c :| c in Blocks(grid, p) {
      var i :| 1 <= i < FirstOff(p, 1) && Solid(grid, SampleCell(p, i)) && SampleCell(p, i) == c;
      assert !Open(grid, SampleCell(p, i));
    }
  }

  lemma PutAir(grid: Map, c: Cell, d: Cell)
    requires IsMap(grid) && InGrid(c) && InGrid(d)
    ensures Solid(Put(grid, c, 0), d) <==> Solid(grid, d) && d != c
  {
  }

  lemma BlocksAfterPut(grid: Map, p: Pose, c: Cell)
    requires IsMap(grid) && InGrid(c)
    ensures Blocks(Put(grid, c, 0), p) == Blocks(grid, p) - {c}
  {
    hide Put;
    hide Solid;
    forall i | 1 <= i < FirstOff(p, 1)
      ensures Solid(Put(grid, c, 0), SampleCell(p, i)) <==> Solid(grid, SampleCell(p, i)) && SampleCell(p, i) != c
    {
      PutAir(grid, c, SampleCell(p, i));
    }
  }

  // A blow removes one block from the line of sight.
  lemma BlowRemovesOne(grid: Map, p: Pose)
    requires IsMap(grid) && Hits(grid, p)
    ensures |Blocks(Mutate(grid, p, VOXEL_ACTION_DESTROY), p)| == |Blocks(grid, p)| - 1
  {
    hide Blocks;
    hide Put;
    HitsIfBlocks(grid, p);
    BlocksAfterPut(grid, p, SampleCell(p, Hit(grid, p)));
  }

  // Mining from one pose takes exactly as many blows as there are distinct blocks
  // among the samples before they leave the map.
  lemma {:induction false} MiningCount(grid: Map, p: Pose, n: nat)
    requires IsMap(grid)
    ensures |Blocks(Mine(grid, p, n), p)| == if n <= |Blocks(grid, p)| then |Blocks(grid, p)| - n else 0
    ensures Hits(Mine(grid, p, n), p) <==> n < |Blocks(grid, p)|
  {
    hide Mutate;
    hide Blocks;
    hide Hits;
    HitsIfBlocks(Mine(grid, p, n), p);
    if n > 0 {
      var before := Mine(grid, p, n - 1);
      MiningCount(grid, p, n - 1);
      if Hits(before, p) { BlowRemovesOne(before, p); } else { NothingInView(before, p); }
    }
  }

  datatype Edit = Edit(pose: Pose, action: nat)

  function Edited(grid: Map, edits: seq<Edit>): (m: Map)
    requires IsMap(grid)
    ensures IsMap(m)
  {
    if edits == [] then grid
    else Mutate(Edited(grid, edits[..|edits| - 1]), edits[|edits| - 1].pose, edits[|edits| - 1].action)
  }

  predicate IsBinary(grid: Map)
    requires IsMap(grid)
  {
    forall x, y :: 0 <= x < 16 && 0 <= y < 16 ==> grid[y][x] <= 1
  }

  // A 0/1 map stays a 0/1 map under every sequence of edits, whatever the poses.
  lemma {:induction false} StaysBinary(grid: Map, edits: seq<Edit>)
    requires IsMap(grid) && IsBinary(grid)
    ensures IsBinary(Edited(grid, edits))
  {
    if edits != [] { StaysBinary(grid, edits[..|edits| - 1]); }
  }
}
