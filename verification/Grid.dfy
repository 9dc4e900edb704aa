// The 16 x 16 voxel map and the code's notion of the cell of a coordinate.
module Grid {
  const MAP_WIDTH: int := 16
  const MAP_HEIGHT: int := 16
  const MAP_CELLS: int := 256

  // The map by rows; the kernel keeps it as one flat array of 256 bytes.
  type Map = seq<seq<nat>>

  datatype Cell = Cell(x: int, y: int)

  predicate InGrid(c: Cell) {
    0 <= c.x < MAP_WIDTH && 0 <= c.y < MAP_HEIGHT
  }

  predicate IsMap(grid: Map) {
    |grid| == 16 && forall y :: 0 <= y < 16 ==> |grid[y]| == 16
  }

  predicate Solid(grid: Map, c: Cell)
    requires IsMap(grid) && InGrid(c)
  {
    grid[c.y][c.x] > 0
  }

  function Put(grid: Map, c: Cell, v: nat): (m: Map)
    requires IsMap(grid) && InGrid(c)
    ensures IsMap(m)
  {
    var row: seq<nat> := grid[c.y][c.x := v];
    grid[c.y := row]
  }

  // The rows of the flat array.
  function Rows(flat: seq<nat>): (m: Map)
    requires |flat| == MAP_CELLS
    ensures IsMap(m)
  {
    seq(16, y requires 0 <= y < 16 => flat[16 * y..16 * y + 16])
  }

  function Index(c: Cell): nat
    requires InGrid(c)
  {
    c.y * 16 + c.x
  }

  // world_map[y * MAP_WIDTH + x]
  method VoxelAt(flat: seq<nat>, x: int, y: int) returns (v: nat)
    requires |flat| == MAP_CELLS && InGrid(Cell(x, y))
    ensures v == Rows(flat)[y][x]
  {
    v := flat[y * MAP_WIDTH + x];
  }

  // The flat array is row-major: a cell is solid if and only if its byte is positive.
  lemma SolidByte(flat: seq<nat>, c: Cell)
    requires |flat| == MAP_CELLS && InGrid(c)
    ensures 0 <= 16 * c.y + c.x < 256
    ensures Solid(Rows(flat), c) <==> flat[16 * c.y + c.x] > 0
  {
  }

  lemma RowsPut(flat: seq<nat>, c: Cell, v: nat)
    requires |flat| == MAP_CELLS && InGrid(c)
    ensures Rows(flat[Index(c) := v]) == Put(Rows(flat), c, v)
  {
    var after := flat[Index(c) := v];
    forall y | 0 <= y < 16
      ensures Rows(after)[y] == Put(Rows(flat), c, v)[y]
    {
      assert Rows(after)[y] == after[16 * y..16 * y + 16];
    }
  }

  // A cell the player or a ray may be in: inside the grid and not solid.
  predicate Open(grid: Map, c: Cell)
    requires IsMap(grid)
  {
    InGrid(c) && !Solid(grid, c)
  }

  // (int) of a coordinate: truncation toward zero, so cell 0 covers (-1, 1).
  function Trunc(x: real): int {
    if x >= 0.0 then x.Floor else -(-x).Floor
  }

  // The coordinates that fall into column (or row) m.
  lemma TruncIs(x: real, m: int)
    ensures Trunc(x) == m <==>
              if m > 0 then m as real <= x < m as real + 1.0
              else if m < 0 then m as real - 1.0 < x <= m as real
              else -1.0 < x < 1.0
  {
  }

  lemma TruncMonotone(x: real, y: real)
    requires x <= y
    ensures Trunc(x) <= Trunc(y)
  {
    FloorMonotone(x, y);
    FloorMonotone(-y, -x);
  }

  lemma FloorMonotone(x: real, y: real)
    requires x <= y
    ensures x.Floor <= y.Floor
  {
    assert x.Floor as real <= x && y < y.Floor as real + 1.0;
  }

  function CellOf(x: real, y: real): Cell {
    Cell(Trunc(x), Trunc(y))
  }

  predicate Adjacent(a: Cell, b: Cell) {
    || (a.y == b.y && (a.x == b.x + 1 || b.x == a.x + 1))
    || (a.x == b.x && (a.y == b.y + 1 || b.y == a.y + 1))
  }

  method SetVoxel(world: array<nat>, x: int, y: int, v: nat)
    requires world.Length == MAP_CELLS && InGrid(Cell(x, y))
    modifies world
    ensures Rows(world[..]) == Put(Rows(old(world[..])), Cell(x, y), v)
  {
    RowsPut(world[..], Cell(x, y), v);
    world[y * MAP_WIDTH + x] := v;
  }
}
