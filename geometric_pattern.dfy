/**
 * The triangulated pattern generator, `generateTriangles`: a
 * (g+1) x (g+1) lattice over the canvas whose interior points are pushed
 * off their ideal positions by random draws, and whose g x g cells are each
 * split along a randomly chosen diagonal into two triangles with randomly
 * chosen palette colours.
 *
 * `Pattern` says in closed form what the generator returns for a given
 * stream of numbers from its random source: which draw every point,
 * diagonal and colour uses. The method `GenerateTriangles` builds the
 * result the way the source does, with two double loops that call the
 * random source in turn, and is proved to return `Pattern` of the numbers
 * it drew. The seeded source's stream is `Mulberry32.Values(state)`.
 */
module GeometricPattern {
  import Mulberry32

  type Color = string

  /** A colour lookup either finds a palette entry or, like an out-of-range index in JavaScript, nothing. */
  datatype Option<T> = None | Some(value: T)

  datatype Point = Point(x: real, y: real)

  /** Three corners, in fill-path order, and a fill colour. */
  datatype Triangle = Triangle(p0: Point, p1: Point, p2: Point, color: Option<Color>)

  /** An endless stream of numbers, the `k`-th being what the `k`-th call of a random source returns. */
  type Draws = nat -> real

  /** The arguments of `generateTriangles` other than the random source. */
  datatype Params = Params(width: real, height: real, count: int, palette: seq<Color>, displacement: real)

  /** The corners of a triangle. */
  function Corners(t: Triangle): set<Point>
  {
    {t.p0, t.p1, t.p2}
  }

  function Abs(r: real): real
  {
    if r < 0.0 then -r else r
  }

  // ---------------------------------------------------------------------
  // Grid size

  /**
   * The number of cells per side: the least `g >= 0` with `2 * g * g >= count`,
   * which is `ceil(sqrt(count / 2))` for a positive count (see
   * `GridSizeIsCeilSqrt`) and 0 for a count of 0 or less.
   */
  function GridSize(count: int): (g: nat)
    ensures count <= 2 * (g * g)
    ensures g == 0 || 2 * ((g - 1) * (g - 1)) < count
  {
    LeastSideFrom(count, 0)
  }

  /** The least `g >= n` with `2 * g * g >= count`, given that every side below `n` is too small. */
  function LeastSideFrom(count: int, n: nat): (g: nat)
    requires n == 0 || 2 * ((n - 1) * (n - 1)) < count
    ensures n <= g && count <= 2 * (g * g)
    ensures g == 0 || 2 * ((g - 1) * (g - 1)) < count
    decreases count - 2 * (n * n)
  {
    if count <= 2 * (n * n) then n
    else
      assert 2 * (n * n) < 2 * ((n + 1) * (n + 1));
      LeastSideFrom(count, n + 1)
  }

  /** The width (or height) of a cell: the extent divided by the grid size. */
  function CellSize(extent: real, g: nat): real
  {
    // With g == 0 the source divides by zero; that value is never observed,
    // since the only lattice point is clamped and no cell exists.
    if g == 0 then 0.0 else extent / g as real
  }

  // ---------------------------------------------------------------------
  // Draw order

  /** Points strictly inside the lattice are displaced; the others stay on their ideal positions. */
  predicate Interior(g: nat, i: nat, j: nat)
  {
    0 < i < g && 0 < j < g
  }

  /** Draws spent on the lattice: two per interior point. */
  function LatticeDraws(g: nat): nat
  {
    if g == 0 then 0 else 2 * ((g - 1) * (g - 1))
  }

  /** All draws of one generation: the lattice's, then three per cell. */
  function TotalDraws(g: nat): nat
  {
    LatticeDraws(g) + 3 * (g * g)
  }

  /** Where the two draws of interior point (i, j) sit in the stream: interior points in i-outer, j-inner order. */
  function DisplacementIndex(g: nat, i: nat, j: nat): (k: nat)
    requires Interior(g, i, j)
    ensures k + 1 < LatticeDraws(g)
  {
    MulMonotone(i - 1, g - 2, g - 1);
    2 * ((i - 1) * (g - 1) + (j - 1))
  }

  /** Where the three draws of cell (i, j) (diagonal, first colour, second colour) sit in the stream. */
  function CellDrawIndex(g: nat, i: nat, j: nat): (k: nat)
    requires i < g && j < g
    ensures LatticeDraws(g) <= k && k + 2 < TotalDraws(g)
  {
    CellIndexBound(g, i, j);
    LatticeDraws(g) + 3 * (i * g + j)
  }

  // ---------------------------------------------------------------------
  // Lattice, cells and colours

  /**
   * Lattice point (i, j) for the given draws: ideal position plus, for an
   * interior point, `(r - 0.5) * cellSize * displacement` on each axis;
   * then the edge clamps, the far edge applied last.
   */
  function LatticePoint(p: Params, g: nat, draws: Draws, i: nat, j: nat): Point
    requires i <= g && j <= g
  {
    var cw := CellSize(p.width, g);
    var ch := CellSize(p.height, g);
    var x := i as real * cw
      + (if Interior(g, i, j) then (draws(DisplacementIndex(g, i, j)) - 0.5) * cw * p.displacement else 0.0);
    var y := j as real * ch
      + (if Interior(g, i, j) then (draws(DisplacementIndex(g, i, j) + 1) - 0.5) * ch * p.displacement else 0.0);
    Point(if i == g then p.width else if i == 0 then 0.0 else x,
          if j == g then p.height else if j == 0 then 0.0 else y)
  }

  /** `Math.floor(r * palette.length)`. */
  function ColorIndex(n: nat, r: real): int
  {
    (r * n as real).Floor
  }

  /** `palette[Math.floor(r * palette.length)]`, which is `undefined` outside the palette. */
  function PickColor(palette: seq<Color>, r: real): (c: Option<Color>)
    ensures c.Some? <==> 0 <= ColorIndex(|palette|, r) < |palette|
    ensures c.Some? ==> c.value == palette[ColorIndex(|palette|, r)] && c.value in palette
    ensures |palette| > 0 && 0.0 <= r < 1.0 ==> c.Some?
  {
    var k := ColorIndex(|palette|, r);
    ColorIndexInRange(|palette|, r);
    if 0 <= k < |palette| then Some(palette[k]) else None
  }

  /** A `(g + 1) x (g + 1)` table of points, indexed `[i][j]`. */
  ghost predicate IsGrid(points: seq<seq<Point>>, g: nat)
  {
    |points| == g + 1 && forall a :: 0 <= a <= g ==> |points[a]| == g + 1
  }

  /** The lattice the first loop builds: `points[i][j]` is lattice point (i, j). */
  function Lattice(p: Params, g: nat, draws: Draws): (points: seq<seq<Point>>)
    ensures IsGrid(points, g)
    ensures forall a, b :: 0 <= a <= g && 0 <= b <= g ==> points[a][b] == LatticePoint(p, g, draws, a, b)
  {
    seq(g + 1, a requires 0 <= a <= g => seq(g + 1, b requires 0 <= b <= g => LatticePoint(p, g, draws, a, b)))
  }

  /**
   * The two triangles of cell (i, j) of the lattice `points`, split along the
   * diagonal its first draw chooses, coloured by its next two draws.
   */
  function CellTriangles(palette: seq<Color>, g: nat, points: seq<seq<Point>>, draws: Draws, i: nat, j: nat)
    : (ts: seq<Triangle>)
    requires IsGrid(points, g) && i < g && j < g
    ensures |ts| == 2
  {
    var topLeft := points[i][j];
    var topRight := points[i + 1][j];
    var bottomLeft := points[i][j + 1];
    var bottomRight := points[i + 1][j + 1];
    var k := CellDrawIndex(g, i, j);
    var c1 := PickColor(palette, draws(k + 1));
    var c2 := PickColor(palette, draws(k + 2));
    if draws(k) > 0.5 then
      [Triangle(topLeft, topRight, bottomRight, c1), Triangle(topLeft, bottomRight, bottomLeft, c2)]
    else
      [Triangle(topLeft, topRight, bottomLeft, c1), Triangle(topRight, bottomRight, bottomLeft, c2)]
  }

  /** A `g x g` table of cells of two triangles each, indexed `[i][j]`. */
  ghost predicate IsCellTable(cells: seq<seq<seq<Triangle>>>, g: nat)
  {
    && |cells| == g
    && (forall a :: 0 <= a < g ==> |cells[a]| == g)
    && (forall a, b :: 0 <= a < g && 0 <= b < g ==> |cells[a][b]| == 2)
  }

  /** What the cell loop computes for each cell: `cells[i][j]` is `CellTriangles(i, j)`. */
  function Cells(palette: seq<Color>, g: nat, points: seq<seq<Point>>, draws: Draws)
    : (cells: seq<seq<seq<Triangle>>>)
    requires IsGrid(points, g)
    ensures IsCellTable(cells, g)
    ensures forall a, b :: 0 <= a < g && 0 <= b < g ==> cells[a][b] == CellTriangles(palette, g, points, draws, a, b)
  {
    seq(g, a requires 0 <= a < g => seq(g, b requires 0 <= b < g => CellTriangles(palette, g, points, draws, a, b)))
  }

  /** The triangles of cells (i, 0) .. (i, j - 1), in emission order. */
  function RowCells(cells: seq<seq<seq<Triangle>>>, g: nat, i: nat, j: nat): (ts: seq<Triangle>)
    requires IsCellTable(cells, g) && i < g && j <= g
    ensures |ts| == 2 * j
  {
    if j == 0 then [] else RowCells(cells, g, i, j - 1) + cells[i][j - 1]
  }

  /** The triangles of all cells of columns 0 .. i - 1, in emission order (i outer, j inner). */
  function Rows(cells: seq<seq<seq<Triangle>>>, g: nat, i: nat): (ts: seq<Triangle>)
    requires IsCellTable(cells, g) && i <= g
  {
    if i == 0 then [] else Rows(cells, g, i - 1) + RowCells(cells, g, i - 1, g)
  }

  /** The position of cell (i, j)'s first triangle in the result; its second follows it. */
  function TriangleIndex(g: nat, i: nat, j: nat): nat
  {
    2 * (i * g + j)
  }

  /**
   * What `generateTriangles` returns when the successive calls of its random
   * source return `draws(0)`, `draws(1)`, ... (it makes `TotalDraws` calls).
   */
  function Pattern(p: Params, draws: Draws): seq<Triangle>
  {
    var g := GridSize(p.count);
    Rows(Cells(p.palette, g, Lattice(p, g, draws), draws), g, g)
  }

  // ---------------------------------------------------------------------
  // The generator

  /**
   * The `random` argument of `generateTriangles`: a source whose `k`-th call
   * (counting from 0) returns `values(k)`. For the seeded source,
   * `values == Mulberry32.Values(Mulberry32.SeedState(seed))`.
   */
  class RandomSource {
    const values: Draws
    var drawn: nat

    constructor (values: Draws)
      ensures this.values == values && drawn == 0
    {
      this.values := values;
      drawn := 0;
    }

    /** One call `random()`. */
    method Next() returns (r: real)
      modifies this
      ensures drawn == old(drawn) + 1
      ensures r == values(old(drawn))
    {
      r := values(drawn);
      drawn := drawn + 1;
    }
  }

  /** The numbers a source still has to give after `start` calls. */
  function From(values: Draws, start: nat): Draws
  {
    (k: nat) => values(start + k)
  }

  lemma FromAt(values: Draws, start: nat, k: nat)
    ensures From(values, start)(k) == values(start + k)
  {
  }

  /**
   * `generateTriangles(width, height, count, palette, displacement, random)`.
   * It calls `random` exactly `TotalDraws` times and returns the `Pattern`
   * of the numbers those calls return.
   */
  method GenerateTriangles(width: real, height: real, count: int, palette: seq<Color>,
                           displacement: real, random: RandomSource)
    returns (triangles: seq<Triangle>)
    modifies random
    ensures random.drawn == old(random.drawn) + TotalDraws(GridSize(count))
    ensures triangles == Pattern(Params(width, height, count, palette, displacement),
                                 From(random.values, old(random.drawn)))
  {
    var p := Params(width, height, count, palette, displacement);
    var gridSize := GridSize(count);
    var cellWidth := CellSize(width, gridSize);
    var cellHeight := CellSize(height, gridSize);
    var points := JitteredLattice(p, gridSize, cellWidth, cellHeight, random, random.drawn);
    triangles := SplitCells(palette, gridSize, points, random, old(random.drawn));
  }

  /** The lattice loop: point (i, j) of the result is `LatticePoint(i, j)`; two draws per interior point. */
  method JitteredLattice(p: Params, gridSize: nat, cellWidth: real, cellHeight: real,
                         random: RandomSource, ghost start: nat)
    returns (points: seq<seq<Point>>)
    requires cellWidth == CellSize(p.width, gridSize) && cellHeight == CellSize(p.height, gridSize)
    requires random.drawn == start
    modifies random
    ensures random.drawn == start + LatticeDraws(gridSize)
    ensures points == Lattice(p, gridSize, From(random.values, start))
  {
    ghost var g := gridSize;
    ghost var draws := From(random.values, start);
    points := [];
    var i := 0;
    while i <= gridSize
      invariant 0 <= i <= g + 1 && |points| == i
      invariant forall a :: 0 <= a < i ==> |points[a]| == g + 1
      invariant forall a, b :: 0 <= a < i && 0 <= b <= g ==> points[a][b] == LatticePoint(p, g, draws, a, b)
      invariant random.drawn == start + DrawsBefore(g, i, 0)
    {
      var row: seq<Point> := [];
      var j := 0;
      while j <= gridSize
        invariant 0 <= j <= g + 1 && |row| == j
        invariant forall b :: 0 <= b < j ==> row[b] == LatticePoint(p, g, draws, i, b)
        invariant random.drawn == start + DrawsBefore(g, i, j)
      {
        DrawsBeforeStep(g, i, j);
        var point := VisitLatticePoint(p, gridSize, cellWidth, cellHeight, i, j, random, start);
        row := row + [point];
        j := j + 1;
      }
      DrawsBeforeRow(g, i);
      points := points + [row];
      i := i + 1;
    }
    LatticeByPoints(p, g, draws, points);
  }

  /** The cell loop: the triangles of every cell, in emission order; three draws per cell. */
  method SplitCells(palette: seq<Color>, gridSize: nat, points: seq<seq<Point>>, random: RandomSource,
                    ghost start: nat)
    returns (triangles: seq<Triangle>)
    requires IsGrid(points, gridSize)
    requires random.drawn == start + LatticeDraws(gridSize)
    modifies random
    ensures random.drawn == start + TotalDraws(gridSize)
    ensures triangles == Rows(Cells(palette, gridSize, points, From(random.values, start)), gridSize, gridSize)
  {
    ghost var g := gridSize;
    ghost var cells := Cells(palette, g, points, From(random.values, start));
    triangles := [];
    var i := 0;
    while i < gridSize
      invariant 0 <= i <= g
      invariant triangles == Rows(cells, g, i)
      invariant random.drawn == start + LatticeDraws(g) + 3 * (i * g)
    {
      var row := SplitRow(palette, gridSize, points, i, random, start);
      triangles := triangles + row;
      MulSucc(i, g);
      i := i + 1;
    }
  }

  /** One pass of the cell loop's outer body: the cells (i, 0) .. (i, gridSize - 1). */
  method SplitRow(palette: seq<Color>, gridSize: nat, points: seq<seq<Point>>, i: nat, random: RandomSource,
                  ghost start: nat)
    returns (triangles: seq<Triangle>)
    requires IsGrid(points, gridSize) && i < gridSize
    requires random.drawn == start + LatticeDraws(gridSize) + 3 * (i * gridSize)
    modifies random
    ensures random.drawn == old(random.drawn) + 3 * gridSize
    ensures triangles == RowCells(Cells(palette, gridSize, points, From(random.values, start)), gridSize, i, gridSize)
  {
    ghost var g := gridSize;
    ghost var cells := Cells(palette, g, points, From(random.values, start));
    triangles := [];
    var j := 0;
    while j < gridSize
      invariant 0 <= j <= g
      invariant triangles == RowCells(cells, g, i, j)
      invariant random.drawn == start + LatticeDraws(g) + 3 * (i * g + j)
    {
      var cell := SplitCell(palette, gridSize, points, i, j, random, start);
      triangles := triangles + cell;
      j := j + 1;
    }
  }

  /**
   * One pass of the lattice loop's body: the ideal position of point (i, j),
   * displaced by two draws when the point is interior, then clamped to the edges.
   */
  method VisitLatticePoint(p: Params, gridSize: nat, cellWidth: real, cellHeight: real, i: nat, j: nat,
                           random: RandomSource, ghost start: nat)
    returns (point: Point)
    requires i <= gridSize && j <= gridSize
    requires cellWidth == CellSize(p.width, gridSize) && cellHeight == CellSize(p.height, gridSize)
    requires Interior(gridSize, i, j) ==> random.drawn == start + DisplacementIndex(gridSize, i, j)
    modifies random
    ensures random.drawn == old(random.drawn) + (if Interior(gridSize, i, j) then 2 else 0)
    ensures point == LatticePoint(p, gridSize, From(random.values, start), i, j)
  {
    ghost var draws := From(random.values, start);
    var x := i as real * cellWidth;
    var y := j as real * cellHeight;
    if i > 0 && i < gridSize && j > 0 && j < gridSize {
      FromAt(random.values, start, DisplacementIndex(gridSize, i, j));
      var r := random.Next();
      x := x + (r - 0.5) * cellWidth * p.displacement;
      FromAt(random.values, start, DisplacementIndex(gridSize, i, j) + 1);
      r := random.Next();
      y := y + (r - 0.5) * cellHeight * p.displacement;
      assert x == i as real * cellWidth + (draws(DisplacementIndex(gridSize, i, j)) - 0.5) * cellWidth * p.displacement;
      assert y == j as real * cellHeight + (draws(DisplacementIndex(gridSize, i, j) + 1) - 0.5) * cellHeight * p.displacement;
    }
    LatticePointClamps(p, gridSize, draws, i, j, x, y);
    if i == 0 { x := 0.0; }
    if i == gridSize { x := p.width; }
    if j == 0 { y := 0.0; }
    if j == gridSize { y := p.height; }
    point := Point(x, y);
  }

  /**
   * One pass of the cell loop's body: a draw chooses the diagonal of cell
   * (i, j), then each of its two triangles draws its colour.
   */
  method SplitCell(palette: seq<Color>, gridSize: nat, points: seq<seq<Point>>, i: nat, j: nat,
                   random: RandomSource, ghost start: nat)
    returns (cell: seq<Triangle>)
    requires IsGrid(points, gridSize) && i < gridSize && j < gridSize
    requires random.drawn == start + CellDrawIndex(gridSize, i, j)
    modifies random
    ensures random.drawn == old(random.drawn) + 3
    ensures cell == CellTriangles(palette, gridSize, points, From(random.values, start), i, j)
  {
    var topLeft := points[i][j];
    var topRight := points[i + 1][j];
    var bottomLeft := points[i][j + 1];
    var bottomRight := points[i + 1][j + 1];
    ghost var k := CellDrawIndex(gridSize, i, j);
    FromAt(random.values, start, k);
    FromAt(random.values, start, k + 1);
    FromAt(random.values, start, k + 2);
    var d := random.Next();
    var useDiagonal1 := d > 0.5;
    if useDiagonal1 {
      var r1 := random.Next();
      var r2 := random.Next();
      cell := [Triangle(topLeft, topRight, bottomRight, PickColor(palette, r1)),
               Triangle(topLeft, bottomRight, bottomLeft, PickColor(palette, r2))];
    } else {
      var r1 := random.Next();
      var r2 := random.Next();
      cell := [Triangle(topLeft, topRight, bottomLeft, PickColor(palette, r1)),
               Triangle(topRight, bottomRight, bottomLeft, PickColor(palette, r2))];
    }
  }

  /** A table that holds every lattice point is the lattice. */
  lemma LatticeByPoints(p: Params, g: nat, draws: Draws, points: seq<seq<Point>>)
    requires IsGrid(points, g)
    requires forall a, b :: 0 <= a <= g && 0 <= b <= g ==> points[a][b] == LatticePoint(p, g, draws, a, b)
    ensures points == Lattice(p, g, draws)
  {
    var lattice := Lattice(p, g, draws);
    forall a | 0 <= a <= g
      ensures points[a] == lattice[a]
    {
      assert forall b :: 0 <= b <= g ==> points[a][b] == lattice[a][b];
    }
  }

  /**
   * Lattice point (i, j) is the unclamped position with the edge clamps applied.
   * A solver hint for `VisitLatticePoint` only: it unfolds `LatticePoint` once.
   */
  lemma LatticePointClamps(p: Params, g: nat, draws: Draws, i: nat, j: nat, x: real, y: real)
    requires i <= g && j <= g
    requires x == i as real * CellSize(p.width, g)
      + (if Interior(g, i, j) then (draws(DisplacementIndex(g, i, j)) - 0.5) * CellSize(p.width, g) * p.displacement else 0.0)
    requires y == j as real * CellSize(p.height, g)
      + (if Interior(g, i, j) then (draws(DisplacementIndex(g, i, j) + 1) - 0.5) * CellSize(p.height, g) * p.displacement else 0.0)
    ensures LatticePoint(p, g, draws, i, j)
         == Point(if i == g then p.width else if i == 0 then 0.0 else x,
                  if j == g then p.height else if j == 0 then 0.0 else y)
  {
  }

  /** Draws consumed before lattice point (i, j) is visited. */
  function DrawsBefore(g: nat, i: nat, j: nat): nat
  {
    if i == 0 then 0
    else if g <= i then LatticeDraws(g)
    else 2 * ((i - 1) * (g - 1) + (if j == 0 then 0 else if g <= j then g - 1 else j - 1))
  }

  // ---------------------------------------------------------------------
  // Arithmetic helpers

  lemma MulMonotone(a: nat, b: nat, m: nat)
    requires a <= b
    ensures a * m <= b * m
  {
  }

  lemma CellIndexBound(g: nat, i: nat, j: nat)
    requires i < g && j < g
    ensures i * g + j + 1 <= g * g
  {
    MulMonotone(i + 1, g, g);
  }

  lemma MulSucc(a: nat, b: nat)
    ensures (a + 1) * b == a * b + b
  {
  }

  lemma DrawsBeforeStep(g: nat, i: nat, j: nat)
    requires i <= g && j <= g
    ensures Interior(g, i, j) ==> DrawsBefore(g, i, j) == DisplacementIndex(g, i, j)
    ensures DrawsBefore(g, i, j + 1) == DrawsBefore(g, i, j) + (if Interior(g, i, j) then 2 else 0)
  {
  }

  lemma DrawsBeforeRow(g: nat, i: nat)
    requires i <= g
    ensures DrawsBefore(g, i, g + 1) == DrawsBefore(g, i + 1, 0)
  {
  }

  /** For a non-empty palette and a draw in [0, 1), the colour index is inside the palette. */
  lemma ColorIndexInRange(n: nat, r: real)
    ensures n > 0 && 0.0 <= r < 1.0 ==> 0 <= ColorIndex(n, r) < n
  {
  }
}
