/**
 * What the generated pattern satisfies for every stream of draws: its
 * size, where each cell's triangles sit, how a cell is split, how far a
 * point moves, which draw feeds which decision, and where the colours come
 * from; then the same facts for the seeded Mulberry32 source.
 */
module PatternProperties {
  import opened GeometricPattern
  import Mulberry32

  /** Every one of the first `n` draws lies in [0, 1), as `Math.random` and Mulberry32 promise. */
  ghost predicate DrawsInRange(draws: Draws, n: nat)
  {
    forall k: nat :: k < n ==> 0.0 <= draws(k) < 1.0
  }

  /** Two streams agree on their first `n` draws. */
  ghost predicate Agree(d1: Draws, d2: Draws, n: nat)
  {
    forall k: nat :: k < n ==> d1(k) == d2(k)
  }

  // ---------------------------------------------------------------------
  // Grid size

  lemma SquareMonotone(a: nat, b: nat)
    requires a <= b
    ensures a * a <= b * b
  {
    MulMonotone(a, b, a);
    MulMonotone(a, b, b);
  }

  /** The grid size is `ceil(sqrt(count / 2))` for every positive count. */
  lemma GridSizeIsCeilSqrt(count: int)
    requires count >= 1
    ensures GridSize(count) >= 1
    ensures ((GridSize(count) - 1) * (GridSize(count) - 1)) as real < count as real / 2.0
    ensures count as real / 2.0 <= (GridSize(count) * GridSize(count)) as real
  {
    var g := GridSize(count);
    assert 2 * ((g - 1) * (g - 1)) < count;
    assert count <= 2 * (g * g);
  }

  /** Any side `n` that is large enough while `n - 1` is not is the grid size. */
  lemma GridSizeUnique(count: int, n: nat)
    requires count <= 2 * (n * n)
    requires n == 0 || 2 * ((n - 1) * (n - 1)) < count
    ensures GridSize(count) == n
  {
    var g := GridSize(count);
    if g < n {
      SquareMonotone(g, n - 1);
    } else if g > n {
      SquareMonotone(n, g - 1);
    }
  }

  /** A count of 0 or less gives an empty grid; any positive count at least a 1 x 1 grid. */
  lemma EmptyGridExactly(count: int)
    ensures GridSize(count) == 0 <==> count <= 0
  {
  }

  // ---------------------------------------------------------------------
  // Size and layout of the result

  /** The result holds `2 * g * g` triangles, at least `count` of them, and none exactly when `count <= 0`. */
  lemma {:induction false} PatternLength(p: Params, draws: Draws)
    ensures |Pattern(p, draws)| == 2 * (GridSize(p.count) * GridSize(p.count))
    ensures p.count <= |Pattern(p, draws)|
    ensures Pattern(p, draws) == [] <==> p.count <= 0
  {
    var g := GridSize(p.count);
    RowsLength(Cells(p.palette, g, Lattice(p, g, draws), draws), g, g);
  }

  /** Within a row, cell (i, jj) is emitted at positions `2 * jj` and `2 * jj + 1`. */
  lemma {:induction false} RowCellsAt(cells: seq<seq<seq<Triangle>>>, g: nat, i: nat, j: nat, jj: nat, h: nat)
    requires IsCellTable(cells, g) && i < g && jj < j <= g && h < 2
    ensures RowCells(cells, g, i, j)[2 * jj + h] == cells[i][jj][h]
    decreases j
  {
    if jj < j - 1 {
      RowCellsAt(cells, g, i, j - 1, jj, h);
    }
  }

  /** The triangles of the first `m` columns are emitted before all later ones and unchanged by them. */
  lemma {:induction false} RowsPrefix(cells: seq<seq<seq<Triangle>>>, g: nat, m: nat, i: nat)
    requires IsCellTable(cells, g) && m <= i <= g
    ensures |Rows(cells, g, m)| <= |Rows(cells, g, i)|
    ensures Rows(cells, g, i)[..|Rows(cells, g, m)|] == Rows(cells, g, m)
    decreases i
  {
    if m < i {
      RowsPrefix(cells, g, m, i - 1);
    }
  }

  /** The first `i` columns hold `2 * i * g` triangles, two per cell. */
  lemma {:induction false} RowsLength(cells: seq<seq<seq<Triangle>>>, g: nat, i: nat)
    requires IsCellTable(cells, g) && i <= g
    ensures |Rows(cells, g, i)| == 2 * (i * g)
    decreases i
  {
    if i > 0 {
      RowsLength(cells, g, i - 1);
      MulSucc(i - 1, g);
    }
  }

  /** Cell (ii, jj)'s triangles follow those of the columns before `ii`, whatever later columns follow. */
  lemma {:induction false} RowsAt(cells: seq<seq<seq<Triangle>>>, g: nat, i: nat, ii: nat, jj: nat, h: nat, n: nat)
    requires IsCellTable(cells, g) && ii < i <= g && jj < g && h < 2
    requires n == |Rows(cells, g, ii)| + 2 * jj + h
    ensures n < |Rows(cells, g, i)|
    ensures Rows(cells, g, i)[n] == cells[ii][jj][h]
  {
    var upTo := Rows(cells, g, ii + 1);
    assert upTo == Rows(cells, g, ii) + RowCells(cells, g, ii, g);
    RowCellsAt(cells, g, ii, g, jj, h);
    assert upTo[n] == cells[ii][jj][h];
    RowsPrefix(cells, g, ii + 1, i);
    assert Rows(cells, g, i)[n] == upTo[n];
  }

  /**
   * Cell (i, j) contributes the triangles at positions `2 * (i * g + j)` and
   * the one after: cells are emitted row of `i` by row of `i`, `j` inner.
   */
  lemma {:induction false} RowsCell(cells: seq<seq<seq<Triangle>>>, g: nat, i: nat, j: nat, h: nat)
    requires IsCellTable(cells, g) && i < g && j < g && h < 2
    ensures TriangleIndex(g, i, j) + h < |Rows(cells, g, g)|
    ensures Rows(cells, g, g)[TriangleIndex(g, i, j) + h] == cells[i][j][h]
  {
    RowsLength(cells, g, i);
    RowsAt(cells, g, g, i, j, h, TriangleIndex(g, i, j) + h);
  }

  /** Every triangle of the first `i` columns is one of the two triangles of one of their cells. */
  lemma {:induction false} RowsFrom(cells: seq<seq<seq<Triangle>>>, g: nat, i: nat, t: Triangle)
    returns (a: nat, b: nat)
    requires IsCellTable(cells, g) && i <= g && t in Rows(cells, g, i)
    ensures a < i && b < g && t in cells[a][b]
    decreases i
  {
    if t in Rows(cells, g, i - 1) {
      a, b := RowsFrom(cells, g, i - 1, t);
    } else {
      a := i - 1;
      b := RowCellsFrom(cells, g, i - 1, g, t);
    }
  }

  /** Every triangle of cells (i, 0) .. (i, j - 1) is one of the two triangles of one of them. */
  lemma {:induction false} RowCellsFrom(cells: seq<seq<seq<Triangle>>>, g: nat, i: nat, j: nat, t: Triangle)
    returns (b: nat)
    requires IsCellTable(cells, g) && i < g && j <= g && t in RowCells(cells, g, i, j)
    ensures b < j && t in cells[i][b]
    decreases j
  {
    if t in RowCells(cells, g, i, j - 1) {
      b := RowCellsFrom(cells, g, i, j - 1, t);
    } else {
      b := j - 1;
    }
  }

  /**
   * The two triangles of cell (i, j) share the diagonal the cell's first
   * draw chooses (top-left to bottom-right above one half, top-right to
   * bottom-left otherwise), and nothing else when the four corners are
   * distinct; together they cover the cell's four corners, and they take
   * their colours from the cell's second and third draws.
   */
  lemma {:induction false} CellShape(palette: seq<Color>, g: nat, points: seq<seq<Point>>, draws: Draws, i: nat, j: nat)
    requires IsGrid(points, g) && i < g && j < g
    ensures var ts := CellTriangles(palette, g, points, draws, i, j);
      var topLeft, topRight := points[i][j], points[i + 1][j];
      var bottomLeft, bottomRight := points[i][j + 1], points[i + 1][j + 1];
      var k := CellDrawIndex(g, i, j);
      var diagonal1 := draws(k) > 0.5;
      var a := if diagonal1 then topLeft else topRight;
      var b := if diagonal1 then bottomRight else bottomLeft;
      && a in Corners(ts[0]) && b in Corners(ts[0]) && a in Corners(ts[1]) && b in Corners(ts[1])
      && Corners(ts[0]) + Corners(ts[1]) == {topLeft, topRight, bottomLeft, bottomRight}
      && (|{topLeft, topRight, bottomLeft, bottomRight}| == 4 ==> Corners(ts[0]) * Corners(ts[1]) == {a, b})
      && ts[0].color == PickColor(palette, draws(k + 1))
      && ts[1].color == PickColor(palette, draws(k + 2))
  {
  }

  /** `RowsCell` for both triangles at once: cell (i, j) is the slice at `2 * (i * g + j)`. */
  lemma RowsSlice(cells: seq<seq<seq<Triangle>>>, g: nat, i: nat, j: nat)
    requires IsCellTable(cells, g) && i < g && j < g
    ensures TriangleIndex(g, i, j) + 2 <= |Rows(cells, g, g)|
    ensures Rows(cells, g, g)[TriangleIndex(g, i, j) .. TriangleIndex(g, i, j) + 2] == cells[i][j]
  {
    RowsCell(cells, g, i, j, 0);
    RowsCell(cells, g, i, j, 1);
  }

  /**
   * In the result, the triangles of cell (i, j), split as `CellShape` says
   * over the lattice points (i, j) .. (i + 1, j + 1), sit at positions
   * `2 * (i * g + j)` and the one after: cells are emitted row of `i` by
   * row of `i`, `j` inner.
   */
  lemma {:induction false} CellSplit(p: Params, draws: Draws, i: nat, j: nat)
    requires i < GridSize(p.count) && j < GridSize(p.count)
    ensures TriangleIndex(GridSize(p.count), i, j) + 2 <= |Pattern(p, draws)|
    ensures var g := GridSize(p.count);
      Pattern(p, draws)[TriangleIndex(g, i, j) .. TriangleIndex(g, i, j) + 2]
        == CellTriangles(p.palette, g, Lattice(p, g, draws), draws, i, j)
  {
    var g := GridSize(p.count);
    RowsSlice(Cells(p.palette, g, Lattice(p, g, draws), draws), g, i, j);
  }

  // ---------------------------------------------------------------------
  // Lattice points

  /** Edge points sit exactly on the edges; the far edges win over the near ones (only when `g == 0`). */
  lemma LatticeEdges(p: Params, g: nat, draws: Draws, i: nat, j: nat)
    requires i <= g && j <= g
    ensures i == g ==> LatticePoint(p, g, draws, i, j).x == p.width
    ensures 0 == i < g ==> LatticePoint(p, g, draws, i, j).x == 0.0
    ensures j == g ==> LatticePoint(p, g, draws, i, j).y == p.height
    ensures 0 == j < g ==> LatticePoint(p, g, draws, i, j).y == 0.0
  {
  }

  /** Points on the border, and every point when the displacement is 0, stay on their ideal grid position. */
  lemma IdealPoint(p: Params, g: nat, draws: Draws, i: nat, j: nat)
    requires 1 <= g && i <= g && j <= g
    requires !Interior(g, i, j) || p.displacement == 0.0
    ensures LatticePoint(p, g, draws, i, j)
         == Point(i as real * CellSize(p.width, g), j as real * CellSize(p.height, g))
  {
    assert g as real * (p.width / g as real) == p.width;
    assert g as real * (p.height / g as real) == p.height;
  }

  /** `(r - 0.5) * m` is at most half of `|m|` away from 0 for `r` in [0, 1). */
  lemma OffsetBound(d: real, r: real, m: real)
    requires 0.0 <= r < 1.0 && d == (r - 0.5) * m
    ensures Abs(d) <= 0.5 * Abs(m)
  {
    var a := Abs(m);
    var e := if m < 0.0 then 0.5 - r else r - 0.5;
    assert d == e * a;
    assert -0.5 <= e <= 0.5 && 0.0 <= a;
    assert (0.5 - e) * a >= 0.0 && (0.5 + e) * a >= 0.0;
  }

  /** An interior point is its ideal position moved by `(r - 0.5) * cellSize * displacement` on each axis. */
  lemma InteriorOffset(p: Params, g: nat, draws: Draws, i: nat, j: nat)
    requires Interior(g, i, j)
    ensures LatticePoint(p, g, draws, i, j).x - i as real * CellSize(p.width, g)
         == (draws(DisplacementIndex(g, i, j)) - 0.5) * (CellSize(p.width, g) * p.displacement)
    ensures LatticePoint(p, g, draws, i, j).y - j as real * CellSize(p.height, g)
         == (draws(DisplacementIndex(g, i, j) + 1) - 0.5) * (CellSize(p.height, g) * p.displacement)
  {
  }

  /**
   * An interior point moves at most half a cell times the displacement
   * factor on each axis, whatever its two draws in [0, 1) are.
   */
  lemma DisplacementBound(p: Params, g: nat, draws: Draws, i: nat, j: nat)
    requires Interior(g, i, j)
    requires 0.0 <= draws(DisplacementIndex(g, i, j)) < 1.0
    requires 0.0 <= draws(DisplacementIndex(g, i, j) + 1) < 1.0
    ensures Abs(LatticePoint(p, g, draws, i, j).x - i as real * CellSize(p.width, g))
         <= 0.5 * Abs(CellSize(p.width, g) * p.displacement)
    ensures Abs(LatticePoint(p, g, draws, i, j).y - j as real * CellSize(p.height, g))
         <= 0.5 * Abs(CellSize(p.height, g) * p.displacement)
  {
    var k := DisplacementIndex(g, i, j);
    InteriorOffset(p, g, draws, i, j);
    OffsetBound(LatticePoint(p, g, draws, i, j).x - i as real * CellSize(p.width, g),
                draws(k), CellSize(p.width, g) * p.displacement);
    OffsetBound(LatticePoint(p, g, draws, i, j).y - j as real * CellSize(p.height, g),
                draws(k + 1), CellSize(p.height, g) * p.displacement);
  }

  // ---------------------------------------------------------------------
  // Draw order

  /** `a * m + b` with `b < m` orders pairs lexicographically. */
  lemma MixedRadixOrder(a: nat, b: nat, a2: nat, b2: nat, m: nat)
    requires b < m && b2 < m
    ensures (a < a2 || (a == a2 && b < b2)) <==> a * m + b < a2 * m + b2
  {
    if a < a2 {
      MulSucc(a, m);
      MulMonotone(a + 1, a2, m);
    } else if a2 < a {
      MulSucc(a2, m);
      MulMonotone(a2 + 1, a, m);
    }
  }

  /**
   * Interior points draw in i-outer, j-inner order: one point's pair of
   * draws comes before another's exactly when the point comes first, and
   * two different points never share a draw.
   */
  lemma PointDrawOrder(g: nat, i: nat, j: nat, i2: nat, j2: nat)
    requires Interior(g, i, j) && Interior(g, i2, j2)
    ensures (i < i2 || (i == i2 && j < j2)) <==> DisplacementIndex(g, i, j) < DisplacementIndex(g, i2, j2)
    ensures (i, j) != (i2, j2) ==>
      DisplacementIndex(g, i, j) + 2 <= DisplacementIndex(g, i2, j2) ||
      DisplacementIndex(g, i2, j2) + 2 <= DisplacementIndex(g, i, j)
  {
    MixedRadixOrder(i - 1, j - 1, i2 - 1, j2 - 1, g - 1);
    MixedRadixOrder(i2 - 1, j2 - 1, i - 1, j - 1, g - 1);
  }

  /** The interior points use the lattice's draws with no gap: from draw 0 to the last lattice draw. */
  lemma PointDrawsConsecutive(g: nat, i: nat, j: nat)
    requires Interior(g, i, j)
    ensures (i, j) == (1, 1) ==> DisplacementIndex(g, i, j) == 0
    ensures j + 1 < g ==> DisplacementIndex(g, i, j + 1) == DisplacementIndex(g, i, j) + 2
    ensures j + 1 == g && i + 1 < g ==> DisplacementIndex(g, i + 1, 1) == DisplacementIndex(g, i, j) + 2
    ensures (i, j) == (g - 1, g - 1) ==> DisplacementIndex(g, i, j) + 2 == LatticeDraws(g)
  {
    MulSucc(i - 1, g - 1);
  }

  /** Cells draw after the whole lattice, in i-outer, j-inner order, three draws each. */
  lemma CellDrawOrder(g: nat, i: nat, j: nat, i2: nat, j2: nat)
    requires i < g && j < g && i2 < g && j2 < g
    ensures (i < i2 || (i == i2 && j < j2)) <==> CellDrawIndex(g, i, j) < CellDrawIndex(g, i2, j2)
    ensures (i, j) != (i2, j2) ==>
      CellDrawIndex(g, i, j) + 3 <= CellDrawIndex(g, i2, j2) ||
      CellDrawIndex(g, i2, j2) + 3 <= CellDrawIndex(g, i, j)
  {
    MixedRadixOrder(i, j, i2, j2, g);
    MixedRadixOrder(i2, j2, i, j, g);
  }

  /** The cells use the draws after the lattice's with no gap, up to the last draw of the generation. */
  lemma CellDrawsConsecutive(g: nat, i: nat, j: nat)
    requires i < g && j < g
    ensures (i, j) == (0, 0) ==> CellDrawIndex(g, i, j) == LatticeDraws(g)
    ensures j + 1 < g ==> CellDrawIndex(g, i, j + 1) == CellDrawIndex(g, i, j) + 3
    ensures j + 1 == g && i + 1 < g ==> CellDrawIndex(g, i + 1, 0) == CellDrawIndex(g, i, j) + 3
    ensures (i, j) == (g - 1, g - 1) ==> CellDrawIndex(g, i, j) + 3 == TotalDraws(g)
  {
    MulSucc(i, g);
  }

  // ---------------------------------------------------------------------
  // Colours

  /** The colours of the two triangles of one cell, as `PatternColors` states them. */
  lemma CellColors(palette: seq<Color>, g: nat, points: seq<seq<Point>>, draws: Draws, a: nat, b: nat, t: Triangle)
    requires IsGrid(points, g) && a < g && b < g && t in CellTriangles(palette, g, points, draws, a, b)
    ensures t.color.Some? ==> t.color.value in palette
    ensures |palette| == 0 ==> t.color == None
    ensures |palette| > 0 && DrawsInRange(draws, TotalDraws(g)) ==> t.color.Some?
  {
    var k := CellDrawIndex(g, a, b);
    var ts := CellTriangles(palette, g, points, draws, a, b);
    assert t == ts[0] || t == ts[1];
    assert ts[0].color == PickColor(palette, draws(k + 1));
    assert ts[1].color == PickColor(palette, draws(k + 2));
  }

  /** The colours of the triangles of any lattice's cells, as `PatternColors` states them. */
  lemma TableColors(palette: seq<Color>, g: nat, points: seq<seq<Point>>, draws: Draws)
    requires IsGrid(points, g)
    ensures forall t :: t in Rows(Cells(palette, g, points, draws), g, g) && t.color.Some? ==> t.color.value in palette
    ensures |palette| == 0 ==> forall t :: t in Rows(Cells(palette, g, points, draws), g, g) ==> t.color == None
    ensures |palette| > 0 && DrawsInRange(draws, TotalDraws(g)) ==>
      forall t :: t in Rows(Cells(palette, g, points, draws), g, g) ==> t.color.Some?
  {
    var cells := Cells(palette, g, points, draws);
    forall t | t in Rows(cells, g, g)
      ensures t.color.Some? ==> t.color.value in palette
      ensures |palette| == 0 ==> t.color == None
      ensures |palette| > 0 && DrawsInRange(draws, TotalDraws(g)) ==> t.color.Some?
    {
      var a, b := RowsFrom(cells, g, g, t);
      CellColors(palette, g, points, draws, a, b, t);
    }
  }

  /**
   * Every colour in the result comes from the palette; an empty palette
   * leaves every triangle without a colour; a non-empty one colours every
   * triangle when the draws lie in [0, 1).
   */
  lemma PatternColors(p: Params, draws: Draws)
    ensures forall t :: t in Pattern(p, draws) && t.color.Some? ==> t.color.value in p.palette
    ensures |p.palette| == 0 ==> forall t :: t in Pattern(p, draws) ==> t.color == None
    ensures |p.palette| > 0 && DrawsInRange(draws, TotalDraws(GridSize(p.count))) ==>
      forall t :: t in Pattern(p, draws) ==> t.color.Some?
  {
    var g := GridSize(p.count);
    TableColors(p.palette, g, Lattice(p, g, draws), draws);
  }

  // ---------------------------------------------------------------------
  // Dependence on the draws

  /** A cell depends only on its lattice and the draws of the generation. */
  lemma CellsAgree(palette: seq<Color>, g: nat, points: seq<seq<Point>>, d1: Draws, d2: Draws)
    requires IsGrid(points, g) && Agree(d1, d2, TotalDraws(g))
    ensures Cells(palette, g, points, d1) == Cells(palette, g, points, d2)
  {
    var c1, c2 := Cells(palette, g, points, d1), Cells(palette, g, points, d2);
    forall a | 0 <= a < g
      ensures c1[a] == c2[a]
    {
      forall b | 0 <= b < g
        ensures c1[a][b] == c2[a][b]
      {
        var k := CellDrawIndex(g, a, b);
        assert d1(k) == d2(k) && d1(k + 1) == d2(k + 1) && d1(k + 2) == d2(k + 2);
      }
    }
  }

  /** A lattice point depends only on the lattice's draws. */
  lemma LatticePointAgree(p: Params, g: nat, d1: Draws, d2: Draws, i: nat, j: nat)
    requires i <= g && j <= g && Agree(d1, d2, LatticeDraws(g))
    ensures LatticePoint(p, g, d1, i, j) == LatticePoint(p, g, d2, i, j)
  {
    if Interior(g, i, j) {
      var m := DisplacementIndex(g, i, j);
      assert d1(m) == d2(m) && d1(m + 1) == d2(m + 1);
    }
  }

  lemma LatticeAgree(p: Params, g: nat, d1: Draws, d2: Draws)
    requires Agree(d1, d2, LatticeDraws(g))
    ensures Lattice(p, g, d1) == Lattice(p, g, d2)
  {
    var l1, l2 := Lattice(p, g, d1), Lattice(p, g, d2);
    forall a | 0 <= a <= g
      ensures l1[a] == l2[a]
    {
      forall b | 0 <= b <= g
        ensures l1[a][b] == l2[a][b]
      {
        LatticePointAgree(p, g, d1, d2, a, b);
      }
    }
  }

  /** The result depends on the first `TotalDraws` draws only: later calls of the source are never made. */
  lemma PatternPrefix(p: Params, d1: Draws, d2: Draws)
    requires Agree(d1, d2, TotalDraws(GridSize(p.count)))
    ensures Pattern(p, d1) == Pattern(p, d2)
  {
    var g := GridSize(p.count);
    LatticeAgree(p, g, d1, d2);
    CellsAgree(p.palette, g, Lattice(p, g, d1), d1, d2);
  }

  // ---------------------------------------------------------------------
  // The seeded source

  /** Every number the seeded source returns lies in [0, 1). */
  lemma SeededDrawsInRange(seed: int, n: nat)
    ensures DrawsInRange(Mulberry32.Values(Mulberry32.SeedState(seed)), n)
  {
    var s := Mulberry32.SeedState(seed);
    forall k: nat | k < n
      ensures 0.0 <= Mulberry32.Values(s)(k) < 1.0
    {
      assert Mulberry32.Values(s)(k) == Mulberry32.Draw(s, k);
    }
  }

  /**
   * A seeded pattern with a non-empty palette colours every triangle from
   * the palette, and seeds that agree modulo 2^32 give the same pattern.
   */
  lemma SeededPattern(p: Params, seed: int, seed2: int)
    requires seed % Mulberry32.Modulus == seed2 % Mulberry32.Modulus
    ensures var values := Mulberry32.Values(Mulberry32.SeedState(seed));
      |p.palette| > 0 ==> forall t :: t in Pattern(p, values) ==> t.color.Some? && t.color.value in p.palette
    ensures Pattern(p, Mulberry32.Values(Mulberry32.SeedState(seed)))
         == Pattern(p, Mulberry32.Values(Mulberry32.SeedState(seed2)))
  {
    SeededDrawsInRange(seed, TotalDraws(GridSize(p.count)));
    PatternColors(p, Mulberry32.Values(Mulberry32.SeedState(seed)));
    Mulberry32.SameSeedSameStream(seed, seed2, 0);
  }

  /** The floor of `a / m` for reals is the integer quotient `a / m`. */
  lemma FloorOfQuotient(a: int, m: int)
    requires m > 0
    ensures (a as real / m as real).Floor == a / m
  {
    var q, r := a / m, a % m;
    assert a as real / m as real == q as real + r as real / m as real;
  }

  /**
   * For a draw `x / 2^32` (`Mulberry32.ToUnit` of an unsigned 32-bit value
   * `x`), `Math.floor(draw * n)` is the integer quotient `x * n / 2^32`.
   */
  lemma ColorIndexExact(x: nat, n: nat)
    ensures ColorIndex(n, x as real / 4294967296.0) == (x * n) / Mulberry32.Modulus
  {
    ScaledQuotient(x, n);
    FloorOfQuotient(x * n, Mulberry32.Modulus);
  }

  lemma ScaledQuotient(x: int, n: nat)
    ensures x as real / 4294967296.0 * n as real == (x * n) as real / Mulberry32.Modulus as real
  {
  }

  /** The first diagonal is chosen exactly when the draw's unsigned value exceeds 2^31. */
  lemma DiagonalThreshold(u: bv32)
    ensures Mulberry32.ToUnit(u) > 0.5 <==> u as int > 0x8000_0000
  {
  }

  // ---------------------------------------------------------------------
  // Examples

  /**
   * A 200 x 100 pattern asked for 8 triangles with one colour and no
   * displacement: a 2 x 2 grid of 8 black triangles on the lattice
   * `(100 * i, 50 * j)`, whatever the draws.
   */
  lemma PlainTwoByTwo(draws: Draws)
    requires DrawsInRange(draws, 14)
    ensures var p := Params(200.0, 100.0, 8, ["#000000"], 0.0);
      && GridSize(8) == 2
      && |Pattern(p, draws)| == 8
      && (forall t :: t in Pattern(p, draws) ==> t.color == Some("#000000"))
      && (forall i, j :: 0 <= i <= 2 && 0 <= j <= 2 ==>
            LatticePoint(p, 2, draws, i, j) == Point(100.0 * i as real, 50.0 * j as real))
  {
    var p := Params(200.0, 100.0, 8, ["#000000"], 0.0);
    GridSizeUnique(8, 2);
    PatternLength(p, draws);
    PatternColors(p, draws);
    forall i, j | 0 <= i <= 2 && 0 <= j <= 2
      ensures LatticePoint(p, 2, draws, i, j) == Point(100.0 * i as real, 50.0 * j as real)
    {
      IdealPoint(p, 2, draws, i, j);
    }
  }

  /**
   * The component's default count of 80 triangles gives a 7 x 7 grid of 98
   * triangles; the secondary story's 100 give an 8 x 8 grid of 128.
   */
  lemma StoryGridSizes(p: Params, draws: Draws)
    ensures p.count == 80 ==> GridSize(p.count) == 7 && |Pattern(p, draws)| == 98
    ensures p.count == 100 ==> GridSize(p.count) == 8 && |Pattern(p, draws)| == 128
  {
    GridSizeUnique(80, 7);
    GridSizeUnique(100, 8);
    PatternLength(p, draws);
  }

  /** Twice the signed area of a triangle; its sign is the orientation of the corners. */
  function SignedArea2(t: Triangle): real
  {
    (t.p1.x - t.p0.x) * (t.p2.y - t.p0.y) - (t.p2.x - t.p0.x) * (t.p1.y - t.p0.y)
  }

  /** Draws that push lattice point (1, 1) of a 3 x 3 grid down-right and its neighbours up-left. */
  function FoldingDraws(): Draws
  {
    (k: nat) => if k < 2 then 0.99 else if k < 6 then 0.0 else 0.5
  }

  /**
   * The cells do not always tile the canvas: with the component's default
   * displacement 0.6, point (1, 1) of a 3 x 3 grid moves past the TR-BL
   * diagonal of cell (1, 1), so that cell's two triangles (positions 8 and 9
   * of the result) have opposite orientations and overlap.
   */
  lemma FoldedCell()
    ensures var p := Params(3.0, 3.0, 18, ["a"], 0.6);
      && GridSize(18) == 3
      && |Pattern(p, FoldingDraws())| == 18
      && SignedArea2(Pattern(p, FoldingDraws())[8]) < 0.0 < SignedArea2(Pattern(p, FoldingDraws())[9])
  {
    var p := Params(3.0, 3.0, 18, ["a"], 0.6);
    var d := FoldingDraws();
    GridSizeUnique(18, 3);
    PatternLength(p, d);
    CellSplit(p, d, 1, 1);
    FoldingPoints(p, d);
    FoldingTriangles(p.palette, Lattice(p, 3, d), d);
    assert TriangleIndex(3, 1, 1) == 8;
    var ts := Pattern(p, d)[8..10];
    assert Pattern(p, d)[8] == ts[0] && Pattern(p, d)[9] == ts[1];
  }

  /** The four corners of cell (1, 1) under `FoldingDraws`. */
  lemma FoldingPoints(p: Params, d: Draws)
    requires p == Params(3.0, 3.0, 18, ["a"], 0.6) && d == FoldingDraws()
    ensures LatticePoint(p, 3, d, 1, 1) == Point(1.294, 1.294)
    ensures LatticePoint(p, 3, d, 2, 1) == Point(1.7, 0.7)
    ensures LatticePoint(p, 3, d, 1, 2) == Point(0.7, 1.7)
    ensures LatticePoint(p, 3, d, 2, 2) == Point(2.0, 2.0)
  {
    assert DisplacementIndex(3, 1, 1) == 0 && DisplacementIndex(3, 1, 2) == 2;
    assert DisplacementIndex(3, 2, 1) == 4 && DisplacementIndex(3, 2, 2) == 6;
  }

  /** With those corners, cell (1, 1) is split TR-BL and its two triangles turn opposite ways. */
  lemma FoldingTriangles(palette: seq<Color>, points: seq<seq<Point>>, d: Draws)
    requires IsGrid(points, 3) && d == FoldingDraws()
    requires points[1][1] == Point(1.294, 1.294) && points[2][1] == Point(1.7, 0.7)
    requires points[1][2] == Point(0.7, 1.7) && points[2][2] == Point(2.0, 2.0)
    ensures var ts := CellTriangles(palette, 3, points, d, 1, 1);
      SignedArea2(ts[0]) < 0.0 < SignedArea2(ts[1])
  {
    assert CellDrawIndex(3, 1, 1) == 20;
  }
}
