# Geometric pattern generator and its seeded random source

This project models the two parts of the `GeometricPattern` component that do
the computing, in `packages/components/src/GeometricPattern.tsx`:

- `createSeededRandom`, a Mulberry32 generator. It returns a closure that
  advances a 32-bit state by `0x6D2B79F5` on each call and mixes the new
  state into a number in [0, 1).
- `generateTriangles`, which turns a canvas size, a requested triangle count,
  a palette, a displacement factor and a random source into a list of
  coloured triangles. It does this in two steps:
  1. It lays a `(g+1) x (g+1)` lattice over the canvas, with
     `g = ceil(sqrt(count / 2))`. Each interior point is jittered by two
     draws, and the border points are clamped to the canvas edges.
  2. It splits each of the `g x g` cells along a diagonal. One draw picks the
     diagonal, and two more draws pick the colours of the two triangles.

Three modules:

- `Mulberry32` (`mulberry32.dfy`):
  - the generator state is a `bv32`; the `SeededRandom` class holds it;
  - `Draw`, `Stream` and `Values` give the numbers the generator returns, in
    closed form;
  - lemmas about those numbers: the draw order, prefixes, seeds that agree
    modulo 2^32, and a known answer for seed 0.
- `GeometricPattern` (`geometric_pattern.dfy`):
  - `Pattern(p, draws)` is the closed form of what `generateTriangles`
    returns when its random source yields `draws(0)`, `draws(1)`, … in turn.
    The closed form fixes which draw each point, diagonal and colour takes.
  - `GenerateTriangles` is the imperative model. Like the source, it uses two
    double loops over a `RandomSource` object whose `drawn` counter advances
    on each call. It is proved to make exactly `TotalDraws(g)` calls and to
    return `Pattern` of the numbers those calls returned.
- `PatternProperties` (`pattern_properties.dfy`): what the result satisfies
  for every stream of draws, and for the seeded source in particular:
  - its size;
  - where each cell's triangles sit in the list;
  - how a cell is split;
  - the edge clamping and the displacement bound;
  - the order in which draws are consumed;
  - the colours;
  - which draws the result depends on.

The seeded source of the component is `createSeededRandom(seed)`. It feeds
`generateTriangles` the stream `Mulberry32.Values(Mulberry32.SeedState(seed))`.
`Mulberry32.SeededRandom.DrawMany` shows that this stream is what successive
`SeededRandom.Next` calls return: it calls `Next` n times in a loop and
returns exactly `Stream` of the starting state, one entry per `Values`. `PatternProperties.SeededPattern` states
the facts for that stream.

## Model

| member | source | states |
|---|---|---|
| `Mulberry32.ToUnit` | packages/components/src/GeometricPattern.tsx:25 | the division by 4294967296 yields a number in [0, 1), and multiplying it by 2^32 gives back the unsigned 32-bit value |
| `Mulberry32.SeededRandom.constructor` | packages/components/src/GeometricPattern.tsx:19 | the captured seed is held as its value modulo 2^32 |
| `Mulberry32.SeededRandom.Next` | packages/components/src/GeometricPattern.tsx:20-26 | one call: the state grows by `0x6D2B79F5` modulo 2^32; the unsigned value is the mix of the new state alone; the returned number is that value / 2^32 |
| `Mulberry32.SeededRandom.DrawMany` | packages/components/src/GeometricPattern.tsx:20-26 | n successive calls of the closure leave the state n advances further on, and return exactly `Stream(s, n)`: the k-th call returns `Draw(s, k)` |
| `Mulberry32.Draw` | packages/components/src/GeometricPattern.tsx:21-25 | the k-th number drawn from a state lies in [0, 1) |
| `Mulberry32.Stream` | packages/components/src/GeometricPattern.tsx:20-26 | the first n numbers: exactly n of them, each in [0, 1) |
| `Mulberry32.SeedState` | packages/components/src/GeometricPattern.tsx:19 | definition: the seed modulo 2^32 as a 32-bit state (Dafny's `%` is never negative, like ToUint32 and `>>> 0`); pinned by `SameSeedSameStream` |
| `Mulberry32.Mix` | packages/components/src/GeometricPattern.tsx:22-25 | definition: the output mixing of a just-advanced state, with `Math.imul` and `>>>` as wrapping `bv32` `*` and `>>`; pinned by the known answer `FirstDrawFromSeedZero` |
| `Mulberry32.StateAfter` | packages/components/src/GeometricPattern.tsx:21 | definition: the state after k advances by `0x6D2B79F5`; pinned by `StateAfterShift` and `SeededRandom.DrawMany` |
| `Mulberry32.Outputs` | packages/components/src/GeometricPattern.tsx:21-25 | the unsigned values of the first n draws: exactly n of them (their values: `OutputsAt`, `OutputsSplit`) |
| `Mulberry32.Values` | packages/components/src/GeometricPattern.tsx:20-26 | definition: the endless stream whose k-th entry is `Draw(s, k)`; pinned by `StreamAt` and `SeededRandom.DrawMany` |
| `Mulberry32.StateAfterShift` | packages/components/src/GeometricPattern.tsx:21 | advancing once and then k more times is advancing k + 1 times |
| `Mulberry32.OutputsAt` | packages/components/src/GeometricPattern.tsx:21-25 | the k-th unsigned value is the mix of the state after k + 1 advances, and depends on nothing else |
| `Mulberry32.StreamAt` | packages/components/src/GeometricPattern.tsx:20-26 | the k-th number of every finite stream is `Values(s)(k)`, the mix of the state after k + 1 advances divided by 2^32 |
| `Mulberry32.OutputsSplit` | packages/components/src/GeometricPattern.tsx:20-26 | m + n draws are the first m draws followed by n draws from the state after m advances |
| `Mulberry32.StreamPrefix` | packages/components/src/GeometricPattern.tsx:20-26 | drawing more numbers never changes the earlier ones |
| `Mulberry32.SameSeedSameStream` | packages/components/src/GeometricPattern.tsx:19-26 | seeds equal modulo 2^32 give the same state, the same finite streams and the same endless stream |
| `Mulberry32.FirstDrawFromSeedZero` | packages/components/src/GeometricPattern.tsx:21-25 | known answer: from seed 0 the first unsigned value is `0x4434B462`, the number 1144304738 / 2^32 |
| `GeometricPattern.GridSize` | packages/components/src/GeometricPattern.tsx:41 | g is large enough (`2 * g * g >= count`) and g - 1 is not, or g is 0 |
| `GeometricPattern.CellSize` | packages/components/src/GeometricPattern.tsx:42-43 | definition: extent / g, and 0 where the source divides by zero (g = 0, never observed); pinned by `IdealPoint` and `PlainTwoByTwo` |
| `GeometricPattern.LatticeDraws` | packages/components/src/GeometricPattern.tsx:48-58 | definition: two draws per interior point, `2 * (g - 1)^2` (0 for g = 0); pinned by `PointDrawsConsecutive` and `JitteredLattice` |
| `GeometricPattern.TotalDraws` | packages/components/src/GeometricPattern.tsx:29-106 | definition: the lattice's draws plus three per cell; pinned by `CellDrawsConsecutive` and `GenerateTriangles` |
| `GeometricPattern.LatticePoint` | packages/components/src/GeometricPattern.tsx:51-66 | definition: the ideal position, the displacement of an interior point by its two draws, then the clamps; pinned by `LatticeEdges`, `IdealPoint`, `InteriorOffset`, `DisplacementBound` and `VisitLatticePoint` |
| `GeometricPattern.ColorIndex` | packages/components/src/GeometricPattern.tsx:85 | definition: `Math.floor(r * palette.length)`; pinned by `PickColor`'s contract and `ColorIndexExact` |
| `GeometricPattern.Rows` | packages/components/src/GeometricPattern.tsx:71-103 | definition: the cells' triangles with i outer and j inner; pinned by `RowsLength`, `RowsCell`, `RowsPrefix`, `RowsFrom` and `SplitCells` |
| `GeometricPattern.Pattern` | packages/components/src/GeometricPattern.tsx:29-106 | definition: the closed form of the result for a stream of draws; `GenerateTriangles` is proved to return it, and `PatternLength`, `CellSplit`, `PatternColors` and `PatternPrefix` state its properties |
| `GeometricPattern.DisplacementIndex` | packages/components/src/GeometricPattern.tsx:55-57 | both displacement draws of an interior point fall among the lattice's draws |
| `GeometricPattern.CellDrawIndex` | packages/components/src/GeometricPattern.tsx:79-99 | a cell's three draws come after the lattice's and before the end of the generation |
| `GeometricPattern.PickColor` | packages/components/src/GeometricPattern.tsx:85 | `palette[Math.floor(r * palette.length)]` finds a colour exactly when the index is inside the palette; that colour is the palette entry at the index; a non-empty palette and r in [0, 1) always find one |
| `GeometricPattern.Lattice` | packages/components/src/GeometricPattern.tsx:46-68 | the point table has (g + 1) x (g + 1) entries, and entry [i][j] is lattice point (i, j) |
| `GeometricPattern.CellTriangles` | packages/components/src/GeometricPattern.tsx:73-101 | each cell yields two triangles (their shape and colours: `CellShape`) |
| `GeometricPattern.Cells` | packages/components/src/GeometricPattern.tsx:71-103 | the cell table has g x g entries of two triangles each, and entry [i][j] is `CellTriangles(i, j)` |
| `GeometricPattern.RowCells` | packages/components/src/GeometricPattern.tsx:72-102 | the inner cell loop emits two triangles per cell |
| `GeometricPattern.RandomSource.constructor` | packages/components/src/GeometricPattern.tsx:35 | a fresh source has been called 0 times |
| `GeometricPattern.RandomSource.Next` | packages/components/src/GeometricPattern.tsx:35 | one `random()` call returns the next number of the source's stream and counts one call |
| `GeometricPattern.GenerateTriangles` | packages/components/src/GeometricPattern.tsx:29-106 | `generateTriangles` calls `random` exactly `2 * (g-1)^2 + 3 * g^2` times (0 for g = 0) and returns `Pattern` of the numbers it got |
| `GeometricPattern.JitteredLattice` | packages/components/src/GeometricPattern.tsx:46-68 | the lattice loop takes two draws per interior point and builds exactly `Lattice` |
| `GeometricPattern.VisitLatticePoint` | packages/components/src/GeometricPattern.tsx:51-66 | one lattice point: two draws when interior, none otherwise; the result is `LatticePoint(i, j)` |
| `GeometricPattern.SplitCells` | packages/components/src/GeometricPattern.tsx:70-103 | the cell loop takes three draws per cell and emits the cells' triangles with i outer and j inner |
| `GeometricPattern.SplitRow` | packages/components/src/GeometricPattern.tsx:72-102 | one pass of the outer cell loop: 3 g draws; it emits the cells (i, 0) .. (i, g - 1) in order |
| `GeometricPattern.SplitCell` | packages/components/src/GeometricPattern.tsx:73-101 | one cell: the diagonal draw, then the two colour draws; the result is `CellTriangles(i, j)` |
| `PatternProperties.GridSizeIsCeilSqrt` | packages/components/src/GeometricPattern.tsx:41 | for count >= 1, the grid size is at least 1 and is `ceil(sqrt(count / 2))` (`(g-1)^2 < count/2 <= g^2`) |
| `PatternProperties.GridSizeUnique` | packages/components/src/GeometricPattern.tsx:41 | any side that is large enough while the side below it is not is the grid size |
| `PatternProperties.EmptyGridExactly` | packages/components/src/GeometricPattern.tsx:41 | the grid is empty exactly when count <= 0 |
| `PatternProperties.PatternLength` | packages/components/src/GeometricPattern.tsx:39-103 | the result has exactly `2 * g * g` triangles, at least `count` of them, and none exactly when count <= 0 |
| `PatternProperties.RowCellsAt` | packages/components/src/GeometricPattern.tsx:72-101 | within a row, cell j's triangles are at positions 2 j and 2 j + 1 |
| `PatternProperties.RowsPrefix` | packages/components/src/GeometricPattern.tsx:71-103 | later passes of the outer loop only append: the first m columns' triangles are a prefix of the result |
| `PatternProperties.RowsLength` | packages/components/src/GeometricPattern.tsx:71-103 | the first i columns emit `2 * i * g` triangles |
| `PatternProperties.RowsAt` | packages/components/src/GeometricPattern.tsx:71-103 | cell (ii, jj)'s triangles come right after the columns before ii and row position 2 jj |
| `PatternProperties.RowsCell` | packages/components/src/GeometricPattern.tsx:71-103 | cell (i, j)'s two triangles are at positions `2 * (i * g + j)` and `2 * (i * g + j) + 1` |
| `PatternProperties.RowsSlice` | packages/components/src/GeometricPattern.tsx:71-103 | the slice at `2 * (i * g + j)` of length 2 is cell (i, j) |
| `PatternProperties.RowsFrom` | packages/components/src/GeometricPattern.tsx:71-103 | every emitted triangle is a triangle of some cell |
| `PatternProperties.RowCellsFrom` | packages/components/src/GeometricPattern.tsx:72-102 | every triangle of a row is a triangle of one of its cells |
| `PatternProperties.CellShape` | packages/components/src/GeometricPattern.tsx:73-101 | the two triangles of a cell both contain the endpoints of the diagonal the first draw picks (TL–BR when d > 0.5, TR–BL otherwise); when the corners are distinct they share only that diagonal; together they use exactly the cell's four corners; their colours come from the second and third draws |
| `PatternProperties.CellSplit` | packages/components/src/GeometricPattern.tsx:71-103 | in the result, positions `2 * (i * g + j)` and the one after hold exactly cell (i, j)'s two triangles, `CellTriangles` of the lattice the first loop builds |
| `PatternProperties.LatticeEdges` | packages/components/src/GeometricPattern.tsx:60-64 | border points lie exactly on the canvas edges, whatever the displacement |
| `PatternProperties.IdealPoint` | packages/components/src/GeometricPattern.tsx:51-64 | border points, and every point when the displacement is 0, sit at `(i * cellWidth, j * cellHeight)` |
| `PatternProperties.InteriorOffset` | packages/components/src/GeometricPattern.tsx:55-57 | an interior point is moved from its ideal position by `(r - 0.5) * cellSize * displacement` on each axis, using its two draws |
| `PatternProperties.DisplacementBound` | packages/components/src/GeometricPattern.tsx:51-58 | with draws in [0, 1), an interior point moves at most `0.5 * abs(cellSize * displacement)` on each axis |
| `PatternProperties.PointDrawOrder` | packages/components/src/GeometricPattern.tsx:48-58 | interior points draw in i-outer, j-inner order, and no two points share a draw |
| `PatternProperties.PointDrawsConsecutive` | packages/components/src/GeometricPattern.tsx:48-58 | the lattice draws start at draw 0 and run without a gap up to `2 * (g - 1)^2` |
| `PatternProperties.CellDrawOrder` | packages/components/src/GeometricPattern.tsx:71-99 | cells draw in i-outer, j-inner order, three draws each, and no two cells share a draw |
| `PatternProperties.CellDrawsConsecutive` | packages/components/src/GeometricPattern.tsx:71-99 | cell draws start right after the lattice's and run without a gap up to the last draw of the generation |
| `PatternProperties.CellColors` | packages/components/src/GeometricPattern.tsx:85-99 | a cell's colours come from the palette; an empty palette gives no colour; a non-empty one with draws in [0, 1) always gives one |
| `PatternProperties.TableColors` | packages/components/src/GeometricPattern.tsx:71-103 | the same three facts for every triangle of any lattice's cells |
| `PatternProperties.PatternColors` | packages/components/src/GeometricPattern.tsx:85-99 | every colour in the result is a palette entry; an empty palette leaves every triangle uncoloured; a non-empty palette with draws in [0, 1) colours every triangle |
| `PatternProperties.CellsAgree` | packages/components/src/GeometricPattern.tsx:79-99 | the cells depend only on the lattice and the generation's draws |
| `PatternProperties.LatticePointAgree` | packages/components/src/GeometricPattern.tsx:55-57 | a lattice point depends only on the lattice's draws |
| `PatternProperties.LatticeAgree` | packages/components/src/GeometricPattern.tsx:48-68 | the lattice depends only on the lattice's draws |
| `PatternProperties.PatternPrefix` | packages/components/src/GeometricPattern.tsx:29-106 | the result depends only on the first `TotalDraws` numbers of the source |
| `PatternProperties.SeededDrawsInRange` | packages/components/src/GeometricPattern.tsx:25 | every number the seeded source returns lies in [0, 1) |
| `PatternProperties.SeededPattern` | packages/components/src/GeometricPattern.tsx:19-27 | a seeded pattern with a non-empty palette colours every triangle from the palette, and seeds equal modulo 2^32 give the same pattern |
| `PatternProperties.ColorIndexExact` | packages/components/src/GeometricPattern.tsx:85 | for a seeded draw `x / 2^32`, the palette index `floor(draw * n)` is the integer quotient `x * n / 2^32` |
| `PatternProperties.DiagonalThreshold` | packages/components/src/GeometricPattern.tsx:79 | a seeded draw picks the first diagonal exactly when its unsigned value exceeds 2^31 |
| `PatternProperties.FoldedCell` | packages/components/src/GeometricPattern.tsx:51-58 | counterexample to tiling: a 3 x 3 grid with the default displacement 0.6 and suitable draws makes the two triangles of cell (1, 1) (result positions 8 and 9) turn opposite ways, so they overlap |
| `PatternProperties.PlainTwoByTwo` | packages/components/src/GeometricPattern.tsx:29-106 | example: a 200 x 100 canvas, count 8, one colour, no displacement gives a 2 x 2 grid of 8 triangles of that colour on the lattice `(100 i, 50 j)` |
| `PatternProperties.StoryGridSizes` | packages/components/src/GeometricPattern.tsx:109 | the default count 80 gives a 7 x 7 grid of 98 triangles; the count 100 of the secondary story gives 8 x 8 and 128 |

## Left out

- The `GeometricPattern` React component (lines 108-214) is not modelled. That covers the canvas drawing, `ResizeObserver`, the hooks and the dependency lists. These are browser I/O and UI.
- The `Math.random` fallback (line 157) is not modelled as such. `generateTriangles` takes an arbitrary `RandomSource`. Properties that need draws in [0, 1) assume so through `DrawsInRange`.
- Floating point is not modelled: coordinates, cell sizes and draws are exact reals.
  - IEEE-754 rounding in `Math.sqrt`, `Math.ceil`, the multiplications and the division by 4294967296 is not represented.
  - `GridSize` is the exact least `g` with `2 * g * g >= count`. That equals `ceil(sqrt(count / 2))` in exact arithmetic.
- The count is an `int`; a non-integer `count` is not modelled.
- The seed is taken modulo 2^32. Every read of it goes through ToInt32 or `>>>`. The model does not cover a seed or running sum beyond 2^53, where the JavaScript double would lose precision.
- `Mulberry32.SeededRandom.constructor`: takes an integer seed only. A fractional seed is not modelled.
  - The source's `seed` is a `number`, and the running sum at line 21 keeps its fraction.
  - ToInt32 truncates that sum toward zero on each draw, so while the sum is negative it rounds up, and once it is positive it rounds down.
  - So a fractional seed need not draw like any one integer seed. For example, seed `-3 * 0x6D2B79F5 - 0.5` draws its first three numbers like the integer seed `-3 * 0x6D2B79F5`, and later numbers like `-3 * 0x6D2B79F5 - 1`.
- `GeometricPattern.GenerateTriangles`: takes a `RandomSource` rather than a `Mulberry32.SeededRandom`. Verifying the generator against the 32-bit mixing directly is too costly for the solver. The seeded case is linked through `Mulberry32.Values`, `Mulberry32.StreamAt` and `Mulberry32.SeededRandom.DrawMany`.
- `GeometricPattern.GenerateTriangles`: the loop bodies are written as helper methods, one per pass: `JitteredLattice`, `VisitLatticePoint`, `SplitCells`, `SplitRow` and `SplitCell`.
  - The point table is built as a `seq` of rows that is extended, not as a JavaScript array assigned in place.
  - A cell's two triangles are appended as one pair rather than by two `push` calls; the order is the same.
- `GeometricPattern.CellSize`: with `g == 0` the source divides by zero, giving `Infinity` or `NaN`. The model gives 0. The value is never observed, because the only point is clamped and there is no cell.
- `GeometricPattern.JitteredLattice`: for a negative count the source's grid size is `NaN`, and the lattice loop builds no point. The model uses `g = 0`, which builds one clamped point. Both return no triangles.
- `GeometricPattern.PickColor`: with an empty palette the source colours a triangle `undefined`. The model returns `None`. There is no index clamping, as in the source.
- `PatternProperties.ColorIndexExact`: is stated on the integer value `x` of the unsigned 32-bit output rather than on the `bv32` itself. Mixing bit-vector and real reasoning in one proof is too costly for the solver.
- `Mulberry32.StateAfter`: no closed form (`s + k * 0x6D2B79F5`) is stated. The draw lemmas only use the step-by-step definition.
- Two behaviours of the code are modelled as they are, not as one might expect:
  - a count <= 0 gives `[]`; there is no 1 x 1 minimum;
  - an empty palette gives `None` colours, not an error;
  - a width or height <= 0, or a displacement outside [0, 1], is accepted without error, since the code validates none of them.
- The triangles are not promised to tile the canvas without overlap, because the code does not guarantee it.
  - Once the displacement exceeds 0.5, an interior point can cross a diagonal of its neighbouring cell. That covers the component's default of 0.6 and the secondary story's 0.9.
  - A crossing point folds that cell over. `PatternProperties.FoldedCell` exhibits such a cell.
  - No lemma states the tiling that holds for smaller displacements.
- `ModernMonaco.tsx`, `Editor.tsx`, the Storybook story files and `tsup.config.ts` are not part of this model. They are editor wrappers, demos and build configuration. From the stories and the component defaults, the triangle counts are used as examples in `StoryGridSizes`, and the default displacement 0.6 in `FoldedCell`.
