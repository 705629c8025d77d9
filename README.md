# IsoSurfacer: a Dafny model of the start of a marching-tetrahedra extractor

`IsoSurfacer` is a VTK filter that should compute the isosurface of a point
scalar field over a tetrahedral mesh at a level `Value`. The code it has so far
is small. This project models it as written:

- **Level-set classifier** (`IsCellOnLevelSet`). It walks a cell's point ids
  and sets `has_smaller` for a value strictly below `Value` and `has_larger`
  otherwise, so a value equal to `Value` counts as larger. It returns
  `has_smaller ^ has_larger`.
- **Edge interpolation** (`ComputeEdgeIntersection`). It builds a vector of
  three zeros, then pushes `x*P1 + (1-x)*P2` with
  `x = (Value - v2)/(v1 - v2)`. The result has six entries, and the first three
  are zero. The positions come from the output's own point list.
- **Per-tetrahedron accumulation** (`ComputeSimpleIntersection`). It filters
  the tetrahedron. For each accepted edge, in edge order, it appends entries
  0..2 of the intersection vector to the output points. It returns the count.
- **`Update`**. Without an input it does nothing. Otherwise it rebuilds the
  output from empty point and polygon lists, caches the input's scalars, and
  runs the strategy chosen by `Type`. All three strategies are stubs. It then
  sizes the point scalar array to the point count and fills it with `Value`.

Modules:

- `Mesh` (mesh.dfy): ids, points, edges, cells and the input grid.
- `LevelSet` (level_set.dfy): the classifier's specification and its meaning.
- `Interpolation` (interpolation.dfy): the interpolation factor and point.
- `TetIntersection` (tet_intersection.dfy): which edges of a tetrahedron
  produce points.
- `Surfacer` (iso_surfacer.dfy): the class `IsoSurfacer`. Its fields are
  `Input`, `Type`, `Value`, the output (`pointSet`, `cellArray`,
  `fakeScalars`) and the cached `scalarField`. Its methods are proved against
  the functions of the other modules.

The scalar lookup is a parameter `f: Id -> real`. It is carried by the input
`Grid` and cached in `scalarField` by `Update`. `Output` owns `pointSet_`,
`cellArray_` and `fakeScalars_`, so the model keeps one sequence for each of
those lists and a flag `hasOutput` for whether the output exists. The methods
the source declares `const` have no `modifies` clause, so they change no field.

The class is meant to implement marching tetrahedra. Where that algorithm and
the code disagree, the model follows the code:

- In marching tetrahedra a cell is crossed when it has points on both sides of
  the level. The exclusive or in the code accepts exactly the non-empty cells
  whose points are all on one side. `CrossedTetYieldsNoPoint` and
  `UncrossedTetYieldsSixPoints` show the consequence on one tetrahedron.
- The algorithm interpolates only edges whose end points straddle the level,
  where the factor lies in [0, 1] (`FactorInUnitInterval`). The edges the code
  interpolates have both end points on one side, so with distinct values the
  factor is at most 0 or at least 1 (`FactorOutsideUnitInterval`,
  `AcceptedEdgeExtrapolates`): the point would lie on the edge's line, off the
  edge, or at an end point.
- The algorithm's intersection is a 3D point at the crossing. The code stores
  entries 0..2 of a six-entry vector, and those are always zero. Every point it
  appends is the origin.
- The algorithm reads vertex positions from the input mesh. The code reads them
  from the output point list, so the model does too. `Update` has just emptied
  that list, so after it the first accepted edge of an accepted tetrahedron
  cannot be read (`EmptyOutputUnreadable`, `UpdateThenUnitTetUnreadable`).
  Points that one call appends are readable by its later edges
  (`ThreePointsUnitTetReadable`).
- The algorithm produces triangles, and the code emits none. `Update` always
  leaves an empty surface.

## Model

| member | source | states |
|---|---|---|
| `Surfacer.IsoSurfacer.IsCellOnLevelSet` | IsoSurfacer.h:104-119 | the loop's flags give `CellOnLevelSet`; the answer is true iff the id list is non-empty and all its values are `< Value`, or all are `>= Value` |
| `Surfacer.IsoSurfacer.ComputeEdgeIntersection` | IsoSurfacer.h:76-96 | the vector has 6 entries and entries 0..2 are 0 for every edge, equal end point values included; when `v1 != v2`, entries 3..5 are `x*P(first) + (1-x)*P(second)`, with `x = (Value - v2)/(v1 - v2)` and positions read from the output point list |
| `Surfacer.IsoSurfacer.InsertEdgeIntersection` | IsoSurfacer.cpp:65-74 | inserting entries 0..2 of the intersection vector appends exactly one point, the origin, and returns the old point count as its id |
| `Surfacer.IsoSurfacer.ComputeSimpleIntersection` | IsoSurfacer.cpp:52-80 | for every edge whose end points name output points when it is reached, counting those appended for earlier edges, returns `IntersectionCount`: 0 if the tetrahedron is rejected, else one per accepted edge; the old points are kept and that many origins are appended; the new ids run consecutively from the old point count; only the point list changes, so no polygon is added; the lists stay `Valid` |
| `Surfacer.IsoSurfacer.SimpleExtraction` | IsoSurfacer.cpp:93-96 | returns 0 and changes nothing |
| `Surfacer.IsoSurfacer.StandardExtraction` | IsoSurfacer.cpp:98-101 | returns 0 and changes nothing |
| `Surfacer.IsoSurfacer.FastExtraction` | IsoSurfacer.cpp:82-85 | returns 0 and changes nothing |
| `Surfacer.IsoSurfacer.FillScalars` | IsoSurfacer.cpp:167-169 | the scalar array gets exactly one tuple per output point, and every tuple is `Value` |
| `Surfacer.IsoSurfacer.Update` | IsoSurfacer.cpp:105-170 | keeps the lists `Valid`; with no input, no field changes; with an input, for every `Type`, the output exists with empty point and polygon lists, the scalars are cached from the input, and the scalar array has one entry per output point, each equal to `Value`; `Input`, `Type` and `Value` keep their values |
| `Surfacer.IsoSurfacer.constructor` | IsoSurfacer.cpp:26-33 | no input, no output, no scalar array, `Type` is simple, and the unallocated lists are empty (`Valid`); `Value` is left unspecified |
| `LevelSet.HasSideIff` | IsoSurfacer.h:109-117 | the smaller (larger) flag is set iff some point's value is `< Value` (`>= Value`) |
| `LevelSet.CellOnLevelSetIff` | IsoSurfacer.h:107-118 | the classifier is true iff the cell is non-empty and every point is on the same side; an empty cell is false; a cell with points on both sides is false |
| `LevelSet.EdgeOnLevelSetIff` | IsoSurfacer.h:114-118 | an edge is accepted iff both end points are on the same side; an end point equal to `Value` is on the larger side |
| `LevelSet.HasSidePermutation` | IsoSurfacer.h:111-117 | each flag is the same for any permutation of the id list |
| `LevelSet.CellOnLevelSetPermutation` | IsoSurfacer.h:111-118 | the classifier's answer is the same for any permutation of the id list |
| `LevelSet.SubCellOnLevelSet` | IsoSurfacer.h:108-118 | a non-empty cell made of points of an accepted cell is accepted |
| `Interpolation.FactorAtEndpoints` | IsoSurfacer.h:86-93 | `v1 = Value` gives `x = 1` and the first position; `v2 = Value` gives `x = 0` and the second position |
| `Interpolation.FactorHitsLevel` | IsoSurfacer.h:86 | the scalar interpolated with the same factor, `x*v1 + (1-x)*v2`, equals `Value` |
| `Interpolation.FactorInUnitInterval` | IsoSurfacer.h:86 | when `Value` lies between the end point values (tie to the larger side), `0 <= x <= 1`, so the point lies on the edge |
| `Interpolation.FactorOutsideUnitInterval` | IsoSurfacer.h:86 | when the end point values differ and are both `< Value` or both `>= Value`, `x <= 0` or `x >= 1`: the point is not strictly inside the edge |
| `TetIntersection.AcceptedEdgeExtrapolates` | IsoSurfacer.cpp:61-62 | every edge the classifier accepts, with distinct end point values, gets a factor `x <= 0` or `x >= 1` |
| `TetIntersection.PassingEdgesSnoc` | IsoSurfacer.cpp:58-62 | visiting one more edge keeps it exactly when the classifier accepts it |
| `TetIntersection.PassingEdgesIff` | IsoSurfacer.cpp:58-62 | the kept edges are exactly the accepted ones, and there are at most as many as edges |
| `TetIntersection.PassingEdgesAll` | IsoSurfacer.cpp:58-61 | when every edge is accepted, every edge is kept, in order |
| `TetIntersection.IntersectionCountAllOrNothing` | IsoSurfacer.cpp:56-61 | when every edge joins two points of the tetrahedron, an accepted tetrahedron accepts every edge, so the count is 0 or the edge count |
| `TetIntersection.CrossedTetYieldsNoPoint` | IsoSurfacer.cpp:52-80 | values 0, 0, 1, 1 at level 0.5: the tetrahedron is rejected and no point is produced |
| `TetIntersection.UncrossedTetYieldsSixPoints` | IsoSurfacer.cpp:52-80 | values all `>= Value`: the tetrahedron and all six edges are accepted and six points are produced |
| `Surfacer.EmptyOutputUnreadable` | IsoSurfacer.cpp:113-115 | with the output point list empty, as `Update` leaves it, the first accepted edge of an accepted tetrahedron has an end point that names no output point |
| `Surfacer.UpdateThenUnitTetUnreadable` | IsoSurfacer.h:87-88 | with the output point list empty and all values on `UnitTet()` `>= Value`, the position of its first edge cannot be read |
| `Surfacer.ThreePointsUnitTetReadable` | IsoSurfacer.cpp:59-74 | with three output points and all values on `UnitTet()` `>= Value`, every edge is readable once the points appended for earlier edges are counted, and six points are produced |
| `TetIntersection.NoPassingEdgesBefore` | IsoSurfacer.cpp:59-61 | when no edge of a prefix is accepted, no edge of it is kept |

## Left out

- Object lifecycle: `New`, `Delete`, the revision and standard-new macros, and the destructor are reference-counting plumbing. "A fresh object" is an empty sequence.
- The get/set macros for `Value`, `Input`, `Type` and `Output` only assign or read a field. The class's fields are public in the model.
- The hidden copy constructor and assignment operator are declared but never defined.
- Console output and the `DebugMemory`/`DebugTimer` instrumentation in `Update` are I/O and measurement.
- `ComputePartialIntersection` and `ReOrderTetEdges` are stubs that nothing calls and that return 0.
- `TetIndex` and `EdgeIntersection` are empty classes.
- Surface assembly (triangles, quad splitting, edge deduplication) is not in the code, so it is not modelled.
- Surfacer.IsoSurfacer.ComputeEdgeIntersection: when both end point values are equal, the division by zero gives IEEE infinities or NaN. Entries 3..5 are left unconstrained there. Real arithmetic stands for `double`.
- Surfacer.IsoSurfacer.ComputeSimpleIntersection: the narrowing of entries 0..2 from `double` to `float` is not modelled; those entries are zero in any case.
- Surfacer.IsoSurfacer.ComputeSimpleIntersection: it requires the end points of every edge it interpolates to name points of the output list when that edge is reached, the points appended for earlier edges included. A read past the end of the list at that moment has no defined meaning in the source.
- `LookupValue` is a reverse search in VTK, not a read at index `id`. The lookup is an uninterpreted function from id to value.
- Surfacer.IsoSurfacer.ComputeEdgeIntersection: `GetPoint(id)` returns the point array's single tuple buffer, so the second read at IsoSurfacer.h:88 overwrites the first, and in the source entries 3..5 are `x*P(second) + (1-x)*P(second)`, the second position. The model reads each position from the point list directly and states `x*P(first) + (1-x)*P(second)`. Nothing reads entries 3..5, so no other contract depends on them.
- `GetPointIds`, `GetEdge` and `GetNumberOfEdges` become a cell's id list and edge list.
- Surfacer.IsoSurfacer.constructor: the source never initialises `scalarField_`. The model starts it as `None`, and every method that reads it requires `Some`.
- The input's point scalars are assumed present. A grid without point scalars is not modelled.
- `intersectPointList` is a ghost out-parameter. The source leaks it.
- The tuple that `SetNumberOfTuples` adds holds an unspecified value, modelled as 0.0. The loop overwrites every tuple.
