/** Which edges of a tetrahedron produce an output point: the specification
    that IsoSurfacer.ComputeSimpleIntersection is proved against. */
module TetIntersection {
  import opened Mesh
  import opened LevelSet
  import opened Interpolation

  /** The edges the classifier accepts, in edge order: those the loop
      interpolates. */
  function PassingEdges(f: Id -> real, level: real, edges: seq<Edge>): seq<Edge>
  {
    if edges == [] then []
    else
      var init, last := edges[..|edges| - 1], edges[|edges| - 1];
      PassingEdges(f, level, init) + (if CellOnLevelSet(f, level, EdgeIds(last)) then [last] else [])
  }

  /** The kept edges are exactly the accepted ones, and there are no more of
      them than edges. */
  lemma {:induction false} PassingEdgesIff(f: Id -> real, level: real, edges: seq<Edge>)
    ensures |PassingEdges(f, level, edges)| <= |edges|
    ensures forall e :: e in PassingEdges(f, level, edges) <==> e in edges && CellOnLevelSet(f, level, EdgeIds(e))
  {
    if edges != [] {
      var init, last := edges[..|edges| - 1], edges[|edges| - 1];
      PassingEdgesIff(f, level, init);
      assert edges == init + [last];
    }
  }

  /** Extending the visited prefix by one edge keeps that edge exactly when it
      is accepted. */
  lemma PassingEdgesSnoc(f: Id -> real, level: real, edges: seq<Edge>, i: nat)
    requires i < |edges|
    ensures PassingEdges(f, level, edges[..i + 1]) ==
              PassingEdges(f, level, edges[..i]) +
              (if CellOnLevelSet(f, level, EdgeIds(edges[i])) then [edges[i]] else [])
  {
    assert edges[..i + 1][..i] == edges[..i];
  }

  /** The number of points ComputeSimpleIntersection adds for `tet`: none when
      the tetrahedron is rejected, one per accepted edge otherwise. */
  function IntersectionCount(f: Id -> real, level: real, tet: Cell): nat
  {
    if CellOnLevelSet(f, level, tet.ids) then |PassingEdges(f, level, tet.edges)| else 0
  }

  /** When every edge is accepted, every edge is kept. */
  lemma {:induction false} PassingEdgesAll(f: Id -> real, level: real, edges: seq<Edge>)
    requires forall i :: 0 <= i < |edges| ==> CellOnLevelSet(f, level, EdgeIds(edges[i]))
    ensures PassingEdges(f, level, edges) == edges
  {
    if edges != [] {
      var init := edges[..|edges| - 1];
      assert forall i :: 0 <= i < |init| ==> init[i] == edges[i];
      PassingEdgesAll(f, level, init);
      assert edges == init + [edges[|edges| - 1]];
    }
  }

  /** The edges of a real tetrahedron join two of its points. Then an accepted
      tetrahedron has every edge accepted, so the count is all or nothing. */
  lemma IntersectionCountAllOrNothing(f: Id -> real, level: real, tet: Cell)
    requires forall i :: 0 <= i < |tet.edges| ==> tet.edges[i].0 in tet.ids && tet.edges[i].1 in tet.ids
    ensures IntersectionCount(f, level, tet) == 0 || IntersectionCount(f, level, tet) == |tet.edges|
    ensures CellOnLevelSet(f, level, tet.ids) ==> IntersectionCount(f, level, tet) == |tet.edges|
  {
    if CellOnLevelSet(f, level, tet.ids) {
      forall i | 0 <= i < |tet.edges| ensures CellOnLevelSet(f, level, EdgeIds(tet.edges[i])) {
        var e := tet.edges[i];
        SubCellOnLevelSet(f, level, tet.ids, EdgeIds(e));
      }
      PassingEdgesAll(f, level, tet.edges);
    }
  }

  /** A tetrahedron on point ids 0..3 with its six edges. */
  function UnitTet(): Cell
  {
    Cell([0, 1, 2, 3], [(0, 1), (1, 2), (2, 0), (0, 3), (1, 3), (2, 3)])
  }

  /** Values 0, 0, 1, 1 at level 0.5: the level set does cross this
      tetrahedron, yet the classifier rejects it (its points are on both
      sides), so no point is produced. */
  lemma CrossedTetYieldsNoPoint(f: Id -> real)
    requires f(0) == 0.0 && f(1) == 0.0 && f(2) == 1.0 && f(3) == 1.0
    ensures !CellOnLevelSet(f, 0.5, UnitTet().ids)
    ensures IntersectionCount(f, 0.5, UnitTet()) == 0
  {
    var ids := UnitTet().ids;
    assert f(ids[0]) < 0.5 <= f(ids[2]);
    CellOnLevelSetIff(f, 0.5, ids);
  }

  /** Values all at or above the level: the level set (bar a touching point)
      misses this tetrahedron, yet the classifier accepts it and all six edges,
      so six points are produced. */
  lemma UncrossedTetYieldsSixPoints(f: Id -> real, level: real)
    requires f(0) >= level && f(1) >= level && f(2) >= level && f(3) >= level
    ensures CellOnLevelSet(f, level, UnitTet().ids)
    ensures IntersectionCount(f, level, UnitTet()) == 6
  {
    var tet := UnitTet();
    CellOnLevelSetIff(f, level, tet.ids);
    IntersectionCountAllOrNothing(f, level, tet);
  }

  /** Every edge the loop interpolates has both end points on one side, so
      when their values differ the factor is not strictly between 0 and 1:
      the code extrapolates rather than finding a crossing on the edge. */
  lemma AcceptedEdgeExtrapolates(f: Id -> real, level: real, e: Edge)
    requires CellOnLevelSet(f, level, EdgeIds(e))
    requires f(e.0) != f(e.1)
    ensures Factor(f(e.0), f(e.1), level) <= 0.0 || Factor(f(e.0), f(e.1), level) >= 1.0
  {
    EdgeOnLevelSetIff(f, level, e);
    FactorOutsideUnitInterval(f(e.0), f(e.1), level);
  }

  /** The end point ids of every accepted edge of an accepted tetrahedron
      name points of a list that starts with `n` points and gains one point
      per accepted edge before it. */
  predicate EdgesInRange(f: Id -> real, level: real, tet: Cell, n: nat)
  {
    CellOnLevelSet(f, level, tet.ids) ==>
      forall i :: 0 <= i < |tet.edges| && CellOnLevelSet(f, level, EdgeIds(tet.edges[i])) ==>
        0 <= tet.edges[i].0 < n + |PassingEdges(f, level, tet.edges[..i])| &&
        0 <= tet.edges[i].1 < n + |PassingEdges(f, level, tet.edges[..i])|
  }

  /** No edge is kept from a prefix in which no edge is accepted. */
  lemma {:induction false} NoPassingEdgesBefore(f: Id -> real, level: real, edges: seq<Edge>, i: nat)
    requires i <= |edges|
    requires forall j :: 0 <= j < i ==> !CellOnLevelSet(f, level, EdgeIds(edges[j]))
    ensures PassingEdges(f, level, edges[..i]) == []
  {
    if i > 0 {
      NoPassingEdgesBefore(f, level, edges, i - 1);
      PassingEdgesSnoc(f, level, edges, i - 1);
    }
  }
}
