/** The IsoSurfacer filter: its configuration, its output surface and the
    operations that update them. */
module Surfacer {
  import opened Mesh
  import opened LevelSet
  import opened Interpolation
  import opened TetIntersection

  /** The extraction strategy (extractionType). */
  datatype ExtractionType = Simple | Standard | Fast

  /** A polygon of the output surface, as the ids of its points. */
  type Polygon = seq<Id>

  class IsoSurfacer {
    // configuration, set by the host before Update
    var Input: Option<Grid>
    var Type: ExtractionType
    var Value: real

    // the output surface: hasOutput says that Output, pointSet_ and cellArray_
    // are allocated (they always are together); Output's points, polygons and
    // point scalars are pointSet, cellArray and fakeScalars
    var hasOutput: bool
    var pointSet: seq<Point>
    var cellArray: seq<Polygon>
    var hasFakeScalars: bool
    var fakeScalars: seq<real>

    // the input's point scalars, cached by Update
    var scalarField: Option<Id -> real>

    /** An unallocated list holds nothing. */
    ghost predicate Valid()
      reads this
    {
      (!hasOutput ==> pointSet == [] && cellArray == []) &&
      (!hasFakeScalars ==> fakeScalars == [])
    }

    /** A new filter has no input, no output and the simple strategy; the
        level Value is left uninitialised. */
    constructor ()
      ensures Valid()
      ensures Input == None && Type == Simple && scalarField == None
      ensures !hasOutput && !hasFakeScalars
      ensures pointSet == [] && cellArray == [] && fakeScalars == []
    {
      Input := None;
      Type := Simple;
      hasOutput := false;
      pointSet := [];
      cellArray := [];
      hasFakeScalars := false;
      fakeScalars := [];
      scalarField := None;
    }

    /** `id` names a point of the output point list. */
    predicate ValidPointId(id: Id)
      reads this
    {
      0 <= id < |pointSet|
    }

    /** Decides whether the level set "passes" the cell with point ids `ids`:
        sets a smaller and a larger flag over the points and returns their
        exclusive or. Changes nothing. */
    method IsCellOnLevelSet(ids: seq<Id>) returns (onLevelSet: bool)
      requires scalarField.Some?
      ensures onLevelSet == CellOnLevelSet(scalarField.value, Value, ids)
      ensures onLevelSet <==>
                |ids| > 0 &&
                ((forall i :: 0 <= i < |ids| ==> scalarField.value(ids[i]) < Value) ||
                 (forall i :: 0 <= i < |ids| ==> scalarField.value(ids[i]) >= Value))
    {
      var f := scalarField.value;
      var hasSmaller, hasLarger := false, false;
      for i := 0 to |ids|
        invariant hasSmaller == HasSide(f, Value, true, ids[..i])
        invariant hasLarger == HasSide(f, Value, false, ids[..i])
      {
        var value := f(ids[i]);
        if value < Value {
          hasSmaller := true;
        } else {
          hasLarger := true;
        }
        assert ids[..i + 1][..i] == ids[..i];
      }
      assert ids[..|ids|] == ids;
      onLevelSet := hasSmaller != hasLarger;
      CellOnLevelSetIff(f, Value, ids);
    }

    /** The intersection vector of an edge: a vector created with three zero
        entries, onto which the three interpolated coordinates are pushed.
        Positions are read from the output point list. When both end point
        values are equal the factor divides by zero and the last three entries
        are not specified. Changes nothing. */
    method ComputeEdgeIntersection(edge: Edge) returns (p: seq<real>)
      requires hasOutput && scalarField.Some?
      requires ValidPointId(edge.0) && ValidPointId(edge.1)
      ensures |p| == 6 && p[0] == p[1] == p[2] == 0.0
      ensures var v1, v2 := scalarField.value(edge.0), scalarField.value(edge.1);
              v1 != v2 ==> p[3..] == Coords(Interpolate(Factor(v1, v2, Value), pointSet[edge.0], pointSet[edge.1]))
    {
      p := [0.0, 0.0, 0.0];
      var firstValue := scalarField.value(edge.0);
      var secondValue := scalarField.value(edge.1);
      var x: real :| firstValue != secondValue ==> x == (Value - secondValue) / (firstValue - secondValue);
      var firstPoint := pointSet[edge.0];
      var secondPoint := pointSet[edge.1];
      for i := 0 to 3
        invariant p == [0.0, 0.0, 0.0] + Coords(Interpolate(x, firstPoint, secondPoint))[..i]
      {
        InterpolateCoord(x, firstPoint, secondPoint, i);
        p := p + [x * Coord(firstPoint, i) + (1.0 - x) * Coord(secondPoint, i)];
      }
    }

    /** Inserts the first three entries of the edge's intersection vector as
        the next output point and returns its id. */
    method InsertEdgeIntersection(e: Edge) returns (id: Id)
      requires Valid() && hasOutput && scalarField.Some?
      requires ValidPointId(e.0) && ValidPointId(e.1)
      modifies this`pointSet
      ensures Valid()
      ensures id == |old(pointSet)| && pointSet == old(pointSet) + [Origin]
    {
      var v := ComputeEdgeIntersection(e);
      id := |pointSet|;
      pointSet := pointSet + [Point(v[0], v[1], v[2])];
    }

    /** The end point ids of every edge the loop of ComputeSimpleIntersection
        interpolates name output points when that edge is reached, counting
        the points the loop has appended for the accepted edges before it. */
    predicate EdgesReadable(tet: Cell)
      requires scalarField.Some?
      reads this
    {
      EdgesInRange(scalarField.value, Value, tet, |pointSet|)
    }

    /** Filters the tetrahedron, then appends to the output point list the
        first three entries of the intersection vector of every accepted edge,
        in edge order, and counts them. Returns, as a ghost, the ids the new
        points received. */
    method ComputeSimpleIntersection(tet: Cell) returns (numIntersection: int, ghost intersectPointList: seq<Id>)
      requires Valid() && hasOutput && scalarField.Some?
      requires EdgesReadable(tet)
      modifies this`pointSet
      ensures Valid()
      ensures numIntersection == IntersectionCount(scalarField.value, Value, tet)
      ensures ExtendsWithOrigins(old(pointSet), pointSet, numIntersection)
      ensures ConsecutiveIds(intersectPointList, |old(pointSet)|, numIntersection)
    {
      ghost var oldPoints := pointSet;
      numIntersection := 0;
      intersectPointList := [];
      var f := scalarField.value;
      var tetOnLevelSet := IsCellOnLevelSet(tet.ids);
      if tetOnLevelSet {
        var n := |tet.edges|;
        for i := 0 to n
          invariant numIntersection == |PassingEdges(f, Value, tet.edges[..i])|
          invariant ExtendsWithOrigins(oldPoints, pointSet, numIntersection)
          invariant ConsecutiveIds(intersectPointList, |oldPoints|, numIntersection)
        {
          var e := tet.edges[i];
          PassingEdgesSnoc(f, Value, tet.edges, i);
          var edgeOnLevelSet := IsCellOnLevelSet(EdgeIds(e));
          if edgeOnLevelSet {
            assert |oldPoints| + |PassingEdges(f, Value, tet.edges[..i])| == |pointSet|;
            assert ValidPointId(e.0) && ValidPointId(e.1);
            ExtendsWithOriginsSnoc(oldPoints, pointSet, numIntersection);
            var id := InsertEdgeIntersection(e);
            intersectPointList := intersectPointList + [id];
            numIntersection := numIntersection + 1;
          }
        }
        assert tet.edges[..n] == tet.edges;
      }
    }

    /** The simple extraction: a stub that returns 0 and changes nothing. */
    method SimpleExtraction() returns (r: int)
      ensures r == 0
    {
      r := 0;
    }

    /** The standard extraction: a stub that returns 0 and changes nothing. */
    method StandardExtraction() returns (r: int)
      ensures r == 0
    {
      r := 0;
    }

    /** The fast extraction: a stub that returns 0 and changes nothing. */
    method FastExtraction() returns (r: int)
      ensures r == 0
    {
      r := 0;
    }

    /** Runs one extraction. Without an input nothing changes. Otherwise the
        output is rebuilt from fresh, empty point and polygon lists, the input's
        scalars are cached, the chosen strategy runs, and the point scalar
        array is sized to the point count and filled with Value. */
    method Update()
      requires Valid()
      modifies this
      ensures Valid()
      ensures old(Input).None? ==> unchanged(this)
      ensures Input == old(Input) && Type == old(Type) && Value == old(Value)
      ensures Input.Some? ==>
                hasOutput && pointSet == [] && cellArray == [] &&
                scalarField == Some(Input.value.scalars) &&
                hasFakeScalars && |fakeScalars| == |pointSet| &&
                forall i :: 0 <= i < |fakeScalars| ==> fakeScalars[i] == Value
    {
      if Input.None? {
        return;
      }
      pointSet := [];
      cellArray := [];
      if !hasFakeScalars {
        hasFakeScalars := true;
        fakeScalars := [];
      }
      hasOutput := true;
      scalarField := Some(Input.value.scalars);

      match Type {
        case Simple =>
          var _ := SimpleExtraction();
        case Standard =>
          var _ := StandardExtraction();
        case Fast =>
          var _ := FastExtraction();
      }

      FillScalars();
    }

    /** Sizes the point scalar array to the point count and sets every tuple
        to Value. */
    method FillScalars()
      modifies this`fakeScalars
      ensures |fakeScalars| == |pointSet|
      ensures forall i :: 0 <= i < |fakeScalars| ==> fakeScalars[i] == Value
    {
      // SetNumberOfTuples keeps the leading tuples; the content of new ones is
      // unspecified and stands as 0.0 here, since the loop overwrites it
      var n := |pointSet|;
      var tuples := fakeScalars;
      fakeScalars := seq(n, k => if 0 <= k < |tuples| then tuples[k] else 0.0);
      for i := 0 to n
        invariant |fakeScalars| == n
        invariant forall k :: 0 <= k < i ==> fakeScalars[k] == Value
      {
        fakeScalars := fakeScalars[i := Value];
      }
    }
  }

  /** Update leaves the output point list empty, and positions are read from
      that list: on the next call of ComputeSimpleIntersection, an accepted
      tetrahedron cannot be served at its first accepted edge, whose end
      points are not ids of the still empty list. */
  lemma EmptyOutputUnreadable(s: IsoSurfacer, tet: Cell, i: nat)
    requires s.scalarField.Some? && s.pointSet == []
    requires CellOnLevelSet(s.scalarField.value, s.Value, tet.ids)
    requires i < |tet.edges| && CellOnLevelSet(s.scalarField.value, s.Value, EdgeIds(tet.edges[i]))
    requires forall j :: 0 <= j < i ==> !CellOnLevelSet(s.scalarField.value, s.Value, EdgeIds(tet.edges[j]))
    ensures !s.EdgesReadable(tet)
  {
    NoPassingEdgesBefore(s.scalarField.value, s.Value, tet.edges, i);
  }

  /** After Update with an input whose scalars on the tetrahedron UnitTet()
      are all at or above Value, ComputeSimpleIntersection cannot be called on
      it: its first edge is read from the emptied list. */
  lemma UpdateThenUnitTetUnreadable(s: IsoSurfacer)
    requires s.scalarField.Some? && s.pointSet == []
    requires forall id :: 0 <= id < 4 ==> s.scalarField.value(id) >= s.Value
    ensures !s.EdgesReadable(UnitTet())
  {
    var f := s.scalarField.value;
    assert f(0) >= s.Value && f(1) >= s.Value && f(2) >= s.Value && f(3) >= s.Value;
    UncrossedTetYieldsSixPoints(f, s.Value);
    var tet := UnitTet();
    EdgeOnLevelSetIff(f, s.Value, tet.edges[0]);
    EmptyOutputUnreadable(s, tet, 0);
  }

  /** The points appended for earlier edges are readable by later ones: with
      three output points and all values on UnitTet() at or above Value, the
      first three edges read ids 0..2 and append ids 3..5, so the last three
      edges can read id 3. */
  lemma ThreePointsUnitTetReadable(s: IsoSurfacer)
    requires s.scalarField.Some? && |s.pointSet| == 3
    requires forall id :: 0 <= id < 4 ==> s.scalarField.value(id) >= s.Value
    ensures s.EdgesReadable(UnitTet())
    ensures IntersectionCount(s.scalarField.value, s.Value, UnitTet()) == 6
  {
    var f := s.scalarField.value;
    assert f(0) >= s.Value && f(1) >= s.Value && f(2) >= s.Value && f(3) >= s.Value;
    UncrossedTetYieldsSixPoints(f, s.Value);
    var tet := UnitTet();
    forall i | 0 <= i < |tet.edges|
      ensures CellOnLevelSet(f, s.Value, EdgeIds(tet.edges[i]))
    {
      EdgeOnLevelSetIff(f, s.Value, tet.edges[i]);
    }
    forall i | 0 <= i < |tet.edges|
      ensures |PassingEdges(f, s.Value, tet.edges[..i])| == i
    {
      PassingEdgesAll(f, s.Value, tet.edges[..i]);
    }
    forall i | 0 <= i < |tet.edges|
      ensures 0 <= tet.edges[i].0 < 3 + i && 0 <= tet.edges[i].1 < 3 + i
    {
      if i < 3 {
        assert i == 0 || i == 1 || i == 2;
      } else {
        assert i == 3 || i == 4 || i == 5;
      }
    }
    assert EdgesInRange(f, s.Value, tet, 3);
  }
}
