/** The level-set classifier: the specification that
    IsoSurfacer.IsCellOnLevelSet is proved against, and what it means. */
module LevelSet {
  import opened Mesh

  /** A point is "smaller" when its value lies strictly below the level; every
      other point, one exactly at the level included, is "larger". */
  predicate IsSmaller(f: Id -> real, level: real, id: Id)
  {
    f(id) < level
  }

  /** The flag the classifier loop holds after visiting `ids` in order:
      `has_smaller` when `smaller` is true, `has_larger` when it is false. */
  function HasSide(f: Id -> real, level: real, smaller: bool, ids: seq<Id>): bool
  {
    if ids == [] then false
    else HasSide(f, level, smaller, ids[..|ids| - 1]) || IsSmaller(f, level, ids[|ids| - 1]) == smaller
  }

  /** The classifier's answer: `has_smaller ^ has_larger`. */
  function CellOnLevelSet(f: Id -> real, level: real, ids: seq<Id>): bool
  {
    HasSide(f, level, true, ids) != HasSide(f, level, false, ids)
  }

  /** A side flag is set exactly when some point lies on that side. */
  lemma {:induction false} HasSideIff(f: Id -> real, level: real, smaller: bool, ids: seq<Id>)
    ensures HasSide(f, level, smaller, ids) <==>
              exists i :: 0 <= i < |ids| && IsSmaller(f, level, ids[i]) == smaller
  {
    if ids != [] {
      var init := ids[..|ids| - 1];
      HasSideIff(f, level, smaller, init);
      if exists i :: 0 <= i < |init| && IsSmaller(f, level, init[i]) == smaller {
        var i :| 0 <= i < |init| && IsSmaller(f, level, init[i]) == smaller;
        assert ids[i] == init[i];
      }
      if exists i :: 0 <= i < |ids| && IsSmaller(f, level, ids[i]) == smaller {
        var i :| 0 <= i < |ids| && IsSmaller(f, level, ids[i]) == smaller;
        if i < |init| {
          assert init[i] == ids[i];
        }
      }
    }
  }

  /** Because of the exclusive or, the classifier accepts a cell exactly when it
      has points and all of them lie on the same side of the level; an empty
      cell and a cell with points on both sides are rejected. */
  lemma CellOnLevelSetIff(f: Id -> real, level: real, ids: seq<Id>)
    ensures CellOnLevelSet(f, level, ids) <==>
              |ids| > 0 &&
              ((forall i :: 0 <= i < |ids| ==> f(ids[i]) < level) ||
               (forall i :: 0 <= i < |ids| ==> f(ids[i]) >= level))
    ensures ids == [] ==> !CellOnLevelSet(f, level, ids)
    ensures (exists i, j :: 0 <= i < |ids| && 0 <= j < |ids| && f(ids[i]) < level <= f(ids[j])) ==>
              !CellOnLevelSet(f, level, ids)
  {
    HasSideIff(f, level, true, ids);
    HasSideIff(f, level, false, ids);
  }

  /** On an edge the classifier accepts exactly when both end points are on the
      same side; an end point exactly at the level is on the "larger" side. */
  lemma EdgeOnLevelSetIff(f: Id -> real, level: real, e: Edge)
    ensures CellOnLevelSet(f, level, EdgeIds(e)) <==> (f(e.0) < level <==> f(e.1) < level)
    ensures f(e.0) == level ==> (CellOnLevelSet(f, level, EdgeIds(e)) <==> f(e.1) >= level)
  {
    CellOnLevelSetIff(f, level, EdgeIds(e));
    assert EdgeIds(e)[0] == e.0 && EdgeIds(e)[1] == e.1;
  }

  /** Reordering (or otherwise permuting) the ids of a cell does not change the
      classifier's answer. */
  lemma CellOnLevelSetPermutation(f: Id -> real, level: real, ids: seq<Id>, ids': seq<Id>)
    requires multiset(ids) == multiset(ids')
    ensures CellOnLevelSet(f, level, ids) == CellOnLevelSet(f, level, ids')
  {
    HasSidePermutation(f, level, true, ids, ids');
    HasSidePermutation(f, level, false, ids, ids');
  }

  lemma HasSidePermutation(f: Id -> real, level: real, smaller: bool, ids: seq<Id>, ids': seq<Id>)
    requires multiset(ids) == multiset(ids')
    ensures HasSide(f, level, smaller, ids) == HasSide(f, level, smaller, ids')
  {
    HasSideIff(f, level, smaller, ids);
    HasSideIff(f, level, smaller, ids');
    if HasSide(f, level, smaller, ids) {
      var i :| 0 <= i < |ids| && IsSmaller(f, level, ids[i]) == smaller;
      assert ids[i] in multiset(ids');
      var j :| 0 <= j < |ids'| && ids'[j] == ids[i];
    }
    if HasSide(f, level, smaller, ids') {
      var j :| 0 <= j < |ids'| && IsSmaller(f, level, ids'[j]) == smaller;
      assert ids'[j] in multiset(ids);
      var i :| 0 <= i < |ids| && ids[i] == ids'[j];
    }
  }

  /** A non-empty cell made of points of an accepted cell is accepted too: all
      its points are on the one side the accepted cell's points are on. */
  lemma SubCellOnLevelSet(f: Id -> real, level: real, ids: seq<Id>, sub: seq<Id>)
    requires CellOnLevelSet(f, level, ids)
    requires |sub| > 0
    requires forall j :: 0 <= j < |sub| ==> sub[j] in ids
    ensures CellOnLevelSet(f, level, sub)
  {
    CellOnLevelSetIff(f, level, ids);
    CellOnLevelSetIff(f, level, sub);
    if forall i :: 0 <= i < |ids| ==> f(ids[i]) < level {
      forall j | 0 <= j < |sub| ensures f(sub[j]) < level {
        var i :| 0 <= i < |ids| && ids[i] == sub[j];
      }
    } else {
      forall j | 0 <= j < |sub| ensures f(sub[j]) >= level {
        var i :| 0 <= i < |ids| && ids[i] == sub[j];
      }
    }
  }
}
