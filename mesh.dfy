/** The values the iso-surfacer reads from its input mesh and writes to its
    output surface: point ids, 3D points, edges and cells. */
module Mesh {

  /** A point id (vtkIdType). */
  type Id = int

  /** A 3D position. */
  datatype Point = Point(x: real, y: real, z: real)

  /** The point every intersection of the as-written code produces. */
  const Origin := Point(0.0, 0.0, 0.0)

  /** The coordinates of a point in x, y, z order. */
  function Coords(p: Point): seq<real>
  {
    [p.x, p.y, p.z]
  }

  /** Coordinate `k` of a point, as `point[k]` reads it. */
  function Coord(p: Point, k: nat): real
    requires k < 3
  {
    Coords(p)[k]
  }

  /** An edge as its (first, second) pair of point ids. */
  type Edge = (Id, Id)

  /** The point ids of the two-point cell that an edge is. */
  function EdgeIds(e: Edge): seq<Id>
  {
    [e.0, e.1]
  }

  /** A cell as the mesh hands it out: its point ids and its edges in order. */
  datatype Cell = Cell(ids: seq<Id>, edges: seq<Edge>)

  /** The input mesh. The only part the core reads is the point scalar field;
      how it is stored is the host's business, so it is a lookup by id. */
  datatype Grid = Grid(scalars: Id -> real)

  /** A pointer that may be null. */
  datatype Option<T> = None | Some(value: T)

  /** `s` is the point list `before` followed by `n` copies of the origin. */
  predicate ExtendsWithOrigins(before: seq<Point>, s: seq<Point>, n: nat)
  {
    |s| == |before| + n && s[..|before|] == before &&
    forall k :: |before| <= k < |s| ==> s[k] == Origin
  }

  /** Appending one more origin extends the count by one. */
  lemma ExtendsWithOriginsSnoc(before: seq<Point>, s: seq<Point>, n: nat)
    requires ExtendsWithOrigins(before, s, n)
    ensures ExtendsWithOrigins(before, s + [Origin], n + 1)
  {
  }

  /** `ids` is the `n` consecutive ids from `first` on. */
  predicate ConsecutiveIds(ids: seq<Id>, first: Id, n: nat)
  {
    |ids| == n && forall k :: 0 <= k < n ==> ids[k] == first + k
  }
}
