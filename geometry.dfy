/** Points, the four Von Neumann neighbours and the classified terrain grid
    that the river builder reads (MakeRivers.cs, class MakeRivers). */
module Geometry {

  /** System.Drawing.Point: an integer tile coordinate. */
  datatype Point = Point(x: int, y: int)

  /** The neighbour offsets in the order the source visits them: top, down, left, right. */
  const Neighbors: seq<Point> := [Point(0, -1), Point(0, 1), Point(-1, 0), Point(1, 0)]

  /** `dP + (Size)pt`: a point moved by an offset. */
  function Add(p: Point, d: Point): Point
  {
    Point(p.x + d.x, p.y + d.y)
  }

  /** Two tiles share an edge (4-connectivity, no diagonals). */
  predicate Adjacent(p: Point, q: Point)
  {
    (p.x == q.x && (q.y == p.y - 1 || q.y == p.y + 1)) ||
    (p.y == q.y && (q.x == p.x - 1 || q.x == p.x + 1))
  }

  /** Stepping by one of the four offsets reaches exactly the adjacent tiles. */
  lemma NeighborIffAdjacent(p: Point, q: Point)
    ensures Adjacent(p, q) <==> exists d :: 0 <= d < 4 && q == Add(p, Neighbors[d])
  {
    if Adjacent(p, q) {
      if q.y == p.y - 1 && q.x == p.x { assert q == Add(p, Neighbors[0]); }
      else if q.y == p.y + 1 && q.x == p.x { assert q == Add(p, Neighbors[1]); }
      else if q.x == p.x - 1 { assert q == Add(p, Neighbors[2]); }
      else { assert q == Add(p, Neighbors[3]); }
    }
  }

  // Terrain codes of IntFromName (MakeRivers.cs:97-109).
  const Brook := 0
  const Stream := 1
  const MinorRiver := 2
  const River := 3
  const MajorRiver := 4
  const Mountain := 5
  const Lake := 6
  const Land := 7
  const Ocean := 8
  const RiverOcean := 9

  /** Membership in the RiverTypes set. */
  predicate IsRiver(t: int)
  {
    t in {Brook, Stream, MinorRiver, River, MajorRiver, RiverOcean}
  }

  /** Lakes, oceans, land and mountains are not river class; the six river codes are. */
  lemma RiverClass(t: int)
    ensures IsRiver(t) <==> 0 <= t <= 4 || t == 9
    ensures !IsRiver(Lake) && !IsRiver(Ocean) && !IsRiver(Land) && !IsRiver(Mountain)
  {
  }

  /** The `int[width, height]` input: `cells[x][y]` is the code of tile (x, y). */
  datatype Grid = Grid(cells: seq<seq<int>>, width: int, height: int)
  {
    ghost predicate Valid()
    {
      width == |cells| && 0 <= height &&
      forall x :: 0 <= x < width ==> |cells[x]| == height
    }

    predicate InBounds(p: Point)
    {
      0 <= p.x < width && 0 <= p.y < height
    }

    function At(p: Point): int
      requires Valid() && InBounds(p)
    {
      cells[p.x][p.y]
    }

    /** An in-range tile whose code is river class. */
    predicate RiverAt(p: Point)
      requires Valid()
    {
      InBounds(p) && IsRiver(At(p))
    }

    /** All four neighbours of `p` are inside the grid. */
    predicate Interior(p: Point)
    {
      forall d :: 0 <= d < 4 ==> InBounds(Add(p, Neighbors[d]))
    }

    /** Every tile of the grid. */
    function Cells(): set<Point>
    {
      set x, y | 0 <= x < width && 0 <= y < height :: Point(x, y)
    }

    lemma InCells(p: Point)
      ensures p in Cells() <==> InBounds(p)
    {
      if InBounds(p) {
        assert p == Point(p.x, p.y);
      }
    }
  }
}
