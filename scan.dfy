/** The three scans that precede tree growth in `process` (MakeRivers.cs:181-215):
    ocean and lake tiles, coastal land, and the river seeds next to coastal land. */
module Scan {
  import opened Geometry
  import opened Wrappers

  /** `p` comes strictly before `q` in row-major order (y outer, x inner). */
  predicate Before(p: Point, q: Point)
  {
    p.y < q.y || (p.y == q.y && p.x < q.x)
  }

  // ---------------------------------------------------------------------
  // Ocean and lake lists (lines 181-189)
  // ---------------------------------------------------------------------

  /** Cells of row `y` with columns below `x` whose code is `code`, left to right. */
  function RowCells(g: Grid, code: int, y: int, x: nat): seq<Point>
    requires g.Valid() && 0 <= y < g.height && x <= g.width
  {
    if x == 0 then []
    else RowCells(g, code, y, x - 1) + (if g.At(Point(x - 1, y)) == code then [Point(x - 1, y)] else [])
  }

  /** Cells of the rows below `y` whose code is `code`, in row-major order. */
  function CellsWith(g: Grid, code: int, y: nat): seq<Point>
    requires g.Valid() && y <= g.height
  {
    if y == 0 then [] else CellsWith(g, code, y - 1) + RowCells(g, code, y - 1, g.width)
  }

  lemma {:induction false} RowCellsSpec(g: Grid, code: int, y: int, x: nat)
    requires g.Valid() && 0 <= y < g.height && x <= g.width
    ensures forall p :: p in RowCells(g, code, y, x) <==> p.y == y && 0 <= p.x < x && g.At(p) == code
    ensures forall i, j :: 0 <= i < j < |RowCells(g, code, y, x)| ==>
      Before(RowCells(g, code, y, x)[i], RowCells(g, code, y, x)[j])
    ensures forall i :: 0 <= i < |RowCells(g, code, y, x)| ==> RowCells(g, code, y, x)[i].y == y && RowCells(g, code, y, x)[i].x < x
  {
    if x > 0 {
      RowCellsSpec(g, code, y, x - 1);
    }
  }

  /** The scan lists exactly the in-range cells carrying `code`, each once, in
      row-major order. */
  lemma {:induction false} CellsWithSpec(g: Grid, code: int, y: nat)
    requires g.Valid() && y <= g.height
    ensures forall p :: p in CellsWith(g, code, y) <==> g.InBounds(p) && p.y < y && g.At(p) == code
    ensures forall i, j :: 0 <= i < j < |CellsWith(g, code, y)| ==>
      Before(CellsWith(g, code, y)[i], CellsWith(g, code, y)[j])
    ensures forall i :: 0 <= i < |CellsWith(g, code, y)| ==> CellsWith(g, code, y)[i].y < y
  {
    if y > 0 {
      CellsWithSpec(g, code, y - 1);
      RowCellsSpec(g, code, y - 1, g.width);
      var a, b := CellsWith(g, code, y - 1), RowCells(g, code, y - 1, g.width);
      assert CellsWith(g, code, y) == a + b;
      forall i, j | 0 <= i < j < |a + b| ensures Before((a + b)[i], (a + b)[j]) {
        if j < |a| {
        } else if i >= |a| {
          assert (a + b)[i] == b[i - |a|] && (a + b)[j] == b[j - |a|];
        } else {
          assert (a + b)[j] == b[j - |a|];
        }
      }
    }
  }

  /** A whole-grid scan holds no cell twice. */
  lemma NoDuplicates(g: Grid, code: int)
    requires g.Valid()
    ensures forall i, j :: 0 <= i < j < |CellsWith(g, code, g.height)| ==>
      CellsWith(g, code, g.height)[i] != CellsWith(g, code, g.height)[j]
  {
    CellsWithSpec(g, code, g.height);
  }

  /** The nested loop at lines 181-189. */
  method ClassifyWater(g: Grid) returns (oceans: seq<Point>, lakes: seq<Point>)
    requires g.Valid()
    ensures oceans == CellsWith(g, Ocean, g.height)
    ensures lakes == CellsWith(g, Lake, g.height)
  {
    oceans, lakes := [], [];
    for y := 0 to g.height
      invariant oceans == CellsWith(g, Ocean, y) && lakes == CellsWith(g, Lake, y)
    {
      for x := 0 to g.width
        invariant oceans == CellsWith(g, Ocean, y) + RowCells(g, Ocean, y, x)
        invariant lakes == CellsWith(g, Lake, y) + RowCells(g, Lake, y, x)
      {
        var current := Point(x, y);
        if g.At(current) == Ocean {
          oceans := oceans + [current];
        } else if g.At(current) == Lake {
          lakes := lakes + [current];
        }
      }
    }
  }

  // ---------------------------------------------------------------------
  // Coastal land, `possibleRiver` (lines 192-203)
  // ---------------------------------------------------------------------

  /** In-range land neighbours of `p` among the first `k` offsets, in offset order. */
  function LandAround(g: Grid, p: Point, k: nat): seq<Point>
    requires g.Valid() && k <= 4
  {
    if k == 0 then []
    else
      var q := Add(p, Neighbors[k - 1]);
      LandAround(g, p, k - 1) + (if g.InBounds(q) && g.At(q) == Land then [q] else [])
  }

  /** The land neighbours of every point of `pts`, point by point. */
  function LandNear(g: Grid, pts: seq<Point>): seq<Point>
    requires g.Valid()
  {
    if |pts| == 0 then [] else LandNear(g, pts[..|pts| - 1]) + LandAround(g, pts[|pts| - 1], 4)
  }

  lemma {:induction false} LandAroundSpec(g: Grid, p: Point, k: nat)
    requires g.Valid() && k <= 4
    ensures forall q :: q in LandAround(g, p, k) <==>
      g.InBounds(q) && g.At(q) == Land && exists d :: 0 <= d < k && q == Add(p, Neighbors[d])
  {
    if k > 0 {
      LandAroundSpec(g, p, k - 1);
    }
  }

  /** `possibleRiver` holds exactly the land tiles next to some point of `pts`. */
  lemma {:induction false} LandNearSpec(g: Grid, pts: seq<Point>)
    requires g.Valid()
    ensures forall q :: q in LandNear(g, pts) <==>
      g.InBounds(q) && g.At(q) == Land && exists p :: p in pts && Adjacent(p, q)
  {
    if |pts| > 0 {
      var init, last := pts[..|pts| - 1], pts[|pts| - 1];
      assert pts == init + [last];
      LandNearSpec(g, init);
      LandAroundSpec(g, last, 4);
      forall q ensures q in LandNear(g, pts) <==>
        g.InBounds(q) && g.At(q) == Land && exists p :: p in pts && Adjacent(p, q)
      {
        NeighborIffAdjacent(last, q);
        if g.InBounds(q) && g.At(q) == Land && exists p :: p in pts && Adjacent(p, q) {
          var p :| p in pts && Adjacent(p, q);
          if p != last {
            assert p in init;
          }
        }
      }
    }
  }

  /** The nested loop at lines 192-203. */
  method CoastalLand(g: Grid, oceans: seq<Point>) returns (possibleRiver: seq<Point>)
    requires g.Valid()
    ensures possibleRiver == LandNear(g, oceans)
  {
    possibleRiver := [];
    for i := 0 to |oceans|
      invariant possibleRiver == LandNear(g, oceans[..i])
    {
      var pt := oceans[i];
      assert oceans[..i + 1][..i] == oceans[..i];
      for k := 0 to 4
        invariant possibleRiver == LandNear(g, oceans[..i]) + LandAround(g, pt, k)
      {
        var neighbor := Add(pt, Neighbors[k]);
        if !(0 > neighbor.x || g.width <= neighbor.x || 0 > neighbor.y || g.height <= neighbor.y) {
          if g.At(neighbor) == Land {
            possibleRiver := possibleRiver + [neighbor];
          }
        }
      }
    }
    assert oceans[..|oceans|] == oceans;
  }

  // ---------------------------------------------------------------------
  // River seeds, `working` (lines 206-215)
  // ---------------------------------------------------------------------

  /** River tiles among the first `k` neighbours of `p`. */
  function RiversAround(g: Grid, p: Point, k: nat): set<Point>
    requires g.Valid() && k <= 4
  {
    if k == 0 then {}
    else
      var q := Add(p, Neighbors[k - 1]);
      RiversAround(g, p, k - 1) + (if g.RiverAt(q) then {q} else {})
  }

  /** River tiles next to some point of `pts`. */
  function SeedsOf(g: Grid, pts: seq<Point>): set<Point>
    requires g.Valid()
  {
    if |pts| == 0 then {} else SeedsOf(g, pts[..|pts| - 1]) + RiversAround(g, pts[|pts| - 1], 4)
  }

  lemma {:induction false} RiversAroundSpec(g: Grid, p: Point, k: nat)
    requires g.Valid() && k <= 4
    ensures forall q :: q in RiversAround(g, p, k) <==>
      g.RiverAt(q) && exists d :: 0 <= d < k && q == Add(p, Neighbors[d])
  {
    if k > 0 {
      RiversAroundSpec(g, p, k - 1);
    }
  }

  lemma {:induction false} SeedsOfSpec(g: Grid, pts: seq<Point>)
    requires g.Valid()
    ensures forall q :: q in SeedsOf(g, pts) <==> g.RiverAt(q) && exists p :: p in pts && Adjacent(p, q)
  {
    if |pts| > 0 {
      var init, last := pts[..|pts| - 1], pts[|pts| - 1];
      assert pts == init + [last];
      SeedsOfSpec(g, init);
      RiversAroundSpec(g, last, 4);
      forall q ensures q in SeedsOf(g, pts) <==> g.RiverAt(q) && exists p :: p in pts && Adjacent(p, q)
      {
        NeighborIffAdjacent(last, q);
        if g.RiverAt(q) && exists p :: p in pts && Adjacent(p, q) {
          var p :| p in pts && Adjacent(p, q);
          if p != last {
            assert p in init;
          }
        }
      }
    }
  }

  /** A land tile that touches an ocean tile. */
  ghost predicate CoastalLandAt(g: Grid, l: Point)
    requires g.Valid()
  {
    g.InBounds(l) && g.At(l) == Land &&
    exists o :: g.InBounds(o) && g.At(o) == Ocean && Adjacent(o, l)
  }

  /** A river tile that touches a coastal land tile: where an ocean-fed tree starts. */
  ghost predicate IsSeed(g: Grid, q: Point)
    requires g.Valid()
  {
    g.RiverAt(q) && exists l :: CoastalLandAt(g, l) && Adjacent(l, q)
  }

  /** The seed set computed from the whole grid. */
  function Seeds(g: Grid): set<Point>
    requires g.Valid()
  {
    SeedsOf(g, LandNear(g, CellsWith(g, Ocean, g.height)))
  }

  /** The seeds are exactly the river tiles 4-adjacent to a land tile (code 7,
      not mountain) that is 4-adjacent to an ocean tile. */
  lemma SeedsSpec(g: Grid)
    requires g.Valid()
    ensures forall q :: q in Seeds(g) <==> IsSeed(g, q)
    ensures forall l :: l in LandNear(g, CellsWith(g, Ocean, g.height)) <==> CoastalLandAt(g, l)
  {
    var oceans := CellsWith(g, Ocean, g.height);
    CellsWithSpec(g, Ocean, g.height);
    LandNearSpec(g, oceans);
    var coast := LandNear(g, oceans);
    SeedsOfSpec(g, coast);
    forall l ensures l in coast <==> CoastalLandAt(g, l) {
      if CoastalLandAt(g, l) {
        var o :| g.InBounds(o) && g.At(o) == Ocean && Adjacent(o, l);
        assert o in oceans;
      }
    }
  }

  /** The inner loop at lines 207-215 for one coastal land tile `pt`: line 210
      reads the grid at each of its neighbours without a bounds check, so a
      neighbour off the grid raises an out-of-range error; this is the `Some`
      outcome, carrying the offending coordinate. */
  method ScanAround(g: Grid, pt: Point, working: set<Point>) returns (outOfRange: Option<Point>, found: set<Point>)
    requires g.Valid()
    ensures outOfRange.None? <==> g.Interior(pt)
    ensures outOfRange.Some? ==> !g.InBounds(outOfRange.value)
    ensures outOfRange.None? ==> found == working + RiversAround(g, pt, 4)
  {
    found := working;
    for k := 0 to 4
      invariant found == working + RiversAround(g, pt, k)
      invariant forall d :: 0 <= d < k ==> g.InBounds(Add(pt, Neighbors[d]))
    {
      var neighbor := Add(pt, Neighbors[k]);
      if !g.InBounds(neighbor) {
        return Some(neighbor), found;
      }
      var t := g.At(neighbor);
      if IsRiver(t) && neighbor !in found {
        found := found + {neighbor};
      }
    }
    outOfRange := None;
  }

  /** The nested loop at lines 206-215: the river tiles next to the coastal
      land tiles, or the first neighbour off the grid. */
  method FindSeeds(g: Grid, possibleRiver: seq<Point>) returns (outOfRange: Option<Point>, working: set<Point>)
    requires g.Valid()
    ensures outOfRange.None? <==> forall i :: 0 <= i < |possibleRiver| ==> g.Interior(possibleRiver[i])
    ensures outOfRange.Some? ==> !g.InBounds(outOfRange.value)
    ensures outOfRange.None? ==> working == SeedsOf(g, possibleRiver)
  {
    working := {};
    for i := 0 to |possibleRiver|
      invariant working == SeedsOf(g, possibleRiver[..i])
      invariant forall j :: 0 <= j < i ==> g.Interior(possibleRiver[j])
    {
      assert possibleRiver[..i + 1][..i] == possibleRiver[..i];
      outOfRange, working := ScanAround(g, possibleRiver[i], working);
      if outOfRange.Some? {
        return;
      }
    }
    assert possibleRiver[..|possibleRiver|] == possibleRiver;
    outOfRange := None;
  }
}
