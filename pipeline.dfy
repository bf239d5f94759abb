/** How the two halves of the program meet: `Main` (MakeRivers.cs:140-144)
    passes the result of `process` straight to `render`. */
module Pipeline {
  import opened Geometry
  import opened RiverTree
  import opened Growth
  import opened Builder
  import Extractor

  /** Every node `process` leaves is annotated, so `render` may read it. */
  lemma ForestIsRenderable(g: Grid, n: seq<NodeRec>, rivers: seq<nat>)
    requires g.Valid() && Forest(g, n, rivers)
    ensures Extractor.Renderable(n) && forall k :: 0 <= k < |rivers| ==> rivers[k] < |n|
  {
    forall j | 0 <= j < |n| ensures AnnotatedAt(n, j) {
      FreshTreeIsAnnotated(g, n, j);
    }
    Extractor.AnnotatedIndexOk(n);
  }

  /** The polylines cut from the forest of `process`, one per root plus one per
      non-dominant child, are non-empty 4-connected paths over river tiles. */
  lemma ForestPolylines(g: Grid, n: seq<NodeRec>, rivers: seq<nat>)
    requires g.Valid() && Forest(g, n, rivers)
    ensures Extractor.IndexOk(n) && forall k :: 0 <= k < |rivers| ==> rivers[k] < |n|
    ensures var lines := Extractor.Polylines(n, Extractor.RootItems(n, rivers));
      |lines| == |rivers| + Extractor.SumItems(n, Extractor.RootItems(n, rivers)) &&
      forall k :: 0 <= k < |lines| ==>
        |lines[k]| >= 1 && Extractor.IsPath(lines[k]) && forall i :: 0 <= i < |lines[k]| ==> g.RiverAt(lines[k][i])
  {
    ForestIsRenderable(g, n, rivers);
    var q := Extractor.RootItems(n, rivers);
    var lines := Extractor.Polylines(n, q);
    Extractor.PolylineCount(n, q);
    Extractor.PolylinesArePaths(n, q);
    Extractor.PolylinesWithin(n, q, CoordsOf(n));
    forall k, i | 0 <= k < |lines| && 0 <= i < |lines[k]| ensures g.RiverAt(lines[k][i]) {
      var j :| 0 <= j < |n| && n[j].coords == lines[k][i];
    }
  }

  /** Every node lies in the tree of some root: following the parent links
      (line 65) upward ends at a node without parent, which is a root. */
  lemma {:induction false} RootAbove(n: seq<NodeRec>, rivers: seq<nat>, j: nat) returns (m: nat)
    requires Wf(n) && ParentLinks(n) && j < |n|
    requires forall k :: 0 <= k < |rivers| ==> rivers[k] < |n|
    requires forall i :: 0 <= i < |n| && n[i].parent.None? ==> i in rivers
    ensures m < |rivers| && InSubtree(n, rivers[m], j)
  {
    if n[j].parent.None? {
      m :| 0 <= m < |rivers| && rivers[m] == j;
    } else {
      var p := n[j].parent.value;
      assert p < j && j in n[p].children;
      m := RootAbove(n, rivers, p);
      var k :| 0 <= k < |n[p].children| && n[p].children[k] == j;
      SubtreeExtend(n, rivers[m], p, k);
    }
  }

  /** The tile of node `j` is a point of polyline `k` of the extraction from
      the roots. */
  lemma CoverNode(n: seq<NodeRec>, rivers: seq<nat>, j: nat) returns (k: nat)
    requires Extractor.IndexOk(n) && ParentLinks(n) && j < |n|
    requires forall k :: 0 <= k < |rivers| ==> rivers[k] < |n|
    requires forall i :: 0 <= i < |n| && n[i].parent.None? ==> i in rivers
    ensures var lines := Extractor.Polylines(n, Extractor.RootItems(n, rivers));
      k < |lines| && n[j].coords in lines[k]
  {
    var q := Extractor.RootItems(n, rivers);
    var m := RootAbove(n, rivers, j);
    var r := rivers[m];
    if r != j {
      var c :| 0 <= c < |n[r].children| && InSubtree(n, n[r].children[c], j);
    }
    assert q[m] == n[r] && q[m] in q;
    k := Extractor.PolylinesCover(n, q, n[r], j);
  }

  /** Every tile of the forest is a point of some polyline `render` draws. */
  lemma ForestCoverage(g: Grid, n: seq<NodeRec>, rivers: seq<nat>)
    requires g.Valid() && Forest(g, n, rivers)
    ensures Extractor.IndexOk(n) && forall k :: 0 <= k < |rivers| ==> rivers[k] < |n|
    ensures var lines := Extractor.Polylines(n, Extractor.RootItems(n, rivers));
      forall p :: p in CoordsOf(n) ==> exists k :: 0 <= k < |lines| && p in lines[k]
  {
    ForestIsRenderable(g, n, rivers);
    assert ParentLinks(n);
    assert forall i :: 0 <= i < |n| && n[i].parent.None? ==> i in rivers;
    CoverAll(n, rivers);
  }

  /** Every node's tile is a point of some polyline of the extraction from
      the roots, for any arena whose parentless nodes are all roots. */
  lemma CoverAll(n: seq<NodeRec>, rivers: seq<nat>)
    requires Extractor.IndexOk(n) && ParentLinks(n)
    requires forall k :: 0 <= k < |rivers| ==> rivers[k] < |n|
    requires forall i :: 0 <= i < |n| && n[i].parent.None? ==> i in rivers
    ensures var lines := Extractor.Polylines(n, Extractor.RootItems(n, rivers));
      forall p :: p in CoordsOf(n) ==> exists k :: 0 <= k < |lines| && p in lines[k]
  {
    var lines := Extractor.Polylines(n, Extractor.RootItems(n, rivers));
    forall p | p in CoordsOf(n) ensures exists k :: 0 <= k < |lines| && p in lines[k] {
      var j :| 0 <= j < |n| && n[j].coords == p;
      var k := CoverNode(n, rivers, j);
      assert k < |lines| && p in lines[k];
    }
  }
}
