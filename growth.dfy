/** The invariants of the tree growth in `process` (MakeRivers.cs:218-259) and
    the step lemmas that carry them across one pass of each loop. */
module Growth {
  import opened Geometry
  import opened Wrappers
  import opened RiverTree

  /** The tiles of all nodes of the arena. */
  ghost function CoordsOf(n: seq<NodeRec>): set<Point>
  {
    set j | 0 <= j < |n| :: n[j].coords
  }

  // ---------------------------------------------------------------------
  // Invariants of the growth
  // ---------------------------------------------------------------------

  /** Every node sits on a river tile. */
  ghost predicate OnRivers(g: Grid, n: seq<NodeRec>)
    requires g.Valid()
  {
    forall j :: 0 <= j < |n| ==> g.RiverAt(n[j].coords)
  }

  /** No tile carries two nodes. */
  ghost predicate DistinctTiles(n: seq<NodeRec>)
  {
    forall j1, j2 :: 0 <= j1 < j2 < |n| ==> n[j1].coords != n[j2].coords
  }

  /** A child is a 4-neighbour of its parent and points back to it. */
  ghost predicate ChildLinks(n: seq<NodeRec>)
    requires Wf(n)
  {
    forall j, k :: 0 <= j < |n| && 0 <= k < |n[j].children| ==>
      Adjacent(n[j].coords, n[n[j].children[k]].coords) && n[n[j].children[k]].parent == Some(j)
  }

  /** Children are listed in creation order. */
  ghost predicate ChildOrder(n: seq<NodeRec>)
  {
    forall j, a, b :: 0 <= j < |n| && 0 <= a < b < |n[j].children| ==> n[j].children[a] < n[j].children[b]
  }

  /** A node's parent was made before it and lists it as a child. */
  ghost predicate ParentLinks(n: seq<NodeRec>)
  {
    forall j {:trigger n[j].parent} :: 0 <= j < |n| && n[j].parent.Some? ==>
      n[j].parent.value < j && j in n[n[j].parent.value].children
  }

  /** The cached values are still those of `new Node`. */
  ghost predicate AllFresh(n: seq<NodeRec>)
  {
    forall j :: 0 <= j < |n| ==> n[j].maxTailLength == 1 && n[j].maxLengthIndex == 0
  }

  /** What holds of every node the builder has made. */
  ghost predicate NodeFacts(g: Grid, n: seq<NodeRec>)
    requires g.Valid()
  {
    Wf(n) && OnRivers(g, n) && DistinctTiles(n) && ChildLinks(n) && ChildOrder(n) &&
    ParentLinks(n) && AllFresh(n)
  }

  /** `done` holds grid tiles only, every node's tile, and every river tile in it
      belongs to a node. */
  ghost predicate DoneFacts(g: Grid, n: seq<NodeRec>, done: set<Point>)
    requires g.Valid()
  {
    done <= g.Cells() &&
    (forall j :: 0 <= j < |n| ==> n[j].coords in done) &&
    (forall q :: q in done && g.RiverAt(q) ==> q in CoordsOf(n))
  }

  /** Every neighbour of every node is either in the grid or still waiting in
      the frontier, and every river neighbour is done or waiting. */
  ghost predicate Frontier(g: Grid, n: seq<NodeRec>, done: set<Point>, tw: map<Point, nat>)
    requires g.Valid()
  {
    forall j, d :: 0 <= j < |n| && 0 <= d < 4 ==>
      (g.InBounds(Add(n[j].coords, Neighbors[d])) || Add(n[j].coords, Neighbors[d]) in tw) &&
      (g.RiverAt(Add(n[j].coords, Neighbors[d])) ==>
        Add(n[j].coords, Neighbors[d]) in done || Add(n[j].coords, Neighbors[d]) in tw)
  }

  /** The frontier maps each candidate tile to an existing node next to it. */
  ghost predicate Claims(n: seq<NodeRec>, tw: map<Point, nat>)
  {
    forall q :: q in tw ==> tw[q] < |n| && Adjacent(n[tw[q]].coords, q)
  }

  /** The roots of the finished trees: no parent, on a seed, none listed twice. */
  ghost predicate Roots(n: seq<NodeRec>, rivers: seq<nat>, seeds: set<Point>)
  {
    (forall k :: 0 <= k < |rivers| ==> rivers[k] < |n| && n[rivers[k]].parent == None && n[rivers[k]].coords in seeds) &&
    (forall a, b :: 0 <= a < b < |rivers| ==> rivers[a] != rivers[b])
  }

  /** The tree being grown has its root at `root`, on a seed; every other node
      without a parent is a finished root. */
  ghost predicate Growing(n: seq<NodeRec>, root: nat, rivers: seq<nat>, seeds: set<Point>)
  {
    root < |n| && n[root].parent == None && n[root].coords in seeds && root !in rivers &&
    (forall j :: 0 <= j < |n| && n[j].parent == None ==> j == root || j in rivers)
  }

  /** The invariant of the loop at lines 234-255, while the tree at `root` grows. */
  ghost predicate GrowInv(g: Grid, n: seq<NodeRec>, done: set<Point>, tw: map<Point, nat>,
                          root: nat, rivers: seq<nat>, seeds: set<Point>)
  {
    g.Valid() && NodeFacts(g, n) && DoneFacts(g, n, done) && Frontier(g, n, done, tw) && Claims(n, tw) &&
    Roots(n, rivers, seeds) && Growing(n, root, rivers, seeds)
  }

  /** The invariant of the loop at lines 218-259. */
  ghost predicate BuildInv(g: Grid, n: seq<NodeRec>, done: set<Point>, rivers: seq<nat>,
                           seeds: set<Point>, working: set<Point>)
  {
    g.Valid() && NodeFacts(g, n) && DoneFacts(g, n, done) && Frontier(g, n, done, map[]) &&
    Roots(n, rivers, seeds) &&
    (forall j :: 0 <= j < |n| && n[j].parent == None ==> j in rivers) &&
    (forall s :: s in seeds ==> g.RiverAt(s)) &&
    working <= seeds && (forall s :: s in seeds && s !in working ==> s in done)
  }

  /** A seed already taken by an earlier tree is dropped (lines 221-225). */
  lemma SkipDone(g: Grid, n: seq<NodeRec>, done: set<Point>, rivers: seq<nat>,
                 seeds: set<Point>, working: set<Point>, s: Point)
    requires BuildInv(g, n, done, rivers, seeds, working) && s in done
    ensures BuildInv(g, n, done, rivers, seeds, working - {s})
  {
  }

  // ---------------------------------------------------------------------
  // One step at a time
  // ---------------------------------------------------------------------

  lemma CoordsOfAppend(n: seq<NodeRec>, x: NodeRec)
    ensures CoordsOf(n + [x]) == CoordsOf(n) + {x.coords}
  {
    var m := n + [x];
    forall q | q in CoordsOf(m) ensures q in CoordsOf(n) + {x.coords} {
      var j :| 0 <= j < |m| && m[j].coords == q;
      if j < |n| {
        assert n[j].coords == q;
      }
    }
    forall q | q in CoordsOf(n) ensures q in CoordsOf(m) {
      var j :| 0 <= j < |n| && n[j].coords == q;
      assert m[j].coords == q;
    }
    assert m[|n|].coords == x.coords;
  }

  /** `m` is `n` after `new Node(pt)` and `insertChild` under `p` (lines 246-247). */
  ghost predicate Attached(n: seq<NodeRec>, m: seq<NodeRec>, p: nat, pt: Point)
  {
    p < |n| && |m| == |n| + 1 &&
    (forall j :: 0 <= j < |n| && j != p ==> m[j] == n[j]) &&
    m[p] == n[p].(children := n[p].children + [|n|]) &&
    m[|n|] == NodeRec(pt, [], 1, 0, Some(p))
  }

  lemma AttachedCoords(n: seq<NodeRec>, m: seq<NodeRec>, p: nat, pt: Point)
    requires Attached(n, m, p, pt)
    ensures forall j :: 0 <= j < |n| ==> m[j].coords == n[j].coords && m[j].parent == n[j].parent
    ensures CoordsOf(m) == CoordsOf(n) + {pt}
  {
    forall q | q in CoordsOf(m) ensures q in CoordsOf(n) + {pt} {
      var j :| 0 <= j < |m| && m[j].coords == q;
      if j < |n| {
        assert n[j].coords == q;
      }
    }
    forall q | q in CoordsOf(n) ensures q in CoordsOf(m) {
      var j :| 0 <= j < |n| && n[j].coords == q;
      assert m[j].coords == q;
    }
    assert m[|n|].coords == pt;
  }

  lemma AttachedWf(n: seq<NodeRec>, m: seq<NodeRec>, p: nat, pt: Point)
    requires Attached(n, m, p, pt) && Wf(n)
    ensures Wf(m)
  {
    forall j, k | 0 <= j < |m| && 0 <= k < |m[j].children| ensures j < m[j].children[k] < |m| {
      if j == p && k == |n[p].children| {
      } else {
        assert m[j].children[k] == n[j].children[k];
      }
    }
  }

  lemma AttachedLinks(n: seq<NodeRec>, m: seq<NodeRec>, p: nat, pt: Point)
    requires Attached(n, m, p, pt) && Wf(n) && Wf(m) && ChildLinks(n) && Adjacent(n[p].coords, pt)
    ensures ChildLinks(m)
  {
    forall j, k | 0 <= j < |m| && 0 <= k < |m[j].children|
      ensures Adjacent(m[j].coords, m[m[j].children[k]].coords) && m[m[j].children[k]].parent == Some(j)
    {
      if j == p && k == |n[p].children| {
        assert m[j].children[k] == |n|;
      } else {
        var c := n[j].children[k];
        assert m[j].children[k] == c && c < |n|;
        assert m[c].coords == n[c].coords && m[c].parent == n[c].parent;
        assert m[j].coords == n[j].coords;
      }
    }
  }

  lemma AttachedOrder(n: seq<NodeRec>, m: seq<NodeRec>, p: nat, pt: Point)
    requires Attached(n, m, p, pt) && Wf(n) && ChildOrder(n)
    ensures ChildOrder(m)
  {
    forall j, a, b | 0 <= j < |m| && 0 <= a < b < |m[j].children|
      ensures m[j].children[a] < m[j].children[b]
    {
      if j == p && b == |n[p].children| {
        assert m[j].children[a] == n[j].children[a];
      } else if j < |n| {
        assert m[j].children[a] == n[j].children[a] && m[j].children[b] == n[j].children[b];
      }
    }
  }

  lemma AttachedParents(n: seq<NodeRec>, m: seq<NodeRec>, p: nat, pt: Point)
    requires Attached(n, m, p, pt) && ParentLinks(n)
    ensures ParentLinks(m)
  {
    forall j | 0 <= j < |m| && m[j].parent.Some?
      ensures m[j].parent.value < j && j in m[m[j].parent.value].children
    {
      if j < |n| {
        var q := n[j].parent.value;
        assert j in n[q].children;
        assert n[q].children <= m[q].children;
      } else {
        assert m[p].children[|n[p].children|] == j;
      }
    }
  }

  lemma AttachedRivers(g: Grid, n: seq<NodeRec>, m: seq<NodeRec>, p: nat, pt: Point)
    requires g.Valid() && Attached(n, m, p, pt) && OnRivers(g, n) && g.RiverAt(pt)
    ensures OnRivers(g, m)
  {
    forall j | 0 <= j < |m| ensures g.RiverAt(m[j].coords) {
      if j < |n| { assert g.RiverAt(n[j].coords); }
    }
  }

  lemma AttachedDistinct(n: seq<NodeRec>, m: seq<NodeRec>, p: nat, pt: Point)
    requires Attached(n, m, p, pt) && DistinctTiles(n) && pt !in CoordsOf(n)
    ensures DistinctTiles(m)
  {
    AttachedCoords(n, m, p, pt);
    forall j1, j2 | 0 <= j1 < j2 < |m| ensures m[j1].coords != m[j2].coords {
      assert n[j1].coords in CoordsOf(n);
    }
  }

  lemma AttachedFresh(n: seq<NodeRec>, m: seq<NodeRec>, p: nat, pt: Point)
    requires Attached(n, m, p, pt) && AllFresh(n)
    ensures AllFresh(m)
  {
    forall j | 0 <= j < |m| ensures m[j].maxTailLength == 1 && m[j].maxLengthIndex == 0 {
      if j < |n| { assert m[j].maxTailLength == n[j].maxTailLength && m[j].maxLengthIndex == n[j].maxLengthIndex; }
    }
  }

  lemma AttachedNodeFacts(g: Grid, n: seq<NodeRec>, m: seq<NodeRec>, p: nat, pt: Point)
    requires g.Valid() && NodeFacts(g, n) && Attached(n, m, p, pt)
    requires g.RiverAt(pt) && Adjacent(n[p].coords, pt) && pt !in CoordsOf(n)
    ensures NodeFacts(g, m) && CoordsOf(m) == CoordsOf(n) + {pt}
  {
    AttachedCoords(n, m, p, pt);
    AttachedWf(n, m, p, pt);
    AttachedLinks(n, m, p, pt);
    AttachedOrder(n, m, p, pt);
    AttachedParents(n, m, p, pt);
    AttachedRivers(g, n, m, p, pt);
    AttachedDistinct(n, m, p, pt);
    AttachedFresh(n, m, p, pt);
  }

  /** The river neighbours of `pt` are those written at line 253. */
  ghost predicate RiverNeighbor(g: Grid, pt: Point, q: Point)
    requires g.Valid()
  {
    Adjacent(pt, q) && g.RiverAt(q)
  }

  /** `tw'` is `tw` after `treeWorking[neighbor] = me` for every river neighbour
      of `pt`: the keys are the old ones plus those neighbours, every river
      neighbour is claimed by `me` (the last writer wins), and every other key
      keeps its claim. */
  ghost predicate Pushed(g: Grid, tw: map<Point, nat>, tw': map<Point, nat>, pt: Point, me: nat)
    requires g.Valid()
  {
    (forall q :: q in tw' <==> q in tw || RiverNeighbor(g, pt, q)) &&
    (forall q :: q in tw' && RiverNeighbor(g, pt, q) ==> tw'[q] == me) &&
    (forall q :: q in tw' && !RiverNeighbor(g, pt, q) ==> q in tw && tw'[q] == tw[q])
  }

  /** What the frontier lemmas read off `Pushed`. */
  lemma PushedFacts(g: Grid, tw: map<Point, nat>, tw': map<Point, nat>, pt: Point, me: nat)
    requires g.Valid() && Pushed(g, tw, tw', pt, me)
    ensures forall q :: q in tw ==> q in tw'
    ensures forall d :: 0 <= d < 4 && g.RiverAt(Add(pt, Neighbors[d])) ==> Add(pt, Neighbors[d]) in tw'
    ensures forall q :: q in tw' ==> (q in tw && tw'[q] == tw[q]) || (tw'[q] == me && Adjacent(pt, q))
  {
    forall d | 0 <= d < 4 && g.RiverAt(Add(pt, Neighbors[d])) ensures Add(pt, Neighbors[d]) in tw' {
      NeighborIffAdjacent(pt, Add(pt, Neighbors[d]));
    }
  }

  /** Popping a tile that is already done (lines 240-241). */
  lemma PopDone(g: Grid, n: seq<NodeRec>, done: set<Point>, tw: map<Point, nat>, tw': map<Point, nat>,
                root: nat, rivers: seq<nat>, seeds: set<Point>, pt: Point)
    requires GrowInv(g, n, done, tw, root, rivers, seeds) && pt in tw && pt in done
    requires tw' == tw - {pt}
    ensures GrowInv(g, n, done, tw', root, rivers, seeds)
  {
    g.InCells(pt);
    FrontierDrop(g, n, done, done, tw, pt);
  }

  /** Dropping a tile from the frontier once it is done and in the grid. */
  lemma FrontierDrop(g: Grid, n: seq<NodeRec>, done: set<Point>, done': set<Point>,
                     tw: map<Point, nat>, pt: Point)
    requires g.Valid() && Frontier(g, n, done, tw) && g.InBounds(pt)
    requires done' == done || done' == done + {pt}
    requires pt in done'
    ensures Frontier(g, n, done', tw - {pt})
  {
  }

  /** Popping a tile that is not river class (lines 242-244): it is done but
      makes no node. */
  lemma PopNonRiver(g: Grid, n: seq<NodeRec>, done: set<Point>, done': set<Point>,
                    tw: map<Point, nat>, tw': map<Point, nat>,
                    root: nat, rivers: seq<nat>, seeds: set<Point>, pt: Point)
    requires GrowInv(g, n, done, tw, root, rivers, seeds) && pt in tw
    requires g.InBounds(pt) && !IsRiver(g.At(pt))
    requires done' == done + {pt} && tw' == tw - {pt}
    ensures GrowInv(g, n, done', tw', root, rivers, seeds)
  {
    g.InCells(pt);
    FrontierDrop(g, n, done, done + {pt}, tw, pt);
  }

  /** The frontier after a new node on `pt` has pushed its river neighbours. */
  lemma FrontierGrow(g: Grid, n: seq<NodeRec>, m: seq<NodeRec>, done: set<Point>,
                     tw: map<Point, nat>, tw': map<Point, nat>, pt: Point)
    requires g.Valid() && Frontier(g, n, done, tw)
    requires |m| == |n| + 1 && m[|n|].coords == pt
    requires forall j :: 0 <= j < |n| ==> m[j].coords == n[j].coords
    requires g.Interior(pt) && g.InBounds(pt)
    requires forall q :: q in tw && q != pt ==> q in tw'
    requires forall d :: 0 <= d < 4 && g.RiverAt(Add(pt, Neighbors[d])) ==> Add(pt, Neighbors[d]) in tw'
    ensures Frontier(g, m, done + {pt}, tw')
  {
    forall j, d | 0 <= j < |m| && 0 <= d < 4
      ensures (g.InBounds(Add(m[j].coords, Neighbors[d])) || Add(m[j].coords, Neighbors[d]) in tw') &&
        (g.RiverAt(Add(m[j].coords, Neighbors[d])) ==>
          Add(m[j].coords, Neighbors[d]) in done + {pt} || Add(m[j].coords, Neighbors[d]) in tw')
    {
      if j < |n| {
        assert m[j].coords == n[j].coords;
      }
    }
  }

  /** Every frontier entry still names a node next to its tile. */
  lemma ClaimsGrow(n: seq<NodeRec>, m: seq<NodeRec>, tw: map<Point, nat>, tw': map<Point, nat>, pt: Point)
    requires Claims(n, tw)
    requires |m| == |n| + 1 && m[|n|].coords == pt
    requires forall j :: 0 <= j < |n| ==> m[j].coords == n[j].coords
    requires forall q :: q in tw' ==> (q in tw && tw'[q] == tw[q]) || (tw'[q] == |n| && Adjacent(pt, q))
    ensures Claims(m, tw')
  {
    forall q | q in tw' ensures tw'[q] < |m| && Adjacent(m[tw'[q]].coords, q) {
      if q in tw && tw'[q] == tw[q] {
        assert m[tw[q]].coords == n[tw[q]].coords;
      }
    }
  }

  /** The roots and the growing tree after a child was attached. */
  lemma RootsGrow(n: seq<NodeRec>, m: seq<NodeRec>, root: nat, rivers: seq<nat>, seeds: set<Point>)
    requires Roots(n, rivers, seeds) && Growing(n, root, rivers, seeds)
    requires |m| == |n| + 1 && m[|n|].parent.Some?
    requires forall j :: 0 <= j < |n| ==> m[j].coords == n[j].coords && m[j].parent == n[j].parent
    ensures Roots(m, rivers, seeds) && Growing(m, root, rivers, seeds)
  {
  }

  lemma DoneGrow(g: Grid, n: seq<NodeRec>, m: seq<NodeRec>, done: set<Point>, pt: Point)
    requires g.Valid() && DoneFacts(g, n, done) && g.InBounds(pt)
    requires |m| == |n| + 1 && m[|n|].coords == pt
    requires forall j :: 0 <= j < |n| ==> m[j].coords == n[j].coords
    requires CoordsOf(m) == CoordsOf(n) + {pt}
    ensures DoneFacts(g, m, done + {pt})
  {
    g.InCells(pt);
    forall j | 0 <= j < |m| ensures m[j].coords in done + {pt} {
      if j < |n| { assert n[j].coords in done; }
    }
  }

  /** The nodes, `done` and the roots after a river tile became a child of its
      claimant (lines 246-250). */
  lemma PopRiverNodes(g: Grid, n: seq<NodeRec>, m: seq<NodeRec>, done: set<Point>, tw: map<Point, nat>,
                      root: nat, rivers: seq<nat>, seeds: set<Point>, pt: Point)
    requires GrowInv(g, n, done, tw, root, rivers, seeds) && pt in tw && pt !in done
    requires g.RiverAt(pt) && Attached(n, m, tw[pt], pt)
    ensures NodeFacts(g, m) && DoneFacts(g, m, done + {pt})
    ensures Roots(m, rivers, seeds) && Growing(m, root, rivers, seeds)
  {
    var p := tw[pt];
    assert pt !in CoordsOf(n);
    AttachedCoords(n, m, p, pt);
    AttachedNodeFacts(g, n, m, p, pt);
    DoneGrow(g, n, m, done, pt);
    RootsGrow(n, m, root, rivers, seeds);
  }

  /** Popping a river tile (lines 246-254): a new child of the claiming node,
      whose river neighbours join the frontier. */
  lemma PopRiver(g: Grid, n: seq<NodeRec>, m: seq<NodeRec>, done: set<Point>, tw: map<Point, nat>,
                 tw': map<Point, nat>, root: nat, rivers: seq<nat>, seeds: set<Point>, pt: Point)
    requires GrowInv(g, n, done, tw, root, rivers, seeds) && pt in tw && pt !in done
    requires g.RiverAt(pt) && g.Interior(pt) && Attached(n, m, tw[pt], pt)
    requires Pushed(g, tw - {pt}, tw', pt, |n|)
    ensures GrowInv(g, m, done + {pt}, tw', root, rivers, seeds)
  {
    PopRiverNodes(g, n, m, done, tw, root, rivers, seeds, pt);
    PopRiverFrontier(g, n, m, done, tw, tw', pt);
  }

  /** The frontier and its claims after the new node pushed its river
      neighbours (lines 251-253). */
  lemma PopRiverFrontier(g: Grid, n: seq<NodeRec>, m: seq<NodeRec>, done: set<Point>, tw: map<Point, nat>,
                         tw': map<Point, nat>, pt: Point)
    requires g.Valid() && Frontier(g, n, done, tw) && Claims(n, tw) && pt in tw
    requires g.RiverAt(pt) && g.Interior(pt) && Attached(n, m, tw[pt], pt)
    requires Pushed(g, tw - {pt}, tw', pt, |n|)
    ensures Frontier(g, m, done + {pt}, tw') && Claims(m, tw')
  {
    AttachedCoords(n, m, tw[pt], pt);
    PushedFacts(g, tw - {pt}, tw', pt, |n|);
    FrontierGrow(g, n, m, done, tw, tw', pt);
    ClaimsGrow(n, m, tw, tw', pt);
  }

  /** One pass of the loop at lines 234-255 that raised no error: `pt` left the
      frontier and was either done already, or a tile that is not river class,
      or a river tile that became a child of its claimant and claimed its river
      neighbours. */
  ghost predicate Popped(g: Grid, n: seq<NodeRec>, n': seq<NodeRec>, done: set<Point>, done': set<Point>,
                         tw: map<Point, nat>, tw': map<Point, nat>, pt: Point)
    requires g.Valid()
  {
    pt in tw &&
    if pt in done then
      n' == n && done' == done && tw' == tw - {pt}
    else if g.InBounds(pt) && !IsRiver(g.At(pt)) then
      n' == n && done' == done + {pt} && tw' == tw - {pt}
    else
      g.RiverAt(pt) && g.Interior(pt) && Attached(n, n', tw[pt], pt) && done' == done + {pt} &&
      Pushed(g, tw - {pt}, tw', pt, |n|)
  }

  /** Every pass of the growth loop keeps its invariant. */
  lemma StepKeeps(g: Grid, n: seq<NodeRec>, n': seq<NodeRec>, done: set<Point>, done': set<Point>,
                  tw: map<Point, nat>, tw': map<Point, nat>, pt: Point,
                  root: nat, rivers: seq<nat>, seeds: set<Point>)
    requires GrowInv(g, n, done, tw, root, rivers, seeds) && Popped(g, n, n', done, done', tw, tw', pt)
    ensures GrowInv(g, n', done', tw', root, rivers, seeds)
  {
    if pt in done {
      PopDone(g, n, done, tw, tw', root, rivers, seeds, pt);
    } else if g.InBounds(pt) && !IsRiver(g.At(pt)) {
      PopNonRiver(g, n, done, done', tw, tw', root, rivers, seeds, pt);
    } else {
      PopRiver(g, n, n', done, tw, tw', root, rivers, seeds, pt);
    }
  }

  /** Every pass of the growth loop makes progress: the tiles not yet done
      shrink, or they stay and the frontier shrinks. It keeps the root in place. */
  lemma StepProgress(g: Grid, n: seq<NodeRec>, n': seq<NodeRec>, done: set<Point>, done': set<Point>,
                     tw: map<Point, nat>, tw': map<Point, nat>, pt: Point, root: nat)
    requires g.Valid() && done <= g.Cells() && root < |n| && Popped(g, n, n', done, done', tw, tw', pt)
    ensures root < |n'| && n'[root].coords == n[root].coords && done <= done'
    ensures |g.Cells() - done'| < |g.Cells() - done| || (done' == done && |tw'| < |tw|)
  {
    g.InCells(pt);
    if pt in done {
      assert (tw - {pt}).Keys + {pt} == tw.Keys;
    } else {
      assert g.Cells() - done == (g.Cells() - done') + {pt};
    }
  }

  /** The nodes after the seed `bp` became a new root (lines 226-228). */
  lemma StartNodes(g: Grid, n: seq<NodeRec>, done: set<Point>, bp: Point)
    requires g.Valid() && NodeFacts(g, n) && DoneFacts(g, n, done) && g.RiverAt(bp) && bp !in done
    ensures NodeFacts(g, n + [FreshNode(bp)])
  {
    var m := n + [FreshNode(bp)];
    assert Wf(m);
    forall j, k | 0 <= j < |m| && 0 <= k < |m[j].children|
      ensures Adjacent(m[j].coords, m[m[j].children[k]].coords) && m[m[j].children[k]].parent == Some(j)
    {
      assert m[j].children[k] < |n|;
    }
    assert DistinctTiles(m) by {
      forall j1, j2 | 0 <= j1 < j2 < |m| ensures m[j1].coords != m[j2].coords {
        assert n[j1].coords in done;
      }
    }
  }

  /** `done` after the seed `bp` became a new root (lines 226-228). */
  lemma StartDone(g: Grid, n: seq<NodeRec>, done: set<Point>, bp: Point)
    requires g.Valid() && DoneFacts(g, n, done) && g.InBounds(bp)
    ensures DoneFacts(g, n + [FreshNode(bp)], done + {bp})
  {
    CoordsOfAppend(n, FreshNode(bp));
    g.InCells(bp);
  }

  /** The frontier of the new tree: the four neighbours of the seed, claimed
      by its root (lines 229-232). */
  lemma StartFrontier(g: Grid, n: seq<NodeRec>, done: set<Point>, bp: Point, tw: map<Point, nat>)
    requires g.Valid() && Frontier(g, n, done, map[])
    requires forall q :: q in tw ==> tw[q] == |n| && Adjacent(bp, q)
    requires forall d :: 0 <= d < 4 ==> Add(bp, Neighbors[d]) in tw
    ensures Frontier(g, n + [FreshNode(bp)], done + {bp}, tw) && Claims(n + [FreshNode(bp)], tw)
  {
    var m := n + [FreshNode(bp)];
    forall j, d | 0 <= j < |m| && 0 <= d < 4
      ensures (g.InBounds(Add(m[j].coords, Neighbors[d])) || Add(m[j].coords, Neighbors[d]) in tw) &&
        (g.RiverAt(Add(m[j].coords, Neighbors[d])) ==>
          Add(m[j].coords, Neighbors[d]) in done + {bp} || Add(m[j].coords, Neighbors[d]) in tw)
    {
      if j < |n| {
        assert m[j].coords == n[j].coords;
      }
    }
  }

  /** Seeding a new tree at `bp` (lines 224-232). */
  lemma StartTree(g: Grid, n: seq<NodeRec>, done: set<Point>, rivers: seq<nat>,
                  seeds: set<Point>, working: set<Point>, bp: Point, tw: map<Point, nat>)
    requires BuildInv(g, n, done, rivers, seeds, working) && bp in working && bp !in done
    requires forall q :: q in tw ==> tw[q] == |n| && Adjacent(bp, q)
    requires forall d :: 0 <= d < 4 ==> Add(bp, Neighbors[d]) in tw
    ensures GrowInv(g, n + [FreshNode(bp)], done + {bp}, tw, |n|, rivers, seeds)
  {
    StartNodes(g, n, done, bp);
    StartDone(g, n, done, bp);
    StartFrontier(g, n, done, bp, tw);
    assert Roots(n + [FreshNode(bp)], rivers, seeds);
  }

  /** Closing a finished tree (line 258). */
  lemma FinishTree(g: Grid, n: seq<NodeRec>, done0: set<Point>, done: set<Point>, rivers: seq<nat>,
                   seeds: set<Point>, working: set<Point>, root: nat, bp: Point)
    requires GrowInv(g, n, done, map[], root, rivers, seeds)
    requires done0 <= done && bp in done && working <= seeds
    requires forall s :: s in seeds ==> g.RiverAt(s)
    requires forall s :: s in seeds && s !in working ==> s in done0
    ensures BuildInv(g, n, done, rivers + [root], seeds, working - {bp})
  {
  }

  // ---------------------------------------------------------------------
  // When the growth reads only grid tiles
  // ---------------------------------------------------------------------

  /** A set of river tiles off the border that holds every river neighbour of
      its tiles. A tree grown from a seed inside it stays inside it, so every
      read at lines 243 and 252 is in range. */
  ghost predicate SafeRegion(g: Grid, region: set<Point>)
    requires g.Valid()
  {
    (forall p :: p in region ==> g.RiverAt(p) && g.Interior(p)) &&
    (forall p, d :: p in region && 0 <= d < 4 && g.RiverAt(Add(p, Neighbors[d])) ==> Add(p, Neighbors[d]) in region)
  }

  /** The nodes of the current tree, from `root` on, sit in `region`. */
  ghost predicate TreeIn(n: seq<NodeRec>, root: nat, region: set<Point>)
  {
    forall j :: root <= j < |n| ==> n[j].coords in region
  }

  /** While the current tree lies in a safe region, every waiting tile is in
      the grid, and every waiting river tile is in the region. */
  lemma SafeFrontier(g: Grid, region: set<Point>, n: seq<NodeRec>, tw: map<Point, nat>, root: nat)
    requires g.Valid() && Claims(n, tw)
    requires forall q :: q in tw ==> root <= tw[q]
    ensures SafeRegion(g, region) && TreeIn(n, root, region) ==>
      forall q :: q in tw ==> g.InBounds(q) && (g.RiverAt(q) ==> q in region)
  {
    if SafeRegion(g, region) && TreeIn(n, root, region) {
      forall q | q in tw ensures g.InBounds(q) && (g.RiverAt(q) ==> q in region) {
        var c := n[tw[q]].coords;
        assert c in region;
        NeighborIffAdjacent(c, q);
      }
    }
  }

  /** A pass of the growth loop keeps the current tree inside a safe region. */
  lemma SafeStep(g: Grid, region: set<Point>, n: seq<NodeRec>, n': seq<NodeRec>, done: set<Point>,
                 done': set<Point>, tw: map<Point, nat>, tw': map<Point, nat>, pt: Point, root: nat)
    requires g.Valid() && Claims(n, tw) && Popped(g, n, n', done, done', tw, tw', pt)
    requires forall q :: q in tw ==> root <= tw[q]
    ensures SafeRegion(g, region) && TreeIn(n, root, region) ==> TreeIn(n', root, region)
  {
    SafeFrontier(g, region, n, tw, root);
    if SafeRegion(g, region) && TreeIn(n, root, region) && pt !in done && g.RiverAt(pt) {
      AttachedCoords(n, n', tw[pt], pt);
      assert n'[|n|].coords == pt;
    }
  }

  /** Every claim in the frontier stays with a node of the current tree. */
  lemma ClaimsFromRoot(g: Grid, n: seq<NodeRec>, n': seq<NodeRec>, done: set<Point>, done': set<Point>,
                       tw: map<Point, nat>, tw': map<Point, nat>, pt: Point, root: nat)
    requires g.Valid() && Popped(g, n, n', done, done', tw, tw', pt) && root <= |n|
    requires forall q :: q in tw ==> root <= tw[q]
    ensures forall q :: q in tw' ==> root <= tw'[q]
  {
    if pt !in done && g.RiverAt(pt) {
      PushedFacts(g, tw - {pt}, tw', pt, |n|);
    }
  }

  // ---------------------------------------------------------------------
  // Which tree a node belongs to
  // ---------------------------------------------------------------------

  /** The root of the tree holding node `j`: the node reached by following the
      `parent` links written at line 65 until one is missing. */
  ghost function RootOf(n: seq<NodeRec>, j: nat): (r: nat)
    requires ParentLinks(n) && j < |n|
    ensures r <= j && n[r].parent.None?
    decreases j
  {
    match n[j].parent
    case None => j
    case Some(p) => RootOf(n, p)
  }

  /** No two 4-adjacent nodes belong to different trees: a tree holds the whole
      river-connected part of the arena around its root. */
  ghost predicate AdjacentShareRoot(n: seq<NodeRec>)
    requires ParentLinks(n)
  {
    forall j1, j2 :: 0 <= j1 < |n| && 0 <= j2 < |n| && Adjacent(n[j1].coords, n[j2].coords) ==>
      RootOf(n, j1) == RootOf(n, j2)
  }

  /** Every node of the tree being grown, except its root, has its parent in
      that tree. */
  ghost predicate ParentsFrom(n: seq<NodeRec>, root: nat)
  {
    forall j :: root < j < |n| ==> n[j].parent.Some? && root <= n[j].parent.value
  }

  /** A pass of the growth loop attaches new nodes only to nodes of the current
      tree. */
  lemma ParentsStep(g: Grid, n: seq<NodeRec>, n': seq<NodeRec>, done: set<Point>, done': set<Point>,
                    tw: map<Point, nat>, tw': map<Point, nat>, pt: Point, root: nat)
    requires g.Valid() && Popped(g, n, n', done, done', tw, tw', pt) && ParentsFrom(n, root)
    requires forall q :: q in tw ==> root <= tw[q]
    ensures ParentsFrom(n', root)
  {
    if pt !in done && !(g.InBounds(pt) && !IsRiver(g.At(pt))) {
      AttachedCoords(n, n', tw[pt], pt);
    }
  }

  /** Every node from `root` on lies in the tree of `root`. */
  lemma TreeRoots(n: seq<NodeRec>, root: nat)
    requires ParentLinks(n) && root < |n| && n[root].parent.None? && ParentsFrom(n, root)
    ensures forall j :: root <= j < |n| ==> RootOf(n, j) == root
  {
    forall j | root <= j < |n| ensures RootOf(n, j) == root {
      TreeRootAt(n, root, j);
    }
  }

  lemma {:induction false} TreeRootAt(n: seq<NodeRec>, root: nat, j: nat)
    requires ParentLinks(n) && root <= j < |n| && n[root].parent.None? && ParentsFrom(n, root)
    ensures RootOf(n, j) == root
    decreases j
  {
    if j > root {
      TreeRootAt(n, root, n[j].parent.value);
    }
  }

  /** Appending nodes leaves the root of every earlier node unchanged. */
  lemma {:induction false} RootOfPrefix(n0: seq<NodeRec>, n: seq<NodeRec>, j: nat)
    requires ParentLinks(n0) && ParentLinks(n) && |n0| <= |n| && n[..|n0|] == n0 && j < |n0|
    ensures RootOf(n, j) == RootOf(n0, j)
    decreases j
  {
    assert n[j] == n0[j];
    if n0[j].parent.Some? {
      RootOfPrefix(n0, n, n0[j].parent.value);
    }
  }

  /** A node adjacent to a node of an arena closed under river adjacency is a
      node of that arena: the new tree cannot touch an earlier one. */
  lemma OldNeighborIsOld(g: Grid, n0: seq<NodeRec>, n: seq<NodeRec>, j1: nat, j2: nat)
    requires g.Valid() && OnRivers(g, n) && DistinctTiles(n)
    requires |n0| <= |n| && n[..|n0|] == n0 && j1 < |n0| && j2 < |n|
    requires forall j, d :: 0 <= j < |n0| && 0 <= d < 4 && g.RiverAt(Add(n0[j].coords, Neighbors[d])) ==>
      Add(n0[j].coords, Neighbors[d]) in CoordsOf(n0)
    requires Adjacent(n[j1].coords, n[j2].coords)
    ensures j2 < |n0|
  {
    var t := n[j2].coords;
    assert n[j1] == n0[j1];
    NeighborIffAdjacent(n0[j1].coords, t);
    var d :| 0 <= d < 4 && t == Add(n0[j1].coords, Neighbors[d]);
    assert t in CoordsOf(n0);
    var k :| 0 <= k < |n0| && n0[k].coords == t;
    assert n[k] == n0[k];
  }

  /** Appending a tree that touches no earlier node keeps adjacent nodes in a
      common tree. */
  lemma SeparateTrees(g: Grid, n0: seq<NodeRec>, n: seq<NodeRec>, root: nat)
    requires g.Valid() && NodeFacts(g, n0) && NodeFacts(g, n) && AdjacentShareRoot(n0)
    requires forall j, d :: 0 <= j < |n0| && 0 <= d < 4 && g.RiverAt(Add(n0[j].coords, Neighbors[d])) ==>
      Add(n0[j].coords, Neighbors[d]) in CoordsOf(n0)
    requires root == |n0| <= |n| && n[..root] == n0
    requires forall j :: root <= j < |n| ==> RootOf(n, j) == root
    ensures AdjacentShareRoot(n)
  {
    forall j1, j2 | 0 <= j1 < |n| && 0 <= j2 < |n| && Adjacent(n[j1].coords, n[j2].coords)
      ensures RootOf(n, j1) == RootOf(n, j2)
    {
      if j1 < root || j2 < root {
        if j1 < root {
          OldNeighborIsOld(g, n0, n, j1, j2);
        } else {
          OldNeighborIsOld(g, n0, n, j2, j1);
        }
        RootOfPrefix(n0, n, j1);
        RootOfPrefix(n0, n, j2);
        assert n[j1] == n0[j1] && n[j2] == n0[j2];
      }
    }
  }

  /** Every node in the subtree of `i` has the root of `i`. */
  lemma {:induction false} SubtreeRoot(n: seq<NodeRec>, i: nat, j: nat)
    requires Wf(n) && ParentLinks(n) && ChildLinks(n) && i < |n| && j < |n| && InSubtree(n, i, j)
    ensures RootOf(n, j) == RootOf(n, i)
    decreases |n| - i
  {
    if i != j {
      var k :| 0 <= k < |n[i].children| && InSubtree(n, n[i].children[k], j);
      var c := n[i].children[k];
      assert n[c].parent == Some(i);
      SubtreeRoot(n, c, j);
    }
  }

  /** What the growth loop keeps about the tree it is growing at `root`: every
      claim and every parent lies in it, and it stays inside a safe region
      holding its seed. */
  ghost predicate CurrentTree(g: Grid, region: set<Point>, seed: Point, n: seq<NodeRec>,
                              tw: map<Point, nat>, root: nat)
    requires g.Valid()
  {
    (forall q :: q in tw ==> root <= tw[q]) && ParentsFrom(n, root) &&
    (SafeRegion(g, region) && seed in region ==> TreeIn(n, root, region))
  }

  /** A pass of the growth loop keeps `CurrentTree`. */
  lemma CurrentTreeStep(g: Grid, region: set<Point>, seed: Point, n: seq<NodeRec>, n': seq<NodeRec>,
                        done: set<Point>, done': set<Point>, tw: map<Point, nat>, tw': map<Point, nat>,
                        pt: Point, root: nat)
    requires g.Valid() && Claims(n, tw) && Popped(g, n, n', done, done', tw, tw', pt) && root <= |n|
    requires CurrentTree(g, region, seed, n, tw, root)
    ensures CurrentTree(g, region, seed, n', tw', root)
  {
    ClaimsFromRoot(g, n, n', done, done', tw, tw', pt, root);
    ParentsStep(g, n, n', done, done', tw, tw', pt, root);
    SafeStep(g, region, n, n', done, done', tw, tw', pt, root);
  }
}
