/** The whole of `process` (MakeRivers.cs:169-271): from every seed not yet
    done, a flood fill over river tiles builds one tree of nodes; a process-wide
    `done` set keeps every tile in at most one tree. */
module Builder {
  import opened Geometry
  import opened Wrappers
  import opened RiverTree
  import opened Scan
  import opened Growth

  /** `processedResults`: the roots of the river trees (indices into the arena),
      the ocean tiles and the lake tiles. */
  datatype Processed = Processed(rivers: seq<nat>, oceans: seq<Point>, lakes: seq<Point>)

  /** The neighbour loop at lines 249-254: every river neighbour of `pt` is
      claimed by the new node `me`, overwriting an older claim, and no other
      entry changes. A neighbour outside the grid cannot be read and is returned
      as the out-of-range error. */
  method ClaimNeighbors(g: Grid, tw: map<Point, nat>, pt: Point, me: nat)
    returns (outOfRange: Option<Point>, tw': map<Point, nat>)
    requires g.Valid()
    ensures outOfRange.Some? ==> !g.InBounds(outOfRange.value) && !g.Interior(pt)
    ensures outOfRange.None? <==> g.Interior(pt)
    ensures outOfRange.None? ==> Pushed(g, tw, tw', pt, me)
  {
    tw' := tw;
    for k := 0 to 4
      invariant forall d :: 0 <= d < k ==> g.InBounds(Add(pt, Neighbors[d]))
      invariant forall q :: q in tw ==> q in tw'
      invariant forall q :: q in tw' ==> q in tw || RiverNeighbor(g, pt, q)
      invariant forall d :: 0 <= d < k && g.RiverAt(Add(pt, Neighbors[d])) ==>
        Add(pt, Neighbors[d]) in tw' && tw'[Add(pt, Neighbors[d])] == me
      invariant forall q :: q in tw' && !RiverNeighbor(g, pt, q) ==> q in tw && tw'[q] == tw[q]
    {
      var neighbor := Add(pt, Neighbors[k]);
      if !g.InBounds(neighbor) {
        return Some(neighbor), tw';
      }
      if IsRiver(g.At(neighbor)) {
        NeighborIffAdjacent(pt, neighbor);
        tw' := tw'[neighbor := me];
      }
    }
    forall q | RiverNeighbor(g, pt, q) ensures q in tw' && tw'[q] == me {
      NeighborIffAdjacent(pt, q);
    }
    outOfRange := None;
  }

  /** One pass of the loop at lines 234-255: a tile `pt` is taken out of the
      frontier; unless it is done already it becomes done, and a river tile
      becomes a child of the node that claimed it and claims its own river
      neighbours. Reading a tile outside the grid (line 243, line 252) is the
      out-of-range error, returned in `outOfRange`: it happens exactly when the
      tile is not done and lies off the grid, or is a river tile on the border.
      Only the claimant and the new node can change. */
  method GrowStep(g: Grid, arena: Arena, done: set<Point>, tw: map<Point, nat>)
    returns (outOfRange: Option<Point>, done': set<Point>, tw': map<Point, nat>, pt: Point)
    requires g.Valid() && |tw| > 0 && forall q :: q in tw ==> tw[q] < |arena.nodes|
    modifies arena
    ensures pt in tw && done <= done'
    ensures outOfRange.Some? <==> pt !in done && (!g.InBounds(pt) || (g.RiverAt(pt) && !g.Interior(pt)))
    ensures outOfRange.Some? ==> !g.InBounds(outOfRange.value)
    ensures outOfRange.None? ==> Popped(g, old(arena.nodes), arena.nodes, done, done', tw, tw', pt)
    ensures |old(arena.nodes)| <= |arena.nodes|
    ensures forall j :: 0 <= j < |old(arena.nodes)| && j != tw[pt] ==> arena.nodes[j] == old(arena.nodes)[j]
  {
    ghost var n := arena.nodes;
    pt :| pt in tw;
    var myParent := tw[pt];
    tw' := tw - {pt};
    if pt in done {
      return None, done, tw', pt;
    }
    done' := done + {pt};
    if !g.InBounds(pt) {
      return Some(pt), done', tw', pt;
    }
    if !IsRiver(g.At(pt)) {
      return None, done', tw', pt;
    }
    var me := arena.NewNode(pt);
    arena.InsertChild(myParent, me);
    assert Attached(n, arena.nodes, myParent, pt);
    var err;
    err, tw' := ClaimNeighbors(g, tw', pt, me);
    if err.Some? {
      return err, done', tw', pt;
    }
    outOfRange := None;
  }

  /** One tree grown from the seed `basePoint` (lines 224-258). The nodes of
      earlier trees are left as they were, and every new node belongs to the
      new tree. The growth cannot fail when the seed lies in a safe region,
      ghost parameter `region`. */
  method GrowTree(g: Grid, arena: Arena, done0: set<Point>, basePoint: Point,
                  ghost rivers: seq<nat>, ghost seeds: set<Point>, ghost working: set<Point>,
                  ghost region: set<Point>)
    returns (outOfRange: Option<Point>, done: set<Point>, root: nat)
    requires BuildInv(g, arena.nodes, done0, rivers, seeds, working)
    requires basePoint in working && basePoint !in done0
    modifies arena
    ensures done0 <= done
    ensures root == |old(arena.nodes)| < |arena.nodes| && arena.nodes[..root] == old(arena.nodes)
    ensures outOfRange.Some? ==> !g.InBounds(outOfRange.value)
    ensures SafeRegion(g, region) && basePoint in region ==> outOfRange.None?
    ensures outOfRange.None? ==>
      arena.nodes[root].coords == basePoint &&
      BuildInv(g, arena.nodes, done, rivers + [root], seeds, working - {basePoint}) &&
      forall j :: root <= j < |arena.nodes| ==> RootOf(arena.nodes, j) == root
  {
    done := done0 + {basePoint};
    root := arena.NewNode(basePoint);
    var treeWorking: map<Point, nat> := map[];
    for k := 0 to 4
      invariant arena.nodes == old(arena.nodes) + [FreshNode(basePoint)]
      invariant forall q :: q in treeWorking ==> treeWorking[q] == root && Adjacent(basePoint, q)
      invariant forall d :: 0 <= d < k ==> Add(basePoint, Neighbors[d]) in treeWorking
    {
      NeighborIffAdjacent(basePoint, Add(basePoint, Neighbors[k]));
      treeWorking := treeWorking[Add(basePoint, Neighbors[k]) := root];
    }
    StartTree(g, old(arena.nodes), done0, rivers, seeds, working, basePoint, treeWorking);

    while |treeWorking| > 0
      invariant GrowInv(g, arena.nodes, done, treeWorking, root, rivers, seeds)
      invariant done0 <= done && basePoint in done
      invariant root == |old(arena.nodes)| < |arena.nodes| && arena.nodes[root].coords == basePoint
      invariant arena.nodes[..root] == old(arena.nodes)
      invariant CurrentTree(g, region, basePoint, arena.nodes, treeWorking, root)
      decreases |g.Cells() - done|, |treeWorking|
    {
      ghost var n, doneBefore, twBefore := arena.nodes, done, treeWorking;
      SafeFrontier(g, region, n, twBefore, root);
      var pt;
      outOfRange, done, treeWorking, pt := GrowStep(g, arena, done, treeWorking);
      PrefixKept(n, arena.nodes, root, twBefore[pt]);
      if outOfRange.Some? {
        return;
      }
      StepKeeps(g, n, arena.nodes, doneBefore, done, twBefore, treeWorking, pt, root, rivers, seeds);
      StepProgress(g, n, arena.nodes, doneBefore, done, twBefore, treeWorking, pt, root);
      CurrentTreeStep(g, region, basePoint, n, arena.nodes, doneBefore, done, twBefore, treeWorking, pt, root);
    }
    FinishTree(g, arena.nodes, done0, done, rivers, seeds, working, root, basePoint);
    TreeRoots(arena.nodes, root);
    outOfRange := None;
  }

  lemma PrefixKept(n: seq<NodeRec>, n': seq<NodeRec>, root: nat, changed: nat)
    requires root <= |n| <= |n'| && root <= changed
    requires forall j :: 0 <= j < |n| && j != changed ==> n'[j] == n[j]
    ensures n'[..root] == n[..root]
  {
  }

  /** The loop at lines 218-259: every seed not yet done becomes the root of a
      new tree, grown by `GrowTree`; a seed some earlier tree reached is dropped.
      Adjacent nodes always share a tree, since a tree is grown until no river
      tile next to it is left. When a safe region holds every seed, nothing
      fails. */
  method GrowForest(g: Grid, arena: Arena, seeds: set<Point>, ghost region: set<Point>)
    returns (outOfRange: Option<Point>, done: set<Point>, rivers: seq<nat>)
    requires BuildInv(g, arena.nodes, {}, [], seeds, seeds)
    modifies arena
    ensures outOfRange.Some? ==> !g.InBounds(outOfRange.value)
    ensures SafeRegion(g, region) && seeds <= region ==> outOfRange.None?
    ensures outOfRange.None? ==>
      BuildInv(g, arena.nodes, done, rivers, seeds, {}) && AdjacentShareRoot(arena.nodes)
  {
    var working := seeds;
    done, rivers := {}, [];
    while working != {}
      invariant BuildInv(g, arena.nodes, done, rivers, seeds, working) && AdjacentShareRoot(arena.nodes)
      decreases |working|
    {
      var basePoint :| basePoint in working;
      ghost var before := working;
      working := working - {basePoint};
      if basePoint in done {
        SkipDone(g, arena.nodes, done, rivers, seeds, before, basePoint);
        continue;
      }
      var root;
      ghost var n0, done0 := arena.nodes, done;
      outOfRange, done, root := GrowTree(g, arena, done, basePoint, rivers, seeds, before, region);
      if outOfRange.Some? {
        return;
      }
      CoordsClosed(g, n0, done0);
      SeparateTrees(g, n0, arena.nodes, root);
      rivers := rivers + [root];
    }
    outOfRange := None;
  }

  /** `process` (lines 169-271) on an already classified grid. On success:
      the ocean and lake lists of the scan; trees whose nodes sit on distinct
      river tiles, each child next to its parent and owned by it alone; every
      root a seed and every seed in some tree; no river tile next to a node left
      out of the forest and no two adjacent nodes in different trees, so the
      forest's tiles are exactly the river tiles reached from the seeds; every
      tree annotated by getMaxTailLength. It fails, on
      a tile outside the grid, exactly when a coastal land tile or a river tile
      reachable from a seed lies on the border of the grid. */
  method Process(g: Grid) returns (arena: Arena, result: Result)
    requires g.Valid()
    ensures fresh(arena)
    ensures result.Failure? ==> !g.InBounds(result.at)
    ensures result.Success? <==>
      CoastOffBorder(g) && ReachOffBorder(g)
    ensures result.Success? ==> result.value.oceans == CellsWith(g, Ocean, g.height)
    ensures result.Success? ==> result.value.lakes == CellsWith(g, Lake, g.height)
    ensures result.Success? ==> Forest(g, arena.nodes, result.value.rivers)
    ensures result.Success? ==> CoordsOf(arena.nodes) == Reachable(g)
  {
    arena := new Arena();
    var oceans, lakes := ClassifyWater(g);
    var possibleRiver := CoastalLand(g, oceans);
    var outOfRange, working := FindSeeds(g, possibleRiver);
    CoastIsInterior(g, possibleRiver);
    if outOfRange.Some? {
      return arena, Failure(outOfRange.value);
    }
    var err, rivers := BuildForest(g, arena, working);
    if err.Some? {
      return arena, Failure(err.value);
    }
    return arena, Success(Processed(rivers, oceans, lakes));
  }

  /** Lines 218-264 of `process`: the trees grown from the seeds, then
      annotated. The growth fails, on a tile outside the grid, exactly when a
      river tile reachable from a seed lies on the border. */
  method BuildForest(g: Grid, arena: Arena, seeds: set<Point>) returns (outOfRange: Option<Point>, rivers: seq<nat>)
    requires g.Valid() && seeds == Seeds(g) && arena.nodes == []
    modifies arena
    ensures outOfRange.Some? ==> !g.InBounds(outOfRange.value)
    ensures outOfRange.None? <==> ReachOffBorder(g)
    ensures outOfRange.None? ==> Forest(g, arena.nodes, rivers) && CoordsOf(arena.nodes) == Reachable(g)
  {
    EmptyForest(g);
    ghost var region := Reachable(g);
    if ReachOffBorder(g) {
      ReachIsSafe(g);
    }
    var done;
    outOfRange, done, rivers := GrowForest(g, arena, seeds, region);
    if outOfRange.Some? {
      return;
    }
    AnnotateTrees(g, arena, rivers);
    CoordsClosed(g, arena.nodes, done);
    ForestHoldsReach(g, arena.nodes, rivers);
    ForestIsReach(g, arena.nodes, rivers);
  }

  /** The loop at lines 263-264: getMaxTailLength on every root. A tree fresh
      from the builder is annotated already, so nothing changes. */
  method AnnotateTrees(g: Grid, arena: Arena, rivers: seq<nat>)
    requires g.Valid() && NodeFacts(g, arena.nodes)
    requires forall k :: 0 <= k < |rivers| ==> rivers[k] < |arena.nodes|
    modifies arena
    ensures arena.nodes == old(arena.nodes)
    ensures forall k :: 0 <= k < |rivers| ==> AnnotatedAt(arena.nodes, rivers[k])
  {
    for k := 0 to |rivers|
      invariant arena.nodes == old(arena.nodes)
    {
      FreshTreeIsAnnotated(g, arena.nodes, rivers[k]);
      var _ := arena.GetMaxTailLength(rivers[k]);
    }
    forall k | 0 <= k < |rivers| ensures AnnotatedAt(arena.nodes, rivers[k]) {
      FreshTreeIsAnnotated(g, arena.nodes, rivers[k]);
    }
  }

  /** The possible river list is read without error exactly when no coastal
      land tile lies on the border. */
  lemma CoastIsInterior(g: Grid, possibleRiver: seq<Point>)
    requires g.Valid() && possibleRiver == LandNear(g, CellsWith(g, Ocean, g.height))
    ensures (forall i :: 0 <= i < |possibleRiver| ==> g.Interior(possibleRiver[i])) <==>
      CoastOffBorder(g)
  {
    SeedsSpec(g);
    if forall i :: 0 <= i < |possibleRiver| ==> g.Interior(possibleRiver[i]) {
      forall l | CoastalLandAt(g, l) ensures g.Interior(l) {
        var i :| 0 <= i < |possibleRiver| && possibleRiver[i] == l;
      }
    } else {
      var i :| 0 <= i < |possibleRiver| && !g.Interior(possibleRiver[i]);
      assert CoastalLandAt(g, possibleRiver[i]);
    }
  }

  /** Every tile reached from a seed is a node of the forest, so it is not on
      the border. */
  lemma ForestHoldsReach(g: Grid, n: seq<NodeRec>, rivers: seq<nat>)
    requires g.Valid() && Forest(g, n, rivers)
    ensures ReachOffBorder(g)
  {
    forall p | SeedReach(g, p) ensures g.Interior(p) {
      var path :| RiverPath(g, path) && path[0] in Seeds(g) && path[|path| - 1] == p;
      ConnectedTilesAreInForest(g, n, path);
    }
  }

  datatype Result = Success(value: Processed) | Failure(at: Point)

  /** The forest `process` returns, stated in the terms of MakeRivers.cs. */
  ghost predicate Forest(g: Grid, n: seq<NodeRec>, rivers: seq<nat>)
    requires g.Valid()
  {
    NodeFacts(g, n) &&
    // every root is a seed (line 228) and has no parent; no root twice
    Roots(n, rivers, Seeds(g)) &&
    // a node without parent is a root
    (forall j :: 0 <= j < |n| && n[j].parent == None ==> j in rivers) &&
    // a tree holds every node next to one of its nodes (the flood fill of
    // lines 234-257 runs until no river neighbour is left)
    AdjacentShareRoot(n) &&
    // every seed is the tile of some node
    Seeds(g) <= CoordsOf(n) &&
    // no node lies on the border, and every river tile next to a node is a node
    (forall j :: 0 <= j < |n| ==> g.Interior(n[j].coords)) &&
    (forall j, d :: 0 <= j < |n| && 0 <= d < 4 && g.RiverAt(Add(n[j].coords, Neighbors[d])) ==>
      Add(n[j].coords, Neighbors[d]) in CoordsOf(n)) &&
    // getMaxTailLength has been run on every tree
    (forall k :: 0 <= k < |rivers| ==> AnnotatedAt(n, rivers[k]))
  }

  lemma CoordsClosed(g: Grid, n: seq<NodeRec>, done: set<Point>)
    requires g.Valid() && NodeFacts(g, n) && DoneFacts(g, n, done) && Frontier(g, n, done, map[])
    ensures forall j :: 0 <= j < |n| ==> g.Interior(n[j].coords)
    ensures forall j, d :: 0 <= j < |n| && 0 <= d < 4 && g.RiverAt(Add(n[j].coords, Neighbors[d])) ==>
      Add(n[j].coords, Neighbors[d]) in CoordsOf(n)
  {
  }

  /** A tree made by the builder still has the values of `new Node` everywhere,
      which is already the annotation of the literal recurrence. */
  lemma FreshTreeIsAnnotated(g: Grid, n: seq<NodeRec>, i: nat)
    requires g.Valid() && NodeFacts(g, n) && i < |n|
    ensures AnnotatedAt(n, i)
  {
    AllFreshCollapsed(n, i);
    CollapsedIsAnnotated(n, i);
  }

  lemma {:induction false} AllFreshCollapsed(n: seq<NodeRec>, i: nat)
    requires Wf(n) && i < |n|
    requires forall j :: 0 <= j < |n| ==> n[j].maxTailLength == 1 && n[j].maxLengthIndex == 0
    ensures Collapsed(n, i)
    decreases |n| - i
  {
    forall k | 0 <= k < |n[i].children| ensures Collapsed(n, n[i].children[k]) {
      AllFreshCollapsed(n, n[i].children[k]);
    }
  }

  // ---------------------------------------------------------------------
  // Completeness
  // ---------------------------------------------------------------------

  /** A walk over river tiles, each step to a 4-neighbour. */
  ghost predicate RiverPath(g: Grid, path: seq<Point>)
    requires g.Valid()
  {
    |path| >= 1 &&
    (forall i :: 0 <= i < |path| ==> g.RiverAt(path[i])) &&
    (forall i :: 0 <= i < |path| - 1 ==> Adjacent(path[i], path[i + 1]))
  }

  /** `p` is reached from a seed by a walk over river tiles. */
  ghost predicate SeedReach(g: Grid, p: Point)
    requires g.Valid()
  {
    exists path :: RiverPath(g, path) && path[0] in Seeds(g) && path[|path| - 1] == p
  }

  /** No coastal land tile lies on the border of the grid. */
  ghost predicate CoastOffBorder(g: Grid)
    requires g.Valid()
  {
    forall l :: CoastalLandAt(g, l) ==> g.Interior(l)
  }

  /** No river tile reached from a seed lies on the border of the grid. */
  ghost predicate ReachOffBorder(g: Grid)
    requires g.Valid()
  {
    forall p :: SeedReach(g, p) ==> g.Interior(p)
  }

  /** The river tiles reached from some seed. */
  ghost function Reachable(g: Grid): set<Point>
    requires g.Valid()
  {
    set p | p in g.Cells() && SeedReach(g, p)
  }

  /** When no reached tile lies on the border, the reached tiles form a safe
      region holding every seed, so the growth cannot fail. */
  lemma ReachIsSafe(g: Grid)
    requires g.Valid() && ReachOffBorder(g)
    ensures SafeRegion(g, Reachable(g)) && Seeds(g) <= Reachable(g)
  {
    forall s | s in Seeds(g) ensures s in Reachable(g) {
      SeedIsRiver(g, s);
      assert RiverPath(g, [s]);
      g.InCells(s);
    }
    forall p | p in Reachable(g) ensures g.RiverAt(p) {
      var path :| RiverPath(g, path) && path[0] in Seeds(g) && path[|path| - 1] == p;
    }
    forall p, d | p in Reachable(g) && 0 <= d < 4 && g.RiverAt(Add(p, Neighbors[d]))
      ensures Add(p, Neighbors[d]) in Reachable(g)
    {
      var q := Add(p, Neighbors[d]);
      NeighborIffAdjacent(p, q);
      ReachStep(g, p, q);
      g.InCells(q);
    }
  }

  /** Before line 218: no node, nothing done, every seed still to take. */
  lemma EmptyForest(g: Grid)
    requires g.Valid()
    ensures BuildInv(g, [], {}, [], Seeds(g), Seeds(g))
  {
    forall s | s in Seeds(g) ensures g.RiverAt(s) {
      SeedIsRiver(g, s);
    }
  }

  lemma SeedIsRiver(g: Grid, s: Point)
    requires g.Valid() && s in Seeds(g)
    ensures g.RiverAt(s)
  {
    SeedsSpec(g);
  }

  /** A walk to `p` extends to a river neighbour `q` of `p`. */
  lemma ReachStep(g: Grid, p: Point, q: Point)
    requires g.Valid() && SeedReach(g, p) && g.RiverAt(q) && Adjacent(p, q)
    ensures SeedReach(g, q)
  {
    var path :| RiverPath(g, path) && path[0] in Seeds(g) && path[|path| - 1] == p;
    var path' := path + [q];
    forall i | 0 <= i < |path'| - 1 ensures Adjacent(path'[i], path'[i + 1]) {
      if i < |path| - 1 {
        assert path'[i] == path[i] && path'[i + 1] == path[i + 1];
      }
    }
    assert RiverPath(g, path');
  }

  /** Every river tile connected through river tiles to a tile of the forest is
      itself in the forest. With `Seeds(g) <= CoordsOf(n)` from `Forest`, every
      river tile connected to a seed ends up in a tree. */
  lemma {:induction false} ConnectedTilesAreInForest(g: Grid, n: seq<NodeRec>, path: seq<Point>)
    requires g.Valid() && RiverPath(g, path) && path[0] in CoordsOf(n)
    requires forall j, d :: 0 <= j < |n| && 0 <= d < 4 && g.RiverAt(Add(n[j].coords, Neighbors[d])) ==>
      Add(n[j].coords, Neighbors[d]) in CoordsOf(n)
    ensures path[|path| - 1] in CoordsOf(n)
    decreases |path|
  {
    if |path| > 1 {
      var init := path[..|path| - 1];
      assert RiverPath(g, init);
      ConnectedTilesAreInForest(g, n, init);
      var prev, last := path[|path| - 2], path[|path| - 1];
      assert prev in CoordsOf(n);
      var j :| 0 <= j < |n| && n[j].coords == prev;
      NeighborIffAdjacent(prev, last);
      var d :| 0 <= d < 4 && last == Add(prev, Neighbors[d]);
    }
  }


  // ---------------------------------------------------------------------
  // One tree per river network
  // ---------------------------------------------------------------------

  /** Every node is reached from a seed: its root sits on a seed, and each
      child is a river tile next to its parent. */
  lemma {:induction false} NodeReach(g: Grid, n: seq<NodeRec>, rivers: seq<nat>, j: nat)
    requires g.Valid() && NodeFacts(g, n) && Roots(n, rivers, Seeds(g))
    requires forall i :: 0 <= i < |n| && n[i].parent == None ==> i in rivers
    requires j < |n|
    ensures SeedReach(g, n[j].coords)
    decreases j
  {
    match n[j].parent
    case None =>
      var s := n[j].coords;
      var k :| 0 <= k < |rivers| && rivers[k] == j;
      SeedIsRiver(g, s);
      assert RiverPath(g, [s]);
    case Some(p) =>
      assert p < j && j in n[p].children;
      NodeReach(g, n, rivers, p);
      var k :| 0 <= k < |n[p].children| && n[p].children[k] == j;
      ReachStep(g, n[p].coords, n[j].coords);
  }

  /** The tiles of the forest are exactly the river tiles reached from a seed. */
  lemma ForestIsReach(g: Grid, n: seq<NodeRec>, rivers: seq<nat>)
    requires g.Valid() && Forest(g, n, rivers)
    ensures CoordsOf(n) == Reachable(g)
  {
    forall p | p in CoordsOf(n) ensures p in Reachable(g) {
      var j :| 0 <= j < |n| && n[j].coords == p;
      NodeReach(g, n, rivers, j);
      g.InCells(p);
    }
    forall p | p in Reachable(g) ensures p in CoordsOf(n) {
      var path :| RiverPath(g, path) && path[0] in Seeds(g) && path[|path| - 1] == p;
      ConnectedTilesAreInForest(g, n, path);
    }
  }

  /** No node lies in two trees of the forest. */
  lemma TreesDisjoint(g: Grid, n: seq<NodeRec>, rivers: seq<nat>, j: nat, a: nat, b: nat)
    requires g.Valid() && Forest(g, n, rivers) && j < |n| && a < |rivers| && b < |rivers|
    requires InSubtree(n, rivers[a], j) && InSubtree(n, rivers[b], j)
    ensures a == b
  {
    SubtreeRoot(n, rivers[a], j);
    SubtreeRoot(n, rivers[b], j);
  }

  /** Two 4-adjacent nodes lie in the same tree: a river network is never split
      between two roots. */
  lemma AdjacentSameTree(g: Grid, n: seq<NodeRec>, rivers: seq<nat>, j1: nat, j2: nat, a: nat, b: nat)
    requires g.Valid() && Forest(g, n, rivers) && j1 < |n| && j2 < |n| && a < |rivers| && b < |rivers|
    requires Adjacent(n[j1].coords, n[j2].coords)
    requires InSubtree(n, rivers[a], j1) && InSubtree(n, rivers[b], j2)
    ensures a == b
  {
    SubtreeRoot(n, rivers[a], j1);
    SubtreeRoot(n, rivers[b], j2);
  }
}
