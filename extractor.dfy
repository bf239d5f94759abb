/** The polyline extraction at the start of `render` (MakeRivers.cs:279-312).
    Starting from the river roots, a work list of nodes is consumed front to
    back; each item yields one polyline that follows the dominant child
    (`maxLengthIndex`) down to a leaf, and every other child met on the way
    becomes a new one-child branch item at the end of the work list. */
module Extractor {
  import opened Geometry
  import opened Wrappers
  import opened RiverTree

  // ---------------------------------------------------------------------
  // Work items and their preconditions
  // ---------------------------------------------------------------------

  /** Every internal node names one of its children as dominant. */
  ghost predicate IndexOk(n: seq<NodeRec>)
  {
    Wf(n) &&
    forall j :: 0 <= j < |n| && |n[j].children| > 0 ==> 0 <= n[j].maxLengthIndex < |n[j].children|
  }

  /** The state `process` leaves behind: every node annotated. */
  ghost predicate Renderable(n: seq<NodeRec>)
  {
    IndexOk(n) && forall j :: 0 <= j < |n| ==> AnnotatedAt(n, j)
  }

  /** A work item: an arena node, or a branch node made at line 301. Its
      children are arena nodes and, if it has any, it names a dominant one. */
  ghost predicate ItemOk(n: seq<NodeRec>, w: NodeRec)
  {
    (forall k :: 0 <= k < |w.children| ==> w.children[k] < |n|) &&
    (|w.children| > 0 ==> 0 <= w.maxLengthIndex < |w.children|)
  }

  ghost predicate AllItemsOk(n: seq<NodeRec>, q: seq<NodeRec>)
  {
    forall k :: 0 <= k < |q| ==> ItemOk(n, q[k])
  }

  /** The initial work list: the river roots, in order (lines 279-282). */
  function RootItems(n: seq<NodeRec>, rivers: seq<nat>): (r: seq<NodeRec>)
    requires IndexOk(n) && forall k :: 0 <= k < |rivers| ==> rivers[k] < |n|
    ensures |r| == |rivers| && forall k :: 0 <= k < |rivers| ==> r[k] == n[rivers[k]]
    ensures AllItemsOk(n, r)
  {
    if |rivers| == 0 then []
    else RootItems(n, rivers[..|rivers| - 1]) + [n[rivers[|rivers| - 1]]]
  }

  // ---------------------------------------------------------------------
  // What one item yields
  // ---------------------------------------------------------------------

  /** The points from arena node `j` down its dominant children to a leaf. */
  function Chain(n: seq<NodeRec>, j: nat): (r: seq<Point>)
    requires IndexOk(n) && j < |n|
    decreases |n| - j
  {
    [n[j].coords] +
    if |n[j].children| == 0 then [] else Chain(n, n[j].children[n[j].maxLengthIndex])
  }

  /** The points below an item along its dominant children. */
  function Below(n: seq<NodeRec>, w: NodeRec): seq<Point>
    requires IndexOk(n) && ItemOk(n, w)
  {
    if |w.children| == 0 then [] else Chain(n, w.children[w.maxLengthIndex])
  }

  /** The polyline of one item (lines 288-311). */
  function ItemChain(n: seq<NodeRec>, w: NodeRec): seq<Point>
    requires IndexOk(n) && ItemOk(n, w)
  {
    [w.coords] + Below(n, w)
  }

  /** The branch node of lines 301-303: a new root at the tile of its parent,
      with the one child `c`. getMaxTailLength (line 303) gives it index 0 and,
      by the recurrence, `c`'s tail length, which on an annotated arena is the
      one `c` already holds. */
  function Branch(n: seq<NodeRec>, p: Point, c: nat): (r: NodeRec)
    requires Wf(n) && c < |n|
    ensures ItemOk(n, r) && r.coords == p && r.children == [c] && r.parent == None
    ensures r.maxLengthIndex == 0
    ensures AnnotatedAt(n, c) ==> r.maxTailLength == Tail(n, c)
  {
    NodeRec(p, [c], n[c].maxTailLength, 0, None)
  }

  /** The branch items queued for the children `0..k-1` of `w` other than the
      dominant one (the loop at lines 297-306). */
  function Siblings(n: seq<NodeRec>, w: NodeRec, k: nat): (r: seq<NodeRec>)
    requires Wf(n) && ItemOk(n, w) && k <= |w.children|
    ensures AllItemsOk(n, r)
  {
    if k == 0 then []
    else if k - 1 == w.maxLengthIndex then Siblings(n, w, k - 1)
    else Siblings(n, w, k - 1) + [Branch(n, w.coords, w.children[k - 1])]
  }

  /** Every branch item queued while walking down from arena node `j`. */
  function NodeSpawned(n: seq<NodeRec>, j: nat): (r: seq<NodeRec>)
    requires IndexOk(n) && j < |n|
    ensures AllItemsOk(n, r)
    decreases |n| - j
  {
    if |n[j].children| == 0 then []
    else Siblings(n, n[j], |n[j].children|) + NodeSpawned(n, n[j].children[n[j].maxLengthIndex])
  }

  /** Every branch item queued while one item is turned into a polyline. */
  function ItemSpawned(n: seq<NodeRec>, w: NodeRec): (r: seq<NodeRec>)
    requires IndexOk(n) && ItemOk(n, w)
    ensures AllItemsOk(n, r)
  {
    if |w.children| == 0 then []
    else Siblings(n, w, |w.children|) + NodeSpawned(n, w.children[w.maxLengthIndex])
  }

  // ---------------------------------------------------------------------
  // Counting: one polyline per root plus one per non-dominant child
  // ---------------------------------------------------------------------

  /** The branch items the walk from arena node `j` eventually queues,
      counted transitively: every internal node of the subtree contributes its
      number of children minus one. */
  function Branches(n: seq<NodeRec>, j: nat): nat
    requires Wf(n) && j < |n|
    decreases |n| - j, 1
  {
    if |n[j].children| == 0 then 0
    else |n[j].children| - 1 + SumBranches(n, n[j].children, |n[j].children|, j)
  }

  /** `Branches` summed over the first `k` nodes of `cs`, all of them after `lo`. */
  function SumBranches(n: seq<NodeRec>, cs: seq<nat>, k: nat, lo: int): nat
    requires Wf(n) && k <= |cs| && forall m :: 0 <= m < |cs| ==> lo < cs[m] < |n|
    decreases |n| - lo, 0, k
  {
    if k == 0 then 0
    else SumBranches(n, cs, k - 1, lo) + Branches(n, cs[k - 1])
  }

  /** `Branches` for a work item. */
  function ItemBranches(n: seq<NodeRec>, w: NodeRec): nat
    requires Wf(n) && ItemOk(n, w)
  {
    if |w.children| == 0 then 0
    else |w.children| - 1 + SumBranches(n, w.children, |w.children|, -1)
  }

  /** `ItemBranches` summed over a work list. */
  function SumItems(n: seq<NodeRec>, q: seq<NodeRec>): nat
    requires Wf(n) && AllItemsOk(n, q)
  {
    if |q| == 0 then 0
    else SumItems(n, q[..|q| - 1]) + ItemBranches(n, q[|q| - 1])
  }

  lemma {:induction false} SumBranchesLo(n: seq<NodeRec>, cs: seq<nat>, k: nat, lo1: int, lo2: int)
    requires Wf(n) && k <= |cs| && forall m :: 0 <= m < |cs| ==> lo1 < cs[m] < |n| && lo2 < cs[m]
    ensures SumBranches(n, cs, k, lo1) == SumBranches(n, cs, k, lo2)
  {
    if k > 0 {
      SumBranchesLo(n, cs, k - 1, lo1, lo2);
    }
  }

  lemma {:induction false} SumItemsAppend(n: seq<NodeRec>, a: seq<NodeRec>, b: seq<NodeRec>)
    requires Wf(n) && AllItemsOk(n, a) && AllItemsOk(n, b)
    ensures AllItemsOk(n, a + b)
    ensures SumItems(n, a + b) == SumItems(n, a) + SumItems(n, b)
    decreases |b|
  {
    if |b| > 0 {
      var b' := b[..|b| - 1];
      assert (a + b)[..|a + b| - 1] == a + b';
      SumItemsAppend(n, a, b');
    } else {
      assert a + b == a;
    }
  }

  /** A branch item queues, in the end, what its only child does. */
  lemma BranchBranches(n: seq<NodeRec>, p: Point, c: nat)
    requires Wf(n) && c < |n|
    ensures ItemBranches(n, Branch(n, p, c)) == Branches(n, c)
  {
    var b := Branch(n, p, c);
    assert SumBranches(n, [c], 1, -1) == Branches(n, c);
    assert ItemBranches(n, b) == SumBranches(n, b.children, 1, -1);
  }

  lemma SumItemsSnoc(n: seq<NodeRec>, a: seq<NodeRec>, x: NodeRec)
    requires Wf(n) && AllItemsOk(n, a) && ItemOk(n, x)
    ensures AllItemsOk(n, a + [x])
    ensures SumItems(n, a + [x]) == SumItems(n, a) + ItemBranches(n, x)
  {
    assert (a + [x])[..|a|] == a;
  }

  /** Every child among the first `k` but the dominant one has a branch item. */
  lemma {:induction false} SiblingsLength(n: seq<NodeRec>, w: NodeRec, k: nat)
    requires Wf(n) && ItemOk(n, w) && k <= |w.children|
    ensures |Siblings(n, w, k)| == if 0 <= w.maxLengthIndex < k then k - 1 else k
  {
    if k > 0 {
      SiblingsLength(n, w, k - 1);
    }
  }

  /** Every branch item sits at the tile of `w` and has one child. */
  lemma {:induction false} SiblingsShape(n: seq<NodeRec>, w: NodeRec, k: nat)
    requires Wf(n) && ItemOk(n, w) && k <= |w.children|
    ensures forall m :: 0 <= m < |Siblings(n, w, k)| ==>
      Siblings(n, w, k)[m].coords == w.coords && |Siblings(n, w, k)[m].children| == 1
  {
    if k > 0 {
      SiblingsShape(n, w, k - 1);
    }
  }

  /** Every child among the first `k` but the dominant one gets a branch item
      at the tile of `w`; with `SiblingsLength`, exactly one each. */
  lemma {:induction false} SiblingsCover(n: seq<NodeRec>, w: NodeRec, k: nat)
    requires Wf(n) && ItemOk(n, w) && k <= |w.children|
    ensures forall i :: 0 <= i < k && i != w.maxLengthIndex ==> Branch(n, w.coords, w.children[i]) in Siblings(n, w, k)
  {
    if k > 0 {
      SiblingsCover(n, w, k - 1);
    }
  }

  /** `Branches` summed over the first `k` children of `w` but the dominant one. */
  function SiblingBranches(n: seq<NodeRec>, w: NodeRec, k: nat): nat
    requires Wf(n) && ItemOk(n, w) && k <= |w.children|
  {
    if k == 0 then 0
    else SiblingBranches(n, w, k - 1) + if k - 1 == w.maxLengthIndex then 0 else Branches(n, w.children[k - 1])
  }

  /** The branch items of the first `k` children queue, in the end, what those
      children do. */
  lemma {:induction false} SiblingsItems(n: seq<NodeRec>, w: NodeRec, k: nat)
    requires Wf(n) && ItemOk(n, w) && k <= |w.children|
    ensures SumItems(n, Siblings(n, w, k)) == SiblingBranches(n, w, k)
  {
    if k > 0 {
      SiblingsItems(n, w, k - 1);
      SiblingsStep(n, w, k);
    }
  }

  /** One step of `Siblings`: a non-dominant child adds its branch item's
      count, the dominant child adds nothing. */
  lemma SiblingsStep(n: seq<NodeRec>, w: NodeRec, k: nat)
    requires Wf(n) && ItemOk(n, w) && 0 < k <= |w.children|
    ensures SumItems(n, Siblings(n, w, k)) == SumItems(n, Siblings(n, w, k - 1))
      + (if k - 1 == w.maxLengthIndex then 0 else Branches(n, w.children[k - 1]))
  {
    if k - 1 != w.maxLengthIndex {
      var b := Branch(n, w.coords, w.children[k - 1]);
      SumItemsSnoc(n, Siblings(n, w, k - 1), b);
      BranchBranches(n, w.coords, w.children[k - 1]);
    }
  }

  /** Adding back the dominant child gives the sum over all the first `k`. */
  lemma {:induction false} SiblingBranchesSum(n: seq<NodeRec>, w: NodeRec, k: nat)
    requires Wf(n) && ItemOk(n, w) && k <= |w.children|
    ensures SiblingBranches(n, w, k) + (if 0 <= w.maxLengthIndex < k then Branches(n, w.children[w.maxLengthIndex]) else 0)
      == SumBranches(n, w.children, k, -1)
  {
    if k > 0 {
      SiblingBranchesSum(n, w, k - 1);
    }
  }

  /** Walking down from arena node `j` queues exactly `Branches(n, j)` further
      polylines, counting the items and what they in turn queue. */
  lemma {:induction false} NodeSpawnAccount(n: seq<NodeRec>, j: nat)
    requires IndexOk(n) && j < |n|
    ensures |NodeSpawned(n, j)| + SumItems(n, NodeSpawned(n, j)) == Branches(n, j)
    decreases |n| - j
  {
    var ch := n[j].children;
    if |ch| > 0 {
      var d := ch[n[j].maxLengthIndex];
      NodeSpawnAccount(n, d);
      SiblingsLength(n, n[j], |ch|);
      SiblingsItems(n, n[j], |ch|);
      SiblingBranchesSum(n, n[j], |ch|);
      SumItemsAppend(n, Siblings(n, n[j], |ch|), NodeSpawned(n, d));
      SumBranchesLo(n, ch, |ch|, j, -1);
    }
  }

  lemma SpawnAccount(n: seq<NodeRec>, w: NodeRec)
    requires IndexOk(n) && ItemOk(n, w)
    ensures |ItemSpawned(n, w)| + SumItems(n, ItemSpawned(n, w)) == ItemBranches(n, w)
  {
    var ch := w.children;
    if |ch| > 0 {
      var d := ch[w.maxLengthIndex];
      NodeSpawnAccount(n, d);
      SiblingsLength(n, w, |ch|);
      SiblingsItems(n, w, |ch|);
      SiblingBranchesSum(n, w, |ch|);
      SumItemsAppend(n, Siblings(n, w, |ch|), NodeSpawned(n, d));
    }
  }

  lemma SumItemsFront(n: seq<NodeRec>, q: seq<NodeRec>)
    requires Wf(n) && AllItemsOk(n, q) && |q| > 0
    ensures SumItems(n, q) == ItemBranches(n, q[0]) + SumItems(n, q[1..])
  {
    assert q == [q[0]] + q[1..];
    SumItemsAppend(n, [q[0]], q[1..]);
    assert [q[0]][..0] == [];
  }

  // ---------------------------------------------------------------------
  // The whole extraction
  // ---------------------------------------------------------------------

  /** The polylines the loop at lines 286-312 produces from the work list `q`:
      the front item's polyline, then those of the rest of the list with the
      item's branch items appended. */
  ghost function Polylines(n: seq<NodeRec>, q: seq<NodeRec>): seq<seq<Point>>
    requires IndexOk(n) && AllItemsOk(n, q)
    decreases |q| + SumItems(n, q)
  {
    if |q| == 0 then []
    else
      var rest := q[1..] + ItemSpawned(n, q[0]);
      SpawnAccount(n, q[0]);
      SumItemsFront(n, q);
      SumItemsAppend(n, q[1..], ItemSpawned(n, q[0]));
      [ItemChain(n, q[0])] + Polylines(n, rest)
  }

  /** Taking the front item: its polyline comes first, then those of the rest
      of the list with its branch items appended, a list that is smaller in the
      measure `Polylines` decreases by. */
  lemma PopFront(n: seq<NodeRec>, q: seq<NodeRec>)
    requires IndexOk(n) && AllItemsOk(n, q) && |q| > 0
    ensures AllItemsOk(n, q[1..] + ItemSpawned(n, q[0]))
    ensures |q[1..] + ItemSpawned(n, q[0])| + SumItems(n, q[1..] + ItemSpawned(n, q[0])) + 1 == |q| + SumItems(n, q)
    ensures Polylines(n, q) == [ItemChain(n, q[0])] + Polylines(n, q[1..] + ItemSpawned(n, q[0]))
  {
    SpawnAccount(n, q[0]);
    SumItemsFront(n, q);
    SumItemsAppend(n, q[1..], ItemSpawned(n, q[0]));
  }

  /** One polyline per work item, plus one per non-dominant child met below any
      of them. */
  lemma {:induction false} PolylineCount(n: seq<NodeRec>, q: seq<NodeRec>)
    requires IndexOk(n) && AllItemsOk(n, q)
    ensures |Polylines(n, q)| == |q| + SumItems(n, q)
    decreases |q| + SumItems(n, q)
  {
    if |q| > 0 {
      PopFront(n, q);
      PolylineCount(n, q[1..] + ItemSpawned(n, q[0]));
    }
  }

  /** The work list is first in, first out: the first polylines are those of the
      items already queued, in their order. */
  lemma {:induction false} QueuedFirst(n: seq<NodeRec>, q: seq<NodeRec>, k: nat)
    requires IndexOk(n) && AllItemsOk(n, q) && k < |q|
    ensures k < |Polylines(n, q)| && Polylines(n, q)[k] == ItemChain(n, q[k])
    decreases |q| + SumItems(n, q)
  {
    PopFront(n, q);
    if k > 0 {
      var rest := q[1..] + ItemSpawned(n, q[0]);
      QueuedFirst(n, rest, k - 1);
      assert rest[k - 1] == q[k];
      assert Polylines(n, q)[k] == Polylines(n, rest)[k - 1];
    }
  }

  /** Each child sits next to its parent (true of the trees `process` builds). */
  ghost predicate TreeAdjacent(n: seq<NodeRec>)
    requires Wf(n)
  {
    forall j, k :: 0 <= j < |n| && 0 <= k < |n[j].children| ==> Adjacent(n[j].coords, n[n[j].children[k]].coords)
  }

  ghost predicate ItemAdjacent(n: seq<NodeRec>, w: NodeRec)
    requires ItemOk(n, w)
  {
    forall k :: 0 <= k < |w.children| ==> Adjacent(w.coords, n[w.children[k]].coords)
  }

  /** Consecutive points of a list are 4-neighbours. */
  ghost predicate IsPath(ps: seq<Point>)
  {
    forall i :: 0 <= i < |ps| - 1 ==> Adjacent(ps[i], ps[i + 1])
  }

  lemma {:induction false} ChainIsPath(n: seq<NodeRec>, j: nat)
    requires IndexOk(n) && TreeAdjacent(n) && j < |n|
    ensures |Chain(n, j)| >= 1 && Chain(n, j)[0] == n[j].coords && IsPath(Chain(n, j))
    decreases |n| - j
  {
    if |n[j].children| > 0 {
      var d := n[j].children[n[j].maxLengthIndex];
      ChainIsPath(n, d);
      var c := Chain(n, j);
      assert c == [n[j].coords] + Chain(n, d);
      forall i | 0 <= i < |c| - 1 ensures Adjacent(c[i], c[i + 1]) {
        if i > 0 {
          assert c[i] == Chain(n, d)[i - 1] && c[i + 1] == Chain(n, d)[i];
        }
      }
    }
  }

  /** Spawned branch items sit next to their only child again. */
  lemma SpawnedAdjacent(n: seq<NodeRec>, w: NodeRec)
    requires IndexOk(n) && TreeAdjacent(n) && ItemOk(n, w) && ItemAdjacent(n, w)
    ensures forall m :: 0 <= m < |ItemSpawned(n, w)| ==> ItemAdjacent(n, ItemSpawned(n, w)[m])
  {
    if |w.children| > 0 {
      SiblingsAdjacent(n, w, |w.children|);
      NodeSpawnedAdjacent(n, w.children[w.maxLengthIndex]);
    }
  }

  lemma {:induction false} SiblingsAdjacent(n: seq<NodeRec>, w: NodeRec, k: nat)
    requires Wf(n) && ItemOk(n, w) && ItemAdjacent(n, w) && k <= |w.children|
    ensures forall m :: 0 <= m < |Siblings(n, w, k)| ==> ItemAdjacent(n, Siblings(n, w, k)[m])
  {
    if k > 0 {
      SiblingsAdjacent(n, w, k - 1);
    }
  }

  lemma {:induction false} NodeSpawnedAdjacent(n: seq<NodeRec>, j: nat)
    requires IndexOk(n) && TreeAdjacent(n) && j < |n|
    ensures forall m :: 0 <= m < |NodeSpawned(n, j)| ==> ItemAdjacent(n, NodeSpawned(n, j)[m])
    decreases |n| - j
  {
    if |n[j].children| > 0 {
      SiblingsAdjacent(n, n[j], |n[j].children|);
      NodeSpawnedAdjacent(n, n[j].children[n[j].maxLengthIndex]);
    }
  }

  /** The polyline of one item steps from tile to neighbouring tile. */
  lemma ItemChainIsPath(n: seq<NodeRec>, w: NodeRec)
    requires IndexOk(n) && TreeAdjacent(n) && ItemOk(n, w) && ItemAdjacent(n, w)
    ensures IsPath(ItemChain(n, w))
  {
    var c := ItemChain(n, w);
    if |w.children| > 0 {
      var d := w.children[w.maxLengthIndex];
      ChainIsPath(n, d);
      forall i | 0 <= i < |c| - 1 ensures Adjacent(c[i], c[i + 1]) {
        if i > 0 {
          assert c[i] == Chain(n, d)[i - 1] && c[i + 1] == Chain(n, d)[i];
        }
      }
    }
  }

  /** On trees whose children sit next to their parents, every polyline is a
      non-empty 4-connected path. */
  lemma {:induction false} PolylinesArePaths(n: seq<NodeRec>, q: seq<NodeRec>)
    requires IndexOk(n) && AllItemsOk(n, q) && TreeAdjacent(n)
    requires forall k :: 0 <= k < |q| ==> ItemAdjacent(n, q[k])
    ensures forall k :: 0 <= k < |Polylines(n, q)| ==> |Polylines(n, q)[k]| >= 1 && IsPath(Polylines(n, q)[k])
    decreases |q| + SumItems(n, q)
  {
    if |q| > 0 {
      var w := q[0];
      var rest := q[1..] + ItemSpawned(n, w);
      PopFront(n, q);
      SpawnedAdjacent(n, w);
      assert forall k :: 0 <= k < |rest| ==> ItemAdjacent(n, rest[k]) by {
        forall k | 0 <= k < |rest| ensures ItemAdjacent(n, rest[k]) {
          if k < |q| - 1 { assert rest[k] == q[k + 1]; }
        }
      }
      PolylinesArePaths(n, rest);
      ItemChainIsPath(n, w);
      forall k | 0 <= k < |Polylines(n, q)|
        ensures |Polylines(n, q)[k]| >= 1 && IsPath(Polylines(n, q)[k])
      {
        if k > 0 {
          assert Polylines(n, q)[k] == Polylines(n, rest)[k - 1];
        }
      }
    }
  }

  /** Every point of every polyline is the tile of an arena node or of a
      queued item: a set holding all of those holds every point drawn. */
  lemma {:induction false} ChainWithin(n: seq<NodeRec>, j: nat, tiles: set<Point>)
    requires IndexOk(n) && j < |n| && forall m :: 0 <= m < |n| ==> n[m].coords in tiles
    ensures forall i :: 0 <= i < |Chain(n, j)| ==> Chain(n, j)[i] in tiles
    decreases |n| - j
  {
    if |n[j].children| > 0 {
      ChainWithin(n, n[j].children[n[j].maxLengthIndex], tiles);
    }
  }

  lemma {:induction false} NodeSpawnedWithin(n: seq<NodeRec>, j: nat, tiles: set<Point>)
    requires IndexOk(n) && j < |n| && forall m :: 0 <= m < |n| ==> n[m].coords in tiles
    ensures forall k :: 0 <= k < |NodeSpawned(n, j)| ==> NodeSpawned(n, j)[k].coords in tiles
    decreases |n| - j
  {
    if |n[j].children| > 0 {
      SiblingsShape(n, n[j], |n[j].children|);
      NodeSpawnedWithin(n, n[j].children[n[j].maxLengthIndex], tiles);
    }
  }

  lemma ItemWithin(n: seq<NodeRec>, w: NodeRec, tiles: set<Point>)
    requires IndexOk(n) && ItemOk(n, w) && w.coords in tiles
    requires forall m :: 0 <= m < |n| ==> n[m].coords in tiles
    ensures forall i :: 0 <= i < |ItemChain(n, w)| ==> ItemChain(n, w)[i] in tiles
    ensures forall k :: 0 <= k < |ItemSpawned(n, w)| ==> ItemSpawned(n, w)[k].coords in tiles
  {
    if |w.children| > 0 {
      var d := w.children[w.maxLengthIndex];
      SiblingsShape(n, w, |w.children|);
      ChainWithin(n, d, tiles);
      NodeSpawnedWithin(n, d, tiles);
    }
  }

  lemma {:induction false} PolylinesWithin(n: seq<NodeRec>, q: seq<NodeRec>, tiles: set<Point>)
    requires IndexOk(n) && AllItemsOk(n, q)
    requires forall m :: 0 <= m < |n| ==> n[m].coords in tiles
    requires forall k :: 0 <= k < |q| ==> q[k].coords in tiles
    ensures forall k, i :: 0 <= k < |Polylines(n, q)| && 0 <= i < |Polylines(n, q)[k]| ==> Polylines(n, q)[k][i] in tiles
    decreases |q| + SumItems(n, q)
  {
    if |q| > 0 {
      var rest := q[1..] + ItemSpawned(n, q[0]);
      PopFront(n, q);
      ItemWithin(n, q[0], tiles);
      assert forall k :: 0 <= k < |rest| ==> rest[k].coords in tiles by {
        forall k | 0 <= k < |rest| ensures rest[k].coords in tiles {
          if k < |q| - 1 { assert rest[k] == q[k + 1]; }
        }
      }
      PolylinesWithin(n, rest, tiles);
      forall k, i | 0 <= k < |Polylines(n, q)| && 0 <= i < |Polylines(n, q)[k]|
        ensures Polylines(n, q)[k][i] in tiles
      {
        if k > 0 {
          assert Polylines(n, q)[k] == Polylines(n, rest)[k - 1];
        }
      }
    }
  }

  /** Renderable arenas meet the precondition of the extraction. */
  lemma AnnotatedIndexOk(n: seq<NodeRec>)
    requires Wf(n) && forall j :: 0 <= j < |n| ==> AnnotatedAt(n, j)
    ensures IndexOk(n)
  {
    forall j | 0 <= j < |n| && |n[j].children| > 0
      ensures 0 <= n[j].maxLengthIndex < |n[j].children|
    {
      assert AnnotatedAt(n, j);
      DomIsFirstArgmax(n, j);
    }
  }

  // ---------------------------------------------------------------------
  // Coverage: every node below a work item shows up in some polyline
  // ---------------------------------------------------------------------

  /** Arena node `j` is the tile of item `w` or lies below one of its children. */
  ghost predicate ItemCovers(n: seq<NodeRec>, w: NodeRec, j: nat)
    requires Wf(n) && ItemOk(n, w) && j < |n|
  {
    w.coords == n[j].coords || exists k :: 0 <= k < |w.children| && InSubtree(n, w.children[k], j)
  }

  /** A node below arena node `d` is on the dominant chain from `d`, or below
      a branch item `b` that the walk queues. */
  lemma {:induction false} NodeCover(n: seq<NodeRec>, d: nat, j: nat) returns (b: NodeRec)
    requires IndexOk(n) && d < |n| && j < |n| && InSubtree(n, d, j)
    ensures n[j].coords in Chain(n, d) || (b in NodeSpawned(n, d) && ItemOk(n, b) && ItemCovers(n, b, j))
    decreases |n| - d
  {
    if d == j {
      return n[d];
    }
    var ch := n[d].children;
    var k :| 0 <= k < |ch| && InSubtree(n, ch[k], j);
    var c := ch[n[d].maxLengthIndex];
    assert NodeSpawned(n, d) == Siblings(n, n[d], |ch|) + NodeSpawned(n, c);
    if k == n[d].maxLengthIndex {
      b := NodeCover(n, c, j);
      assert Chain(n, d) == [n[d].coords] + Chain(n, c);
    } else {
      SiblingsCover(n, n[d], |ch|);
      b := Branch(n, n[d].coords, ch[k]);
      assert b.children[0] == ch[k];
    }
  }

  /** The same for a work item: a node it covers is on its polyline or covered
      by a branch item `b` it queues. */
  lemma ItemCover(n: seq<NodeRec>, w: NodeRec, j: nat) returns (b: NodeRec)
    requires IndexOk(n) && ItemOk(n, w) && j < |n| && ItemCovers(n, w, j)
    ensures n[j].coords in ItemChain(n, w) || (b in ItemSpawned(n, w) && ItemOk(n, b) && ItemCovers(n, b, j))
  {
    if w.coords == n[j].coords {
      return w;
    }
    var ch := w.children;
    var k :| 0 <= k < |ch| && InSubtree(n, ch[k], j);
    var c := ch[w.maxLengthIndex];
    assert ItemSpawned(n, w) == Siblings(n, w, |ch|) + NodeSpawned(n, c);
    if k == w.maxLengthIndex {
      b := NodeCover(n, c, j);
      assert ItemChain(n, w) == [w.coords] + Chain(n, c);
    } else {
      SiblingsCover(n, w, |ch|);
      b := Branch(n, w.coords, ch[k]);
      assert b.children[0] == ch[k];
    }
  }

  /** Taking the front item of the work list: a node covered by a queued item
      is on the front item's polyline or covered by an item of the list that
      remains. */
  lemma CoverStep(n: seq<NodeRec>, q: seq<NodeRec>, w: NodeRec, j: nat) returns (w': NodeRec)
    requires IndexOk(n) && AllItemsOk(n, q) && ItemOk(n, w) && w in q && j < |n| && ItemCovers(n, w, j)
    ensures n[j].coords in ItemChain(n, q[0]) ||
      (w' in q[1..] + ItemSpawned(n, q[0]) && ItemOk(n, w') && ItemCovers(n, w', j))
  {
    if w == q[0] {
      w' := ItemCover(n, w, j);
    } else {
      w' := w;
      assert w in q[1..];
    }
  }

  /** Every node covered by a queued item is a point of some polyline: the
      extraction drops no tile of any tree it starts from. */
  lemma {:induction false} PolylinesCover(n: seq<NodeRec>, q: seq<NodeRec>, w: NodeRec, j: nat) returns (k: nat)
    requires IndexOk(n) && AllItemsOk(n, q) && ItemOk(n, w) && w in q && j < |n| && ItemCovers(n, w, j)
    ensures k < |Polylines(n, q)| && n[j].coords in Polylines(n, q)[k]
    decreases |q| + SumItems(n, q)
  {
    var rest := q[1..] + ItemSpawned(n, q[0]);
    SpawnAccount(n, q[0]);
    SumItemsFront(n, q);
    SumItemsAppend(n, q[1..], ItemSpawned(n, q[0]));
    var w' := CoverStep(n, q, w, j);
    if n[j].coords in ItemChain(n, q[0]) {
      QueuedFirst(n, q, 0);
      return 0;
    }
    var k' := PolylinesCover(n, rest, w', j);
    k := k' + 1;
    PolylinesShift(n, q, k');
  }

  /** Polyline `k + 1` of a list is polyline `k` of what remains after its
      front item is taken. */
  lemma PolylinesShift(n: seq<NodeRec>, q: seq<NodeRec>, k: nat)
    requires IndexOk(n) && AllItemsOk(n, q) && |q| > 0
    requires AllItemsOk(n, q[1..] + ItemSpawned(n, q[0]))
    requires k < |Polylines(n, q[1..] + ItemSpawned(n, q[0]))|
    ensures k + 1 < |Polylines(n, q)| && Polylines(n, q)[k + 1] == Polylines(n, q[1..] + ItemSpawned(n, q[0]))[k]
  {
    PopFront(n, q);
  }

  // ---------------------------------------------------------------------
  // The loop itself
  // ---------------------------------------------------------------------

  /** The loop at lines 297-306: a branch node for every child of `current`
      except the dominant one, each appended to the work list. The arena is
      not changed: getMaxTailLength on an annotated subtree writes nothing. */
  method QueueBranches(arena: Arena, current: NodeRec, rendernodes: seq<NodeRec>)
    returns (queued: seq<NodeRec>)
    requires Renderable(arena.nodes) && ItemOk(arena.nodes, current) && |current.children| > 0
    modifies arena
    ensures arena.nodes == old(arena.nodes)
    ensures queued == rendernodes + Siblings(arena.nodes, current, |current.children|)
  {
    ghost var n := arena.nodes;
    var largestIndex := current.maxLengthIndex;
    queued := rendernodes;
    for i := 0 to |current.children|
      invariant arena.nodes == n
      invariant queued == rendernodes + Siblings(n, current, i)
    {
      if largestIndex != i {
        var child := current.children[i];
        assert AnnotatedAt(arena.nodes, child);
        var len := arena.GetMaxTailLength(child);
        assert len == n[child].maxTailLength;
        var newparent := NodeRec(current.coords, [child], len, 0, None);
        queued := queued + [newparent];
      }
    }
  }

  /** One step down the dominant child: extending the points by the child's
      tile and the queue by the step's branch items leaves, for the child, the
      same polyline and the same final queue as for `w`. */
  lemma Descend(n: seq<NodeRec>, w: NodeRec, points: seq<Point>, q: seq<NodeRec>)
    requires IndexOk(n) && ItemOk(n, w) && |w.children| > 0
    ensures var d := w.children[w.maxLengthIndex];
      ItemOk(n, n[d]) && (forall k :: 0 <= k < |n[d].children| ==> d < n[d].children[k]) &&
      (points + [n[d].coords]) + Below(n, n[d]) == points + Below(n, w) &&
      (q + Siblings(n, w, |w.children|)) + ItemSpawned(n, n[d]) == q + ItemSpawned(n, w)
  {
    var d := w.children[w.maxLengthIndex];
    assert Below(n, w) == [n[d].coords] + Below(n, n[d]);
    assert ItemSpawned(n, w) == Siblings(n, w, |w.children|) + ItemSpawned(n, n[d]);
  }

  /** Lines 288-311 for one item: follow the dominant children down to a leaf,
      collecting their tiles and queueing the other children as branches. */
  method TraceItem(arena: Arena, item: NodeRec, rendernodes: seq<NodeRec>)
    returns (points: seq<Point>, queued: seq<NodeRec>)
    requires Renderable(arena.nodes) && ItemOk(arena.nodes, item)
    modifies arena
    ensures arena.nodes == old(arena.nodes)
    ensures points == ItemChain(arena.nodes, item)
    ensures queued == rendernodes + ItemSpawned(arena.nodes, item)
  {
    ghost var n := arena.nodes;
    var current := item;
    queued := rendernodes;
    points := [current.coords];
    ghost var depth: int := -1;
    while |current.children| > 0
      invariant arena.nodes == n
      invariant ItemOk(n, current) && -1 <= depth < |n|
      invariant depth >= 0 ==> current == n[depth]
      invariant forall k :: 0 <= k < |current.children| ==> depth < current.children[k]
      invariant points + Below(n, current) == ItemChain(n, item)
      invariant queued + ItemSpawned(n, current) == rendernodes + ItemSpawned(n, item)
      decreases |n| - depth
    {
      var largestIndex := current.maxLengthIndex;
      Descend(n, current, points, queued);
      ghost var w := current;
      queued := QueueBranches(arena, current, queued);
      current := arena.nodes[current.children[largestIndex]];
      depth := w.children[largestIndex];
      points := points + [current.coords];
    }
  }

  /** One pass of the loop at lines 286-312: the polylines so far, then the
      first item's, then those of the rest of the work list. */
  lemma RenderStep(n: seq<NodeRec>, q: seq<NodeRec>, done: seq<seq<Point>>)
    requires IndexOk(n) && AllItemsOk(n, q) && |q| > 0
    ensures AllItemsOk(n, q[1..] + ItemSpawned(n, q[0]))
    ensures |q[1..] + ItemSpawned(n, q[0])| + SumItems(n, q[1..] + ItemSpawned(n, q[0])) < |q| + SumItems(n, q)
    ensures done + Polylines(n, q) == (done + [ItemChain(n, q[0])]) + Polylines(n, q[1..] + ItemSpawned(n, q[0]))
  {
    PopFront(n, q);
  }

  /** Lines 279-282: the work list starts as a copy of the river roots. */
  method QueueRoots(arena: Arena, rivers: seq<nat>) returns (rendernodes: seq<NodeRec>)
    requires IndexOk(arena.nodes)
    requires forall k :: 0 <= k < |rivers| ==> rivers[k] < |arena.nodes|
    ensures rendernodes == RootItems(arena.nodes, rivers)
  {
    rendernodes := [];
    for k := 0 to |rivers|
      invariant rendernodes == RootItems(arena.nodes, rivers[..k])
    {
      assert rivers[..k + 1][..k] == rivers[..k];
      rendernodes := rendernodes + [arena.nodes[rivers[k]]];
    }
    assert rivers[..|rivers|] == rivers;
  }

  /** The polyline extraction of `render` (lines 279-312): the work list starts
      as the river roots and each item taken from its front becomes one
      polyline. The branch nodes live only in the work list. */
  method Render(arena: Arena, rivers: seq<nat>) returns (curvepoints: seq<seq<Point>>)
    requires Renderable(arena.nodes)
    requires forall k :: 0 <= k < |rivers| ==> rivers[k] < |arena.nodes|
    modifies arena
    ensures arena.nodes == old(arena.nodes)
    ensures curvepoints == Polylines(arena.nodes, RootItems(arena.nodes, rivers))
  {
    ghost var n := arena.nodes;
    var rendernodes := QueueRoots(arena, rivers);
    ghost var q0 := rendernodes;
    curvepoints := [];
    while |rendernodes| > 0
      invariant arena.nodes == n
      invariant AllItemsOk(n, rendernodes)
      invariant curvepoints + Polylines(n, rendernodes) == Polylines(n, q0)
      decreases |rendernodes| + SumItems(n, rendernodes)
    {
      var current := rendernodes[0];
      ghost var q := rendernodes;
      var points;
      points, rendernodes := TraceItem(arena, current, rendernodes[1..]);
      RenderStep(n, q, curvepoints);
      curvepoints := curvepoints + [points];
    }
  }
}
