/** The river `Node` of MakeRivers.cs (lines 12-69), kept in an arena: a node is
    an index into `Arena.nodes`, and a child list is a list of such indices. */
module RiverTree {
  import opened Geometry
  import opened Wrappers

  /** One `Node`: its tile, its ordered children, the two cached tail values and
      the write-only `parent` back-reference. */
  datatype NodeRec = NodeRec(
    coords: Point,
    children: seq<nat>,
    maxTailLength: int,
    maxLengthIndex: int,
    parent: Option<nat>)

  /** `new Node(p)`: no children, `maxTailLength == 1`, `maxLengthIndex` at the
      C# field default 0, no parent. */
  function FreshNode(p: Point): NodeRec
  {
    NodeRec(p, [], 1, 0, None)
  }

  /** Arena shape: every child index names a later node of the arena. This makes
      every node the root of a finite tree (or, after sharing, a finite DAG). */
  ghost predicate Wf(n: seq<NodeRec>)
  {
    forall i, k :: 0 <= i < |n| && 0 <= k < |n[i].children| ==> i < n[i].children[k] < |n|
  }

  /** Same tiles, same child lists, same parents: only cached values may differ. */
  ghost predicate SameShape(a: seq<NodeRec>, b: seq<NodeRec>)
  {
    |a| == |b| &&
    forall j :: 0 <= j < |a| ==>
      a[j].coords == b[j].coords && a[j].children == b[j].children && a[j].parent == b[j].parent
  }

  /** `j` is `i` itself or one of its descendants. */
  ghost predicate InSubtree(n: seq<NodeRec>, i: nat, j: nat)
    requires Wf(n) && i < |n|
    decreases |n| - i
  {
    i == j || exists k :: 0 <= k < |n[i].children| && InSubtree(n, n[i].children[k], j)
  }

  /** Subtrees depend only on the child lists. */
  lemma {:induction false} SubtreeShape(a: seq<NodeRec>, b: seq<NodeRec>, i: nat, j: nat)
    requires Wf(a) && Wf(b) && SameShape(a, b) && i < |a|
    ensures InSubtree(a, i, j) <==> InSubtree(b, i, j)
    decreases |a| - i
  {
    forall k | 0 <= k < |a[i].children| ensures InSubtree(a, a[i].children[k], j) <==> InSubtree(b, b[i].children[k], j) {
      SubtreeShape(a, b, a[i].children[k], j);
    }
  }

  /** A child of a node in the subtree of `a` is in that subtree too. */
  lemma {:induction false} SubtreeExtend(n: seq<NodeRec>, a: nat, p: nat, k: nat)
    requires Wf(n) && a < |n| && p < |n| && k < |n[p].children| && InSubtree(n, a, p)
    ensures InSubtree(n, a, n[p].children[k])
    decreases |n| - a
  {
    var j := n[p].children[k];
    if a == p {
      assert InSubtree(n, j, j);
    } else {
      var m :| 0 <= m < |n[a].children| && InSubtree(n, n[a].children[m], p);
      SubtreeExtend(n, n[a].children[m], p, k);
    }
  }

  // ---------------------------------------------------------------------
  // The tail-length recurrence of getMaxTailLength (MakeRivers.cs:37-57),
  // as written: a leaf has length 1, an internal node takes the largest
  // value among its children WITHOUT adding one for itself (line 52).
  // ---------------------------------------------------------------------

  function Tail(n: seq<NodeRec>, i: nat): int
    requires Wf(n) && i < |n|
    decreases |n| - i, 1, 0
  {
    if |n[i].children| == 0 then 1 else BestTail(n, i, |n[i].children|)
  }

  /** The running maximum after examining children 0..k-1 (the loop at line 45). */
  function BestTail(n: seq<NodeRec>, i: nat, k: nat): int
    requires Wf(n) && i < |n| && 1 <= k <= |n[i].children|
    decreases |n| - i, 0, k
  {
    if k == 1 then Tail(n, n[i].children[0])
    else
      var best := BestTail(n, i, k - 1);
      var t := Tail(n, n[i].children[k - 1]);
      if t > best then t else best
  }

  /** The running index after examining children 0..k-1: it moves only on a
      strictly larger value (line 46). */
  function BestIndex(n: seq<NodeRec>, i: nat, k: nat): nat
    requires Wf(n) && i < |n| && 1 <= k <= |n[i].children|
    decreases |n| - i, 0, k
  {
    if k == 1 then 0
    else if Tail(n, n[i].children[k - 1]) > BestTail(n, i, k - 1) then k - 1
    else BestIndex(n, i, k - 1)
  }

  /** The dominant child of an internal node. */
  function Dom(n: seq<NodeRec>, i: nat): nat
    requires Wf(n) && i < |n| && |n[i].children| > 0
  {
    BestIndex(n, i, |n[i].children|)
  }

  /** Node `j` with the values getMaxTailLength writes into it; a leaf keeps its
      `maxLengthIndex`, since line 40 assigns only `maxTailLength`. */
  function Canon(n: seq<NodeRec>, j: nat): NodeRec
    requires Wf(n) && j < |n|
  {
    if |n[j].children| == 0 then n[j].(maxTailLength := 1)
    else n[j].(maxTailLength := Tail(n, j), maxLengthIndex := Dom(n, j))
  }

  /** Every node of the subtree at `i` holds the values the recurrence gives it. */
  ghost predicate AnnotatedAt(n: seq<NodeRec>, i: nat)
    requires Wf(n) && i < |n|
    decreases |n| - i
  {
    n[i].maxTailLength == Tail(n, i) &&
    (|n[i].children| > 0 ==> n[i].maxLengthIndex == Dom(n, i)) &&
    forall k :: 0 <= k < |n[i].children| ==> AnnotatedAt(n, n[i].children[k])
  }

  /** Every node of the subtree at `i` has tail length 1, and every internal one
      has dominant index 0. */
  ghost predicate Collapsed(n: seq<NodeRec>, i: nat)
    requires Wf(n) && i < |n|
    decreases |n| - i
  {
    n[i].maxTailLength == 1 &&
    (|n[i].children| > 0 ==> n[i].maxLengthIndex == 0) &&
    forall k :: 0 <= k < |n[i].children| ==> Collapsed(n, n[i].children[k])
  }

  // ---------------------------------------------------------------------
  // Lemmas about the recurrence
  // ---------------------------------------------------------------------

  /** The running maximum and index of the first k children. */
  lemma {:induction false} BestFacts(n: seq<NodeRec>, i: nat, k: nat)
    requires Wf(n) && i < |n| && 1 <= k <= |n[i].children|
    ensures BestIndex(n, i, k) < k
    ensures BestTail(n, i, k) == Tail(n, n[i].children[BestIndex(n, i, k)])
    ensures forall m :: 0 <= m < k ==> Tail(n, n[i].children[m]) <= BestTail(n, i, k)
    ensures forall m :: 0 <= m < BestIndex(n, i, k) ==> Tail(n, n[i].children[m]) < BestTail(n, i, k)
    decreases k
  {
    if k > 1 {
      BestFacts(n, i, k - 1);
    }
  }

  /** An internal node's tail length is the maximum of its children's, and its
      dominant index is the smallest in-range index that reaches it. */
  lemma DomIsFirstArgmax(n: seq<NodeRec>, i: nat)
    requires Wf(n) && i < |n| && |n[i].children| > 0
    ensures Dom(n, i) < |n[i].children|
    ensures Tail(n, i) == Tail(n, n[i].children[Dom(n, i)])
    ensures forall m :: 0 <= m < |n[i].children| ==> Tail(n, n[i].children[m]) <= Tail(n, i)
    ensures forall m :: 0 <= m < Dom(n, i) ==> Tail(n, n[i].children[m]) < Tail(n, i)
  {
    BestFacts(n, i, |n[i].children|);
  }

  /** Because line 52 adds nothing to the children's maximum, every tail length
      is 1 and every dominant index is 0, whatever the shape of the tree. */
  lemma {:induction false} TailCollapses(n: seq<NodeRec>, i: nat)
    requires Wf(n) && i < |n|
    ensures Tail(n, i) == 1
    ensures |n[i].children| > 0 ==> Dom(n, i) == 0
    decreases |n| - i
  {
    var ch := n[i].children;
    if |ch| > 0 {
      forall m | 0 <= m < |ch| ensures Tail(n, ch[m]) == 1 {
        TailCollapses(n, ch[m]);
      }
      BestOfOnes(n, i, |ch|);
    }
  }

  lemma {:induction false} BestOfOnes(n: seq<NodeRec>, i: nat, k: nat)
    requires Wf(n) && i < |n| && 1 <= k <= |n[i].children|
    requires forall m :: 0 <= m < |n[i].children| ==> Tail(n, n[i].children[m]) == 1
    ensures BestTail(n, i, k) == 1 && BestIndex(n, i, k) == 0
    decreases k
  {
    if k > 1 {
      BestOfOnes(n, i, k - 1);
    }
  }

  /** A tree annotated by the literal recurrence is collapsed: every node ends
      with tail length 1 and every internal node with dominant index 0 ... */
  lemma {:induction false} AnnotatedIsCollapsed(n: seq<NodeRec>, i: nat)
    requires Wf(n) && i < |n| && AnnotatedAt(n, i)
    ensures Collapsed(n, i)
    decreases |n| - i
  {
    TailCollapses(n, i);
    forall k | 0 <= k < |n[i].children| ensures Collapsed(n, n[i].children[k]) {
      AnnotatedIsCollapsed(n, n[i].children[k]);
    }
  }

  /** ... and conversely a collapsed tree (for instance one made only of fresh
      nodes) is already annotated, so annotating it changes nothing. */
  lemma {:induction false} CollapsedIsAnnotated(n: seq<NodeRec>, i: nat)
    requires Wf(n) && i < |n| && Collapsed(n, i)
    ensures AnnotatedAt(n, i)
    decreases |n| - i
  {
    TailCollapses(n, i);
    forall k | 0 <= k < |n[i].children| ensures AnnotatedAt(n, n[i].children[k]) {
      CollapsedIsAnnotated(n, n[i].children[k]);
    }
  }

  /** The recurrence reads only the shape of the arena, never the cached values. */
  lemma {:induction false} ShapeDeterminesTail(a: seq<NodeRec>, b: seq<NodeRec>, i: nat)
    requires Wf(a) && SameShape(a, b) && i < |a|
    ensures Wf(b)
    ensures Tail(a, i) == Tail(b, i)
    ensures |a[i].children| > 0 ==> Dom(a, i) == Dom(b, i)
    decreases |a| - i
  {
    assert Wf(b) by {
      forall j, k | 0 <= j < |b| && 0 <= k < |b[j].children|
        ensures j < b[j].children[k] < |b|
      {
        assert b[j].children == a[j].children;
      }
    }
    var ch := a[i].children;
    assert b[i].children == ch;
    if |ch| > 0 {
      forall m | 0 <= m < |ch| ensures Tail(a, ch[m]) == Tail(b, ch[m]) {
        ShapeDeterminesTail(a, b, ch[m]);
      }
      BestShape(a, b, i, |ch|);
    }
  }

  lemma {:induction false} BestShape(a: seq<NodeRec>, b: seq<NodeRec>, i: nat, k: nat)
    requires Wf(a) && Wf(b) && SameShape(a, b) && i < |a| && 1 <= k <= |a[i].children|
    requires a[i].children == b[i].children
    requires forall m :: 0 <= m < |a[i].children| ==> Tail(a, a[i].children[m]) == Tail(b, a[i].children[m])
    ensures BestTail(a, i, k) == BestTail(b, i, k) && BestIndex(a, i, k) == BestIndex(b, i, k)
    decreases k
  {
    if k > 1 {
      BestShape(a, b, i, k - 1);
    }
  }

  /** Canon depends on the shape and, for a leaf, on the kept index; so it is
      the same for an arena and for any update of it that is unchanged-or-canon. */
  lemma CanonStable(a: seq<NodeRec>, b: seq<NodeRec>, j: nat)
    requires Wf(a) && SameShape(a, b) && j < |a|
    requires b[j] == a[j] || b[j] == Canon(a, j)
    ensures Wf(b) && Canon(b, j) == Canon(a, j)
  {
    ShapeDeterminesTail(a, b, j);
  }

  /** An annotated subtree survives any update that only replaces nodes by their
      canonical values. */
  lemma {:induction false} AnnotatedStable(a: seq<NodeRec>, b: seq<NodeRec>, d: nat)
    requires Wf(a) && SameShape(a, b) && d < |a| && AnnotatedAt(a, d)
    requires forall j :: 0 <= j < |a| ==> b[j] == a[j] || b[j] == Canon(a, j)
    ensures Wf(b) && AnnotatedAt(b, d)
    decreases |a| - d
  {
    ShapeDeterminesTail(a, b, d);
    assert b[d] == a[d];
    forall k | 0 <= k < |b[d].children| ensures AnnotatedAt(b, b[d].children[k]) {
      AnnotatedStable(a, b, a[d].children[k]);
    }
  }

  /** The arena of Node objects. Methods are the Node members that change state. */
  class Arena {
    var nodes: seq<NodeRec>

    constructor ()
      ensures nodes == []
    {
      nodes := [];
    }

    /** `numChildren()`. */
    function NumChildren(i: nat): nat
      reads this
      requires i < |nodes|
    {
      |nodes[i].children|
    }

    /** `new Node(p)`: appends a fresh node and returns its index. */
    method NewNode(p: Point) returns (i: nat)
      modifies this
      ensures i == |old(nodes)| && nodes == old(nodes) + [FreshNode(p)]
    {
      i := |nodes|;
      nodes := nodes + [FreshNode(p)];
    }

    /** `insertChild(child)` (lines 63-67): the child's parent becomes `p`, then
        the child is appended to `p`'s child list. */
    method InsertChild(p: nat, c: nat)
      requires p < |nodes| && c < |nodes|
      modifies this
      ensures |nodes| == |old(nodes)|
      ensures nodes[p].children == old(nodes[p].children) + [c]
      ensures nodes[c].parent == Some(p)
      ensures p != c ==> nodes[p].parent == old(nodes[p].parent)
      ensures forall j :: 0 <= j < |nodes| && j != p ==> nodes[j].children == old(nodes[j].children)
      ensures forall j :: 0 <= j < |nodes| && j != p && j != c ==> nodes[j] == old(nodes[j])
      ensures forall j :: 0 <= j < |nodes| ==>
        nodes[j].coords == old(nodes[j].coords) &&
        nodes[j].maxTailLength == old(nodes[j].maxTailLength) &&
        nodes[j].maxLengthIndex == old(nodes[j].maxLengthIndex)
    {
      nodes := nodes[c := nodes[c].(parent := Some(p))];
      nodes := nodes[p := nodes[p].(children := nodes[p].children + [c])];
    }

    /** `getMaxTailLength()` (lines 37-57): updates the whole subtree at `i` to the
        recurrence's values, returns the node's tail length, and touches nothing
        but cached values, each only to its canonical value. On a subtree that is
        already annotated it changes nothing. */
    method GetMaxTailLength(i: nat) returns (len: int)
      requires Wf(nodes) && i < |nodes|
      modifies this
      ensures CanonUpdate(old(nodes), nodes) && Wf(nodes)
      ensures AnnotatedAt(nodes, i)
      ensures len == nodes[i].maxTailLength == Tail(nodes, i)
      ensures old(AnnotatedAt(nodes, i)) ==> nodes == old(nodes)
      ensures KeptOutside(old(nodes), nodes, i)
      decreases |nodes| - i
    {
      ghost var n0 := nodes;
      var ch := nodes[i].children;
      if |ch| == 0 {
        nodes := nodes[i := nodes[i].(maxTailLength := 1)];
        LeafStep(n0, nodes, i);
        KeptAtRoot(n0, n0, nodes, i);
      } else {
        var maxlength := GetMaxTailLength(ch[0]);
        var index := 0;
        FirstStep(n0, nodes, i, maxlength);
        OutsideChild(n0, n0, nodes, i, 0);
        for k := 1 to |ch|
          invariant LoopInv(n0, nodes, i, k, maxlength, index)
          invariant KeptOutside(n0, nodes, i)
        {
          ghost var before := nodes;
          BeforeCall(n0, nodes, i, k, maxlength, index);
          var t := GetMaxTailLength(ch[k]);
          OutsideChild(n0, before, nodes, i, k);
          LoopStep(n0, before, nodes, i, k, maxlength, index, t);
          if t > maxlength {
            maxlength := nodes[ch[k]].maxTailLength;
            index := k;
          }
        }
        ghost var before := nodes;
        nodes := nodes[i := nodes[i].(maxTailLength := maxlength, maxLengthIndex := index)];
        FinalStep(n0, before, nodes, i, maxlength, index);
        KeptAtRoot(n0, before, nodes, i);
      }
      len := nodes[i].maxTailLength;
    }
  }

  /** `b` differs from `a` only in nodes replaced by their canonical values. */
  ghost predicate CanonUpdate(a: seq<NodeRec>, b: seq<NodeRec>)
    requires Wf(a)
  {
    SameShape(a, b) &&
    forall j :: 0 <= j < |a| ==> b[j] == a[j] || b[j] == Canon(a, j)
  }

  lemma CanonUpdateTrans(a: seq<NodeRec>, b: seq<NodeRec>, c: seq<NodeRec>)
    requires Wf(a) && Wf(b) && CanonUpdate(a, b) && CanonUpdate(b, c)
    ensures CanonUpdate(a, c)
  {
    forall j | 0 <= j < |a| ensures c[j] == a[j] || c[j] == Canon(a, j) {
      CanonStable(a, b, j);
    }
  }

  /** `b` agrees with `a` on every node outside the subtree of `i`. */
  ghost predicate KeptOutside(a: seq<NodeRec>, b: seq<NodeRec>, i: nat)
    requires Wf(a) && i < |a|
  {
    |b| == |a| && forall j :: 0 <= j < |a| && !InSubtree(a, i, j) ==> b[j] == a[j]
  }

  /** A call on child `k` of `i` leaves every node outside the subtree of `i` alone. */
  lemma OutsideChild(n0: seq<NodeRec>, before: seq<NodeRec>, after: seq<NodeRec>, i: nat, k: nat)
    requires Wf(n0) && Wf(before) && SameShape(n0, before) && i < |n0| && k < |n0[i].children|
    requires KeptOutside(n0, before, i) && KeptOutside(before, after, before[i].children[k])
    ensures KeptOutside(n0, after, i)
  {
    var c := n0[i].children[k];
    forall j | 0 <= j < |n0| && !InSubtree(n0, i, j) ensures after[j] == n0[j] {
      SubtreeShape(n0, before, c, j);
    }
  }

  /** Rewriting node `i` itself keeps everything outside its subtree. */
  lemma KeptAtRoot(n0: seq<NodeRec>, before: seq<NodeRec>, after: seq<NodeRec>, i: nat)
    requires Wf(n0) && i < |n0| && KeptOutside(n0, before, i)
    requires |after| == |before| && forall j :: 0 <= j < |after| && j != i ==> after[j] == before[j]
    ensures KeptOutside(n0, after, i)
  {
  }

  /** The state of the loop at line 45 after children 0..k-1 have been visited. */
  ghost predicate LoopInv(n0: seq<NodeRec>, n: seq<NodeRec>, i: nat, k: nat, maxlength: int, index: int)
  {
    Wf(n0) && i < |n0| && 1 <= k <= |n0[i].children| &&
    CanonUpdate(n0, n) && Wf(n) &&
    n[i].children == n0[i].children &&
    (forall m :: 0 <= m < k ==> AnnotatedAt(n, n0[i].children[m])) &&
    maxlength == BestTail(n0, i, k) && index == BestIndex(n0, i, k) &&
    (AnnotatedAt(n0, i) ==> n == n0)
  }
  /** Setting a leaf's tail length to 1 (line 40) annotates it. */
  lemma LeafStep(a: seq<NodeRec>, b: seq<NodeRec>, i: nat)
    requires Wf(a) && i < |a| && |a[i].children| == 0
    requires b == a[i := a[i].(maxTailLength := 1)]
    ensures CanonUpdate(a, b) && Wf(b) && AnnotatedAt(b, i) && b[i].maxTailLength == Tail(b, i)
    ensures AnnotatedAt(a, i) ==> b == a
  {
    ShapeDeterminesTail(a, b, i);
  }

  /** After the first child has been annotated (line 43). */
  lemma FirstStep(n0: seq<NodeRec>, n: seq<NodeRec>, i: nat, t: int)
    requires Wf(n0) && i < |n0| && |n0[i].children| > 0
    requires CanonUpdate(n0, n) && Wf(n) && AnnotatedAt(n, n0[i].children[0])
    requires t == Tail(n, n0[i].children[0])
    requires AnnotatedAt(n0, n0[i].children[0]) ==> n == n0
    ensures LoopInv(n0, n, i, 1, t, 0)
  {
    ShapeDeterminesTail(n0, n, n0[i].children[0]);
  }

  /** What the recursive call at line 46 needs. */
  lemma BeforeCall(n0: seq<NodeRec>, n: seq<NodeRec>, i: nat, k: nat, maxlength: int, index: int)
    requires LoopInv(n0, n, i, k, maxlength, index) && k < |n0[i].children|
    ensures Wf(n) && |n| == |n0| && i < n0[i].children[k] < |n|
    ensures AnnotatedAt(n0, i) ==> AnnotatedAt(n, n0[i].children[k])
  {
  }

  /** One more child examined by the loop at lines 45-50. */
  lemma BestStep(n: seq<NodeRec>, i: nat, k: nat)
    requires Wf(n) && i < |n| && 1 <= k < |n[i].children|
    ensures BestTail(n, i, k + 1) ==
      (if Tail(n, n[i].children[k]) > BestTail(n, i, k) then Tail(n, n[i].children[k]) else BestTail(n, i, k))
    ensures BestIndex(n, i, k + 1) ==
      (if Tail(n, n[i].children[k]) > BestTail(n, i, k) then k else BestIndex(n, i, k))
  {
  }

  /** One iteration of the loop at lines 45-50. */
  lemma LoopStep(n0: seq<NodeRec>, before: seq<NodeRec>, after: seq<NodeRec>, i: nat, k: nat,
                 maxlength: int, index: int, t: int)
    requires LoopInv(n0, before, i, k, maxlength, index) && k < |n0[i].children|
    requires Wf(before) && CanonUpdate(before, after) && Wf(after)
    requires AnnotatedAt(after, n0[i].children[k])
    requires t == after[n0[i].children[k]].maxTailLength == Tail(after, n0[i].children[k])
    requires AnnotatedAt(before, n0[i].children[k]) ==> after == before
    ensures after[n0[i].children[k]].maxTailLength == t
    ensures LoopInv(n0, after, i, k + 1, if t > maxlength then t else maxlength,
                    if t > maxlength then k else index)
  {
    var ch := n0[i].children;
    CanonUpdateTrans(n0, before, after);
    forall m | 0 <= m < k + 1 ensures AnnotatedAt(after, ch[m]) {
      if m < k {
        AnnotatedStable(before, after, ch[m]);
      }
    }
    assert after[i].children == ch;
    ShapeDeterminesTail(n0, after, ch[k]);
    BestStep(n0, i, k);
    if AnnotatedAt(n0, i) {
      assert AnnotatedAt(before, ch[k]);
    }
  }

  /** The final writes at lines 52-53. */
  lemma FinalStep(n0: seq<NodeRec>, before: seq<NodeRec>, n: seq<NodeRec>, i: nat, maxlength: int, index: int)
    requires i < |n0| && LoopInv(n0, before, i, |n0[i].children|, maxlength, index)
    requires n == before[i := before[i].(maxTailLength := maxlength, maxLengthIndex := index)]
    ensures CanonUpdate(n0, n) && Wf(n) && AnnotatedAt(n, i) && n[i].maxTailLength == Tail(n, i)
    ensures AnnotatedAt(n0, i) ==> n == n0
  {
    var ch := n0[i].children;
    ShapeDeterminesTail(n0, before, i);
    CanonStable(n0, before, i);
    assert n[i] == Canon(before, i);
    assert CanonUpdate(before, n);
    CanonUpdateTrans(n0, before, n);
    forall m | 0 <= m < |ch| ensures AnnotatedAt(n, ch[m]) {
      AnnotatedStable(before, n, ch[m]);
    }
    ShapeDeterminesTail(n0, n, i);
    if AnnotatedAt(n0, i) {
      assert Canon(n0, i) == n0[i];
    }
  }
}
