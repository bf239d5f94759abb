# BezierRivers river trees in Dafny

A model of the core of `MakeRivers.cs`, which turns a grid of classified
terrain codes into a forest of river trees and then cuts every tree into
polylines for curve drawing. The model covers:

- the `Node` class (lines 12-69): `new Node(p)`, `numChildren`, `insertChild` and
  the recursive `getMaxTailLength`, which caches a tail length and a dominant
  child index on every node of a subtree;
- the `RiverTypes` set (lines 110-118);
- `process` (lines 169-271): the row-major scan for ocean and lake tiles, the
  coastal land list, the river seeds next to coastal land, the flood fill that
  grows one tree from every seed not yet done, and the final annotation pass;
- the polyline extraction of `render` (lines 279-312): a work list seeded with
  the roots. Each item becomes one polyline that follows the dominant children
  down to a leaf, and every other child is queued as a new branch item at the
  fork's tile.

Modules:

- `Geometry`: points, the four offsets, terrain codes and the grid.
- `RiverTree`: the node arena class and the tail-length recurrence.
- `Scan`: the three scans before growth.
- `Growth`: the invariants of the tree growth and the lemmas that keep them.
- `Builder`: the methods of `process`.
- `Extractor`: the polyline extraction.
- `Pipeline`: `Main` handing the result of `process` to `render`.

Nodes live in an arena: `RiverTree.Arena` is a class whose one field
`nodes: seq<NodeRec>` its methods reassign. A node reference is an index, and a
child list is a sequence of indices; every child index is larger than its
parent's. `numChildren` is the reads-only function `Arena.NumChildren`.

The tail-length recurrence is reproduced as written: line 52 stores the
largest child value with no `+1`. So every cached length is 1 and every
dominant index is 0 (`RiverTree.TailCollapses`). In `render` the "main stem"
is therefore always the first child. All the extraction lemmas hold for any
annotated arena, whatever the recurrence gives.

Where the code reads the grid without a bounds check (lines 210, 243, 252), the
model returns a failure carrying the out-of-range tile instead of requiring
the input to avoid it.

This revision of `MakeRivers.cs` has no lake or inland pass and no smoothing
of coordinates: the seed itself is the root of its tree (line 228), lake tiles
are only listed, no node coordinate is moved, and the recurrence has no `+1`.

## Model

| member | source | states |
|---|---|---|
| Geometry.NeighborIffAdjacent | MakeRivers.cs:178 | stepping by one of the four offsets (top, down, left, right) reaches exactly the 4-adjacent tiles |
| Geometry.RiverClass | MakeRivers.cs:97-118 | a code is river class iff it is 0-4 or 9; lake, ocean, land and mountain are not |
| RiverTree.Arena.NewNode | MakeRivers.cs:19-24 | `new Node(p)` adds a node with no children, tail length 1, index 0 and no parent, and leaves every other node as it was |
| RiverTree.Arena.InsertChild | MakeRivers.cs:63-67 | the child is appended last to the parent's list, earlier children keep their order, the child's parent becomes the parent, and no other child list, tile or cached value changes |
| RiverTree.Arena.GetMaxTailLength | MakeRivers.cs:37-57 | afterwards every node of the subtree holds the recurrence's values, the result is the node's tail length, only cached values change (each to its recurrence value), on an already annotated subtree nothing changes, and every node outside the subtree keeps its value |
| RiverTree.BestFacts | MakeRivers.cs:43-50 | after k children the loop holds the first index of a maximal child value, and that value bounds every child seen |
| RiverTree.DomIsFirstArgmax | MakeRivers.cs:39-53 | a node's tail length is the maximum of its children's, and its dominant index is the smallest in-range index reaching it (strict `>` at line 46) |
| RiverTree.TailCollapses | MakeRivers.cs:39-53 | with no `+1` at line 52, every tail length is 1 and every dominant index is 0 |
| RiverTree.AnnotatedIsCollapsed | MakeRivers.cs:37-57 | a subtree annotated by `getMaxTailLength` has tail length 1 everywhere and index 0 on every internal node |
| RiverTree.CollapsedIsAnnotated | MakeRivers.cs:37-57 | conversely, a subtree of tail length 1 and index 0 is already annotated |
| RiverTree.ShapeDeterminesTail | MakeRivers.cs:37-57 | the recurrence depends only on tiles and child lists, never on cached values |
| RiverTree.AnnotatedStable | MakeRivers.cs:37-57 | an annotated subtree stays annotated when other nodes are set to their recurrence values |
| RiverTree.SubtreeShape | MakeRivers.cs:37-57 | which nodes lie in a subtree depends only on the child lists |
| RiverTree.SubtreeExtend | MakeRivers.cs:60 | a child of a node in a subtree is in that subtree too |
| RiverTree.OutsideChild | MakeRivers.cs:43-46 | the recursive call on a child changes nothing outside the parent's subtree |
| RiverTree.LeafStep | MakeRivers.cs:39-40 | setting a leaf's length to 1 annotates it |
| RiverTree.LoopStep | MakeRivers.cs:45-50 | one pass of the child loop keeps its invariant: the children seen are annotated, `maxlength` and `index` are the running maximum and its first index, only cached values changed, and an annotated node is left as it was |
| RiverTree.FinalStep | MakeRivers.cs:52-53 | the final two writes annotate the node and change nothing on an annotated node |
| Scan.ClassifyWater | MakeRivers.cs:181-189 | `oceans` and `lakes` are the whole-grid scans for codes 8 and 6 |
| Scan.CellsWithSpec | MakeRivers.cs:181-189 | a scan holds exactly the in-range cells with the code, in strictly increasing row-major order |
| Scan.NoDuplicates | MakeRivers.cs:181-189 | no cell is listed twice |
| Scan.CoastalLand | MakeRivers.cs:191-202 | `possibleRiver` is the list of in-range land neighbours of the ocean tiles, ocean by ocean, offset by offset |
| Scan.LandNearSpec | MakeRivers.cs:191-202 | a tile is in that list iff it is in range, coded land (7, not mountain) and 4-adjacent to a listed ocean tile |
| Scan.ScanAround | MakeRivers.cs:206-215 | for one coastal land tile: fails iff a neighbour is off the grid, reporting it; otherwise adds exactly its river-class neighbours |
| Scan.FindSeeds | MakeRivers.cs:205-215 | fails iff some coastal land tile has a neighbour off the grid, reporting such an off-grid neighbour; otherwise `working` is the seed set |
| Scan.RiversAroundSpec | MakeRivers.cs:206-215 | the river tiles collected around one point are exactly its river-class 4-neighbours |
| Scan.SeedsOfSpec | MakeRivers.cs:205-215 | a tile is a seed iff it is river class and 4-adjacent to a listed land tile |
| Scan.SeedsSpec | MakeRivers.cs:181-215 | the seeds are exactly the river tiles next to a land tile next to an ocean tile, and the land list holds exactly the coastal land tiles |
| Growth.SkipDone | MakeRivers.cs:220-223 | dropping a seed that an earlier tree reached keeps the outer invariant |
| Growth.StartNodes | MakeRivers.cs:224-228 | a new root on an undone river tile keeps the node invariants: on rivers, distinct tiles, child links and order, parent links, fresh values |
| Growth.StartDone | MakeRivers.cs:224-228 | after marking the seed done, `done` still holds only grid tiles, holds every node's tile, and every river tile in it is a node's |
| Growth.StartFrontier | MakeRivers.cs:229-232 | the seed's four neighbours, claimed by the root, form a frontier covering every node's neighbours |
| Growth.StartTree | MakeRivers.cs:224-232 | seeding a tree establishes the growth invariant |
| Growth.PopDone | MakeRivers.cs:239-241 | popping a done tile keeps the growth invariant |
| Growth.PopNonRiver | MakeRivers.cs:242-244 | popping a non-river tile marks it done and keeps the invariant |
| Growth.AttachedWf | MakeRivers.cs:246-247 | the arena stays well formed: every child index is later than its parent's |
| Growth.AttachedLinks | MakeRivers.cs:246-247 | every child stays 4-adjacent to its parent and names it as parent |
| Growth.AttachedOrder | MakeRivers.cs:246-247 | child lists stay in creation order |
| Growth.AttachedParents | MakeRivers.cs:246-247 | every parent precedes its child and lists it |
| Growth.AttachedRivers | MakeRivers.cs:246-247 | every node stays on a river tile |
| Growth.AttachedDistinct | MakeRivers.cs:246-247 | no tile gets two nodes |
| Growth.AttachedFresh | MakeRivers.cs:246-247 | every node keeps the values of `new Node` |
| Growth.AttachedNodeFacts | MakeRivers.cs:246-247 | a new child on an unclaimed river tile next to its claimant keeps all node invariants and adds its tile to the forest's tiles |
| Growth.PopRiverNodes | MakeRivers.cs:246-247 | after a river tile becomes a child, the node, `done` and root invariants hold |
| Growth.FrontierGrow | MakeRivers.cs:249-254 | after the new node claims its river neighbours, every node's neighbour is in the grid or waiting, and every river neighbour is done or waiting |
| Growth.ClaimsGrow | MakeRivers.cs:249-254 | every frontier entry names an existing node adjacent to its tile: a kept claim still does, and a new claim names the new node next to it |
| Growth.PushedFacts | MakeRivers.cs:249-254 | after the new node claims its river neighbours, every older entry is still waiting, every river neighbour is waiting, and each entry keeps its old claimant or names the new node next to it |
| Growth.PopRiverFrontier | MakeRivers.cs:249-254 | the frontier and its claims are kept |
| Growth.PopRiver | MakeRivers.cs:246-254 | popping a river tile keeps the growth invariant |
| Growth.StepKeeps | MakeRivers.cs:234-255 | every pass of the growth loop keeps the growth invariant |
| Growth.StepProgress | MakeRivers.cs:234-255 | every pass only grows `done`, keeps the root, and shrinks the undone grid cells or, failing that, the frontier |
| Growth.SafeFrontier | MakeRivers.cs:234-254 | while the current tree lies in a region of interior river tiles closed under river adjacency, every waiting tile is in the grid and every waiting river tile is in the region |
| Growth.SafeStep | MakeRivers.cs:234-255 | a pass of the growth loop keeps the current tree inside such a region |
| Growth.ClaimsFromRoot | MakeRivers.cs:249-254 | every claim in the frontier stays with a node of the current tree |
| Growth.RootOf | MakeRivers.cs:65 | the root of a node, found by following the parent links, is a parentless node at or below it |
| Growth.ParentsStep | MakeRivers.cs:246-247 | a pass of the growth loop attaches new nodes only to nodes of the current tree |
| Growth.CurrentTreeStep | MakeRivers.cs:234-255 | a pass of the growth loop keeps every claim and every parent in the current tree, and keeps the tree inside a safe region holding its seed |
| Growth.TreeRoots | MakeRivers.cs:224-258 | every node made while one tree grows has that tree's root as its root |
| Growth.TreeRootAt | MakeRivers.cs:224-258 | a node made while one tree grows has that tree's root as its root |
| Growth.RootOfPrefix | MakeRivers.cs:218-259 | growing a new tree does not change the root of any earlier node |
| Growth.OldNeighborIsOld | MakeRivers.cs:234-257 | a node next to a node of an earlier tree is itself an earlier node, since the earlier trees already hold every river tile next to them |
| Growth.SeparateTrees | MakeRivers.cs:218-259 | after a new tree is grown, any two 4-adjacent nodes still have the same root |
| Growth.SubtreeRoot | MakeRivers.cs:60-66 | every node in the subtree of a node has that node's root |
| Growth.FinishTree | MakeRivers.cs:258 | closing a tree with an empty frontier re-establishes the outer invariant with the root appended |
| Builder.ClaimNeighbors | MakeRivers.cs:249-254 | fails iff a neighbour of the tile is off the grid; otherwise exactly the river neighbours are added or overwritten, each claimed by the new node, and every other entry is unchanged |
| Builder.GrowStep | MakeRivers.cs:234-255 | one pass: the popped tile is dropped if done, made done if not river class, otherwise attached under its claimant with its river neighbours claimed; `done` only grows; it fails exactly when the tile is undone and off the grid, or a river tile on the border; no earlier node but the claimant changes |
| Builder.GrowTree | MakeRivers.cs:224-258 | growing one tree from an undone seed keeps the outer invariant with the new root appended, or fails on a tile off the grid; the nodes of earlier trees are unchanged, every new node has the new root as its root, and it cannot fail when the seed lies in a region of interior river tiles closed under river adjacency |
| Builder.GrowForest | MakeRivers.cs:218-259 | after every seed is taken, the forest invariant holds with `working` empty and any two 4-adjacent nodes share a root, or the run failed on a tile off the grid; it cannot fail when such a region holds every seed |
| Builder.Process | MakeRivers.cs:169-271 | on success returns the ocean and lake scans and a forest with nodes on distinct river tiles, children 4-adjacent to parents, every root a seed, every seed in a tree, closed under river adjacency, no two 4-adjacent nodes in different trees, and annotated; the forest's tiles are exactly the river tiles reachable from a seed; it succeeds iff no coastal land tile and no river tile reachable from a seed lies on the border, and a failure names a tile off the grid |
| Builder.BuildForest | MakeRivers.cs:218-264 | from the seeds on an empty arena: fails iff a river tile reachable from a seed lies on the border, a failure names a tile off the grid, and otherwise the result is an annotated forest as in `Process` whose tiles are exactly the river tiles reachable from a seed |
| Builder.EmptyForest | MakeRivers.cs:218 | before the first seed is taken, the outer invariant holds with no node, nothing done and every seed waiting |
| Builder.AnnotateTrees | MakeRivers.cs:263-264 | running `getMaxTailLength` on every root of a freshly built forest leaves the nodes unchanged and annotates every tree |
| Builder.CoastIsInterior | MakeRivers.cs:191-215 | the coastal land list is read without leaving the grid iff no coastal land tile lies on the border |
| Builder.ForestHoldsReach | MakeRivers.cs:218-259 | in a finished forest no tile reachable from a seed lies on the border |
| Builder.CoordsClosed | MakeRivers.cs:234-255 | once the frontier is empty, no node lies on the border and every river neighbour of a node is a node |
| Builder.AllFreshCollapsed | MakeRivers.cs:19-24 | a tree of fresh nodes has tail length 1 and index 0 throughout |
| Builder.FreshTreeIsAnnotated | MakeRivers.cs:262-264 | a tree built by `process` is already annotated, so the annotation pass changes nothing |
| Builder.SeedIsRiver | MakeRivers.cs:205-215 | every seed is a river tile |
| Builder.ReachStep | MakeRivers.cs:249-254 | a river tile next to a tile reachable from a seed is itself reachable |
| Builder.ReachIsSafe | MakeRivers.cs:218-259 | when no reachable tile lies on the border, the reachable tiles are interior river tiles closed under river adjacency and hold every seed |
| Builder.ConnectedTilesAreInForest | MakeRivers.cs:218-259 | a river tile joined to a forest tile by a 4-connected river path is itself in the forest |
| Builder.NodeReach | MakeRivers.cs:224-254 | the tile of every node is reachable from a seed by a 4-connected river walk |
| Builder.ForestIsReach | MakeRivers.cs:218-259 | the tiles of the forest are exactly the river tiles reachable from a seed |
| Builder.TreesDisjoint | MakeRivers.cs:218-259 | no node lies in the trees of two different roots |
| Builder.AdjacentSameTree | MakeRivers.cs:234-257 | two 4-adjacent nodes lie in the tree of the same root, so a river network is never split between roots |
| Extractor.RootItems | MakeRivers.cs:279-282 | the work list starts with one item per root, in order, each being that root |
| Extractor.Branch | MakeRivers.cs:301-303 | a branch item is a parentless node on the fork's tile with the one child; getMaxTailLength gives it index 0 and, on an annotated arena, the child's tail length under the recurrence |
| Extractor.SiblingsLength | MakeRivers.cs:297-306 | the loop queues one item for each child but the dominant one |
| Extractor.SiblingsShape | MakeRivers.cs:297-306 | every queued branch item sits on the fork's tile and has exactly one child |
| Extractor.SiblingsCover | MakeRivers.cs:297-306 | every non-dominant child has its branch item queued |
| Extractor.SiblingsItems | MakeRivers.cs:297-306 | the branch items queued at a fork will in turn queue what their children's subtrees do |
| Extractor.SiblingBranchesSum | MakeRivers.cs:297-306 | adding the dominant child back gives the count over all children |
| Extractor.NodeSpawnAccount | MakeRivers.cs:293-309 | walking down from a node queues items that, with what they queue, number exactly one per non-dominant child in its subtree |
| Extractor.SpawnAccount | MakeRivers.cs:288-311 | the same for one work item |
| Extractor.PopFront | MakeRivers.cs:286-312 | taking the first item emits its polyline first, then the polylines of the rest of the list with its branch items appended, and the termination measure drops by one |
| Extractor.PolylineCount | MakeRivers.cs:286-312 | the number of polylines is the number of items plus the number of non-dominant children below them |
| Extractor.QueuedFirst | MakeRivers.cs:286-291 | the k-th polyline belongs to the k-th queued item, in queue order |
| Extractor.ChainIsPath | MakeRivers.cs:293-309 | the dominant chain below a node steps from tile to 4-adjacent tile |
| Extractor.ItemChainIsPath | MakeRivers.cs:288-309 | one item's polyline steps from tile to 4-adjacent tile |
| Extractor.SpawnedAdjacent | MakeRivers.cs:297-306 | every queued branch item is 4-adjacent to its child |
| Extractor.PolylinesArePaths | MakeRivers.cs:286-312 | on trees whose children sit next to their parents, every polyline is non-empty and each point is 4-adjacent to the next |
| Extractor.ChainWithin | MakeRivers.cs:293-309 | the points of a dominant chain are arena tiles |
| Extractor.ItemWithin | MakeRivers.cs:288-311 | one item's points and its branch items' tiles lie in any set holding the arena's tiles |
| Extractor.PolylinesWithin | MakeRivers.cs:286-312 | every point of every polyline is an arena or queued tile |
| Extractor.NodeCover | MakeRivers.cs:293-309 | a node below arena node `d` is on the dominant chain from `d` or below a branch item the walk from `d` queues |
| Extractor.ItemCover | MakeRivers.cs:288-309 | a node covered by a work item is on its polyline or covered by a branch item it queues |
| Extractor.CoverStep | MakeRivers.cs:286-311 | when the front item is taken, a node covered by a queued item is on the front polyline or covered by an item still queued |
| Extractor.PolylinesShift | MakeRivers.cs:286-312 | polyline `k + 1` of a list is polyline `k` of the list left after the front item |
| Extractor.PolylinesCover | MakeRivers.cs:286-312 | every node covered by a queued item, its tile or any node below its children, is a point of some polyline |
| Extractor.AnnotatedIndexOk | MakeRivers.cs:295 | in an annotated arena every dominant index is in range |
| Extractor.Descend | MakeRivers.cs:307-308 | stepping to the dominant child extends the polyline by its tile and splits what remains to queue |
| Extractor.QueueBranches | MakeRivers.cs:297-306 | appends exactly the branch items of the non-dominant children, in child order, and leaves the nodes unchanged |
| Extractor.TraceItem | MakeRivers.cs:288-311 | the polyline of one item is its tile followed by the dominant chain, and the work list gains exactly its branch items |
| Extractor.RenderStep | MakeRivers.cs:286-312 | one pass of the outer loop appends the first item's polyline and leaves the rest to the shortened work list |
| Extractor.QueueRoots | MakeRivers.cs:279-282 | the work list is the copy of the roots |
| Extractor.Render | MakeRivers.cs:279-312 | the polylines are those of the work-list specification from the roots, and the nodes are unchanged |
| Pipeline.ForestIsRenderable | MakeRivers.cs:140-144 | the forest `process` returns is annotated, so `render` may run on it |
| Pipeline.RootAbove | MakeRivers.cs:62-65 | following parent links upward from any node reaches a root whose tree contains it |
| Pipeline.CoverNode | MakeRivers.cs:279-312 | the tile of any node of the forest is a point of some polyline extracted from the roots |
| Pipeline.ForestCoverage | MakeRivers.cs:140-144 | every tile of the forest `process` returns is a point of some polyline `render` extracts |
| Pipeline.CoverAll | MakeRivers.cs:140-144 | for any arena whose parentless nodes are all roots, every node tile is a point of some polyline extracted from those roots |
| Pipeline.ForestPolylines | MakeRivers.cs:140-144 | the polylines of the forest number one per root plus one per non-dominant child, and each is a non-empty 4-connected path over river tiles |

## Left out

- `Main` (MakeRivers.cs:122-157): bitmap loading, the colour tables, timing and console output. The model takes an already classified grid.
- The drawing half of `render` (MakeRivers.cs:314-356): bitmaps, pens, scaling, random jitter and floating-point curve tension.
- The parameterless `Node()` constructor (MakeRivers.cs:14-17): nothing in the core calls it.
- Extractor.Render: line 302 re-points each non-dominant child's `parent` to the new branch node. The model keeps the arena unchanged and holds branch nodes only in the work list; `parent` is never read.
- Extractor.Render: requires every node to be annotated, which is what `process` returns (Pipeline.ForestIsRenderable). Under that condition the `getMaxTailLength` call at line 303 changes nothing. Render on an arbitrary arena is not modelled.
- Extractor.Branch: takes the child's cached tail length rather than recomputing it, so its tail length is stated only for an annotated arena, where the two agree.
- `HashSet.First()` and `Dictionary.Keys.First()` (lines 220, 236) are arbitrary choices. Nothing is proved about which tree shape results, only invariants.
- `numChildren` (lines 26-29) is the accessor `RiverTree.Arena.NumChildren`, which has no contract of its own.
- Object identity: a node is an arena index, so the reference equality in `rendernodes.Remove(current)` (line 290) is modelled as taking the first item.
- 32-bit integers: tile coordinates stay within one step of the grid, tail lengths are 1 and indices are below child counts, so no modelled value comes near the C# `int` range.
