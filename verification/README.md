# AStarGG in Dafny

This project models the path-finding core of AStarGG, a C# A* library for Unity and .NET. It covers:

- the array-backed binary `MinHeap<T>` with its dirty bit and lazy re-sort;
- the parent-map `PathTree<T>` and its `PathTo` walk back to the root;
- the heap-driven `Algorithm<T, Cookie>`. Its `PathToPoint`, `PathsFromPoint` and cutoff come from the root `Algorithm.cs`; its `Calculate` comes from the Unity copy in `Assets/Scripts/Algorithm.cs`;
- the older linear-scan search of `Assets/Scripts/AStar.cs`, which keeps a dictionary of open nodes and an edge-set `TreeWeighted`;
- the square-tile worlds the tests are written against: `TileSquared` with its Manhattan estimate, `MapSquare2D` and `Map2dWithObjects`;
- the heap and map tests, restated as methods whose postconditions are the test assertions.

## Modules

- `Wrappers` (`wrappers.dfy`): `Option`, used for every null result.
- `MinHeap` (`min_heap.dfy`): the heap as a value.
  - `items` are the live slots `raw[0..Count)`.
  - `size`, `chunk` and `dirty` are kept as in the source.
  - The comparator is written `key(a) - key(b)`, which is the form both callers use.
  - A heap is valid when it is well sized and, unless dirty, heap-ordered by `key`.
- `MinHeapTests` (`min_heap_tests.dfy`): the scenarios of `MinHeapTests.cs`.
- `PathTrees` (`path_tree.dfy`): `PathTree` as a map from node to optional parent.
  - A tree is well formed when some rank strictly decreases along every parent link, so the walk to the root terminates.
- `Worlds` (`worlds.dfy`): the `IMap` interface as a record of three functions: neighbours, movement cost and distance estimate. It also defines walks and reachability.
- `Search` (`search.dfy`): the heap-driven engine.
  - The invariant `Inv` ties the cost table, the heap and the tree together. It says:
    - the tree keys are the committed nodes;
    - every non-root tree node hangs below a node committed earlier, at a cost no lower than that node's;
    - every uncommitted recorded node is in the heap exactly once, and the heap holds nothing else;
    - every committed node other than the current one has been expanded, unless the cutoff stopped it.
- `TreeWeighted` (`tree_weighted.dfy`): the edge-set tree and its `UpdateParent`.
- `AStar` (`astar.dfy`): the linear-scan search over node creation numbers.
- `Tiles`, `GridMaps`, `GridScenarios` (`tiles.dfy`, `grid_maps.dfy`, `grid_scenarios.dfy`): tiles and the two square maps. `GridScenarios` restates path tests of both `SquaredMapTests.cs` files. The newer project's tests are stated over the heap-driven engine. The Unity project's `OriginIsDestination` and `OneStep` are stated over the linear-scan engine.

Calls into the map are parameters: a `World` value stands for the `IMap` object together with the cookie that is passed to `NeighborsOf`. Each search threads two ghost values through its loop:

- a finite set `U` of locations that is closed under the neighbour relation, which bounds how often the loop can run;
- in `Search`, the commit order of each committed node.

## Model

| member | source | states |
|---|---|---|
| MinHeap.New | Assets/Scripts/Structures/MinHeap.cs:18-22 | A heap built by the one-argument constructor has size 0 and no elements, is not dirty, and has chunk 8, as `Clean` leaves it. |
| MinHeap.WithReserve | Assets/Scripts/Structures/MinHeap.cs:24-28 | The reserving constructor leaves the heap empty with room for at least `reserve` elements, but with a growth chunk of 0 because it skips `Clean`. |
| MinHeap.Clean | Assets/Scripts/Structures/MinHeap.cs:86-91 | Logically empties the heap. It leaves no live elements, clears the dirty bit, resets the chunk to 8, and keeps the size. |
| MinHeap.Clear | Assets/Scripts/Structures/MinHeap.cs:95-100 | Empties the heap and releases its memory, so the result is a well-sized empty heap of size 0. |
| MinHeap.Realloc | Assets/Scripts/Structures/MinHeap.cs:115-122 | Moving to a buffer of `s` slots keeps the live elements, the dirty bit and the chunk. |
| MinHeap.Reserve | Assets/Scripts/Structures/MinHeap.cs:104-108 | After reserving `s`, capacity is at least `s` and never shrinks, and the live elements are unchanged. |
| MinHeap.Push | Assets/Scripts/Structures/MinHeap.cs:51-60 | Pushing appends the element after the live ones and marks the heap dirty. A full heap first grows to `size + chunk` and doubles `chunk`; otherwise size and chunk stay the same. |
| MinHeap.Swap | Assets/Scripts/Structures/MinHeap.cs:138-140 | Exchanging two slots permutes the sequence and touches no other slot. |
| MinHeap.Heapify | Assets/Scripts/Structures/MinHeap.cs:125-143 | If every subtree below `root` is already ordered, sifting `root` down makes the subtree at `root` ordered. It returns a permutation and moves nothing outside the subtree of `root`. |
| MinHeap.SiftDown | Assets/Scripts/Structures/MinHeap.cs:131-141 | One sift step swaps the node with its least child and recurses. From any point of the sift it ends in an ordered subtree and a permutation of the input. No slot outside the subtree of the current position moves. |
| MinHeap.Sort | Assets/Scripts/Structures/MinHeap.cs:77-82 | Heapifying from `Count / 2 - 1` down to 0 yields a heap-ordered permutation of the live elements and clears the dirty bit. |
| MinHeap.RootIsLeast | Assets/Scripts/Structures/MinHeap.cs:125-143 | In a heap-ordered sequence no element has a smaller key than the root. |
| MinHeap.RootIsLeastOfAll | Assets/Scripts/Structures/MinHeap.cs:40-47 | The root of an ordered heap has the least key of all its elements. |
| MinHeap.Peek | Assets/Scripts/Structures/MinHeap.cs:40-47 | On an empty heap, the exception path. Otherwise it returns an element of least key, re-sorting first only when dirty, and keeps the same elements. |
| MinHeap.DropRoot | Assets/Scripts/Structures/MinHeap.cs:68-70 | Moving the last element to the root and hiding the old root leaves every element but the root, with the children of the root still ordered. |
| MinHeap.Pop | Assets/Scripts/Structures/MinHeap.cs:65-73 | On an empty heap, the exception path. Otherwise it removes and returns an element of least key; the rest stay, and the heap is ordered and clean afterwards. |
| MinHeap.RemoveRoot | Assets/Scripts/Structures/MinHeap.cs:67-71 | Removing the root of an ordered heap leaves an ordered heap of every other element. |
| MinHeapTests.PopLeast | Assets/Scripts/Structures/MinHeap.cs:65-73 | On distinct integers, `Pop` returns the minimum and leaves exactly the other integers. |
| MinHeapTests.PeekLeast | Assets/Scripts/Structures/MinHeap.cs:40-47 | On distinct integers, `Peek` returns the minimum and removes nothing. |
| MinHeapTests.RemoveFromDistinct | Assets/Scripts/Structures/MinHeap.cs:65-73 | Taking one element out of a sequence of distinct integers leaves exactly the others, each still once. |
| MinHeapTests.OneInsertion | Assets/Scripts/Editor/Tests/MinHeapTests.cs:15-19 | After pushing 1, the top is 1. |
| MinHeapTests.TwoInsertions | Assets/Scripts/Editor/Tests/MinHeapTests.cs:22-27 | After pushing 1 then 0, the top is 0. |
| MinHeapTests.ThreeInsertions | Assets/Scripts/Editor/Tests/MinHeapTests.cs:30-36 | After pushing 1, 0, 2, the top is 0. |
| MinHeapTests.Removal | Assets/Scripts/Editor/Tests/MinHeapTests.cs:39-46 | Popping from {1, 0, 2} returns 0, and 1 is on top afterwards. |
| MinHeapTests.Reuse | Assets/Scripts/Editor/Tests/MinHeapTests.cs:49-59 | After pushing 1 and 0, popping both and pushing 2, the top is 2 and the count is 1. |
| MinHeapTests.ReuseClean | Assets/Scripts/Editor/Tests/MinHeapTests.cs:62-70 | After pushing 1 and 0, `Clean` and pushing 2, the top is 2 and the count is 1. |
| MinHeapTests.ReuseClear | Assets/Scripts/Editor/Tests/MinHeapTests.cs:73-81 | After pushing 1 and 0, `Clear` and pushing 2, the top is 2 and the count is 1. |
| MinHeapTests.MultipleSiftSort | Assets/Scripts/Editor/Tests/MinHeapTests.cs:84-97 | After pushing 3, 4, 2, peeking, and pushing 1, four pops return 1, 2, 3, 4. |
| MinHeapTests.MultipleSiftHeapifyLeft | Assets/Scripts/Editor/Tests/MinHeapTests.cs:100-113 | The pop that sifts down the left branch leaves 3 on top. |
| MinHeapTests.MultipleSiftHeapifyRight | Assets/Scripts/Editor/Tests/MinHeapTests.cs:116-127 | The pop that sifts down the right branch leaves 2 on top. |
| PathTrees.New | Structures/PathTree.cs:11-15 | `New(root)` forgets every earlier node and leaves only the root, with no parent. |
| PathTrees.Contains | Structures/PathTree.cs:18 | Tree membership is key membership of the parent map. |
| PathTrees.Climb | Structures/PathTree.cs:25-29 | Following parents from a tree node visits only tree nodes, each the parent of the one before, with strictly decreasing rank, and ends at a node without a parent. |
| PathTrees.PathTo | Structures/PathTree.cs:20-32 | Returns null exactly for a node not in the tree. Otherwise the path runs from a parentless root to the destination through parent links and never repeats a node. |
| PathTrees.ClimbReversed | Structures/PathTree.cs:25-31 | Reversing the climb yields a root-to-destination path without repeats. |
| PathTrees.LastLink | Structures/PathTree.cs:25-31 | A root path of one node is the parentless destination itself; a longer one ends in the destination's parent link. |
| PathTrees.RootPathUnique | Structures/PathTree.cs:20-32 | There is at most one root-to-destination path in a parent map, so `PathTo` returns the only possible answer. |
| PathTrees.PathToAfterNew | Structures/PathTree.cs:11-32 | A freshly reset tree is well formed, and the path to its root is just the root. |
| Worlds.WalkStaysInside | Interface/IMap.cs:6-11 | A walk along `NeighborsOf` that starts inside a neighbour-closed set never leaves it. |
| Worlds.ClosedHoldsReachable | Interface/IMap.cs:6-11 | Every location reachable from inside a neighbour-closed set lies in it. |
| Worlds.ReachableExtends | Interface/IMap.cs:6-11 | Reachability extends by one neighbour step. |
| Search.HeapKey | Algorithm.cs:49-59 | The heap key makes the installed comparator `priority(b) - priority(a)`: the heuristic for `PathToPoint`, the recorded cost for `PathsFromPoint`. |
| Search.Heuristic | Algorithm.cs:114 | The heuristic is the recorded cost plus the estimate to the destination. |
| Search.Priority | Algorithm.cs:49-59 | The key the heap orders by: the heuristic for `PathToPoint`, the recorded cost for `PathsFromPoint`. |
| Search.ExpansionCost | Algorithm.cs:80 | The cost of a neighbour reached from `x` is `x`'s recorded cost plus the movement cost of leaving `x`. |
| Search.Prunes | Algorithm.cs:82-83 | The cutoff prunes exactly when it is non-negative and the cost exceeds it. |
| Search.Commit | Algorithm.cs:107 | Committing sets the node's tree parent to its recorded parent and leaves every other tree entry alone. |
| Search.Reparent | Algorithm.cs:95-96 | Relaxing an already committed node rewrites only its tree parent, to the current node. |
| Search.SetUp | Algorithm.cs:67-75 | Resetting leaves the cost table and the tree with only the start (cost 0, no parent), an empty heap, and the start as current node. |
| Search.SetUpEstablishes | Algorithm.cs:67-75 | The reset state satisfies the engine invariant for a fresh commit order. |
| Search.TreeWellFormed | Algorithm.cs:104-109 | Under the invariant the parent map has no cycles, so `PathTo` terminates. |
| Search.OnlyRootIsStart | Algorithm.cs:72 | Under the invariant, the start is the only tree node without a parent. |
| Search.OpenPreserves | Algorithm.cs:87-91 | Recording a first-seen neighbour with the current node as parent and pushing it keeps the engine invariant. |
| Search.RelaxPreserves | Algorithm.cs:93-98 | When a cheaper route to a recorded node is found, re-sorting the heap (and reparenting the node in the tree if it is committed) keeps the invariant, even though the cost table entry is not updated. |
| Search.CommitPreserves | Algorithm.cs:104-107 | Committing the popped node with its recorded parent keeps the invariant, and every other committed node stays expanded. |
| Search.CommittedHangsBelowParent | Algorithm.cs:107 | A newly committed node hangs below a node committed earlier through a neighbour step, at a cost no lower than its parent's. |
| Search.DrainedMeansAllCommitted | Algorithm.cs:61-62 | Once the heap is empty, every recorded node is committed. |
| Search.DrainedTreeIsClosed | Algorithm.cs:56-64 | Without a cutoff, a drained search commits a neighbour-closed set. |
| Search.TreePathIsWalk | Algorithm.cs:53 | Every root path of the engine's tree starts at the start and follows neighbour steps. |
| Search.Offer | Algorithm.cs:84-99 | Handling one neighbour keeps the invariant. A new neighbour is recorded with the current node as parent. A known one keeps its cost table entry. If the route through the current node is no cheaper, nothing changes. If it is strictly cheaper and the neighbour is committed, its tree parent becomes the current node. No other tree entry changes. |
| Search.OfferFrom | Algorithm.cs:84-100 | Handling the remaining neighbours in order keeps the invariant and records each of them. Every committed neighbour reached more cheaply through the current node gets the current node as tree parent. |
| Search.UpdateOrOpenNeighbor | Algorithm.cs:78-101 | Keeps the invariant. If the cutoff stops the expansion the state is unchanged. Otherwise every neighbour of the current node ends up recorded, and every committed neighbour reached more cheaply gets the current node as tree parent. |
| Search.MainLoop | Algorithm.cs:104-109 | Pops an uncommitted node of greatest priority under the installed comparator, commits it with its recorded parent, and expands it, keeping the invariant. |
| Search.Explore | Algorithm.cs:48-52 | Set-up plus the loop end with an empty heap or with the destination committed. When the start's own cost exceeds the cutoff, the tree is the start alone. |
| Search.Drain | Algorithm.cs:51-52 | Repeating `MainLoop` ends with an empty heap or the destination committed, keeping the invariant. |
| Search.PathToPoint | Algorithm.cs:46-54 | Returns null exactly when the end was not committed, and only after the heap ran dry. A returned path is a repeat-free walk from start to end. Start equal to end gives `[start]`. Without a cutoff a path exists exactly when the end is reachable. |
| Search.TreePathFacts | Algorithm.cs:53 | Under the invariant, `PathTo` gives null only for uncommitted nodes, and otherwise a repeat-free walk from the start. |
| Search.FoundIffReachable | Algorithm.cs:51-53 | Without a cutoff, once the loop stops, the end is committed exactly when it is reachable from the start. |
| Search.DrainedHoldsReachable | Algorithm.cs:61-62 | Without a cutoff, a drained search commits every location reachable from the start. |
| Search.CommittedHangOnWalks | Algorithm.cs:56-64 | Every committed node hangs on a tree path that is a walk from the start. |
| Search.Calculate | Assets/Scripts/Algorithm.cs:46-53 | The cutoff-free Unity search returns a path exactly when the end is reachable. The path is a repeat-free walk from start to end, and `[start]` when they are equal. |
| Search.PathsFromPoint | Algorithm.cs:56-64 | Returns the drained tree: the start is its parentless root, every node hangs on a walk from the start, and a start costlier than the cutoff is the whole tree. With a non-negative cutoff every recorded cost but the start's is within it; without a cutoff every reachable node is in the tree. |
| TreeWeighted.Clear | Assets/Scripts/Graph/TreeWeighted.cs:11-15 | Clearing leaves no nodes and no edges. |
| TreeWeighted.ClearedHasNoParents | Assets/Scripts/Graph/TreeWeighted.cs:11-21 | After clearing, no node has a parent. |
| TreeWeighted.FirstInto | Assets/Scripts/Graph/TreeWeighted.cs:17-18 | Finds the first edge into a node, or reports that there is none. |
| TreeWeighted.GetParentEdge | Assets/Scripts/Graph/TreeWeighted.cs:17-18 | Returns an edge of the tree into the node, or null exactly when there is none. |
| TreeWeighted.GetParentNode | Assets/Scripts/Graph/TreeWeighted.cs:20-21 | Returns the source end of an edge into the node, or null exactly when no edge enters it. |
| TreeWeighted.UpdateParent | Assets/Scripts/Graph/TreeWeighted.cs:23-27 | Swaps the first edge into `node` for a new edge that goes from `node` to `newParent` (an edge is appended if there was none), and changes no other edge. |
| TreeWeighted.UpdateParentOrphans | Assets/Scripts/Graph/TreeWeighted.cs:23-27 | Because the new edge points from `node` to `newParent`, a node with one parent edge ends up with no parent at all. |
| TreeWeighted.UpdateParentAdoptsChild | Assets/Scripts/Graph/TreeWeighted.cs:23-27 | In the same way, a `newParent` without a parent ends up with `node` as its parent. |
| AStar.F | Assets/Scripts/AStar.cs:83-85 | `f` is the node's cost plus the estimate from its location to the destination. |
| AStar.CostThrough | Assets/Scripts/AStar.cs:93 | The cost through the current node is its cost plus the movement cost of leaving its location. |
| AStar.Set | Assets/Scripts/AStar.cs:62-76 | The origin becomes node 0 at cost 0 and the only tree node. Each neighbour becomes a fresh node at the origin's movement cost, opened with an edge from the origin. |
| AStar.GetNodeForLocation | Assets/Scripts/AStar.cs:87-88 | Returns the earliest-created node labelled with the location, or null exactly when none is. |
| AStar.SetOpenEdge | Assets/Scripts/AStar.cs:97-105 | Setting a dictionary entry replaces the edge of an open node in place or appends a new entry. The set of open nodes gains exactly that node. |
| AStar.SetOpenEdgeKeepsDistinct | Assets/Scripts/AStar.cs:105 | The open dictionary keeps one entry per node, and the entry for the node holds the new edge. |
| AStar.OpenIdsRemove | Assets/Scripts/AStar.cs:133 | Removing an entry removes exactly its node from the open set and keeps the entries distinct. |
| AStar.UpdateOrOpenNeighbour | Assets/Scripts/AStar.cs:90-108 | A new location gets a fresh node at the cost through the current node and is opened. A known one is left alone unless the cost through the current node is lower. In that case the cost of the node `GetNodeForLocation` returns, and of no other node, drops to it. That node is reparented in the tree if committed, or re-opened with a new edge if not. |
| AStar.UpdateIdempotent | Assets/Scripts/AStar.cs:90-108 | With a non-negative movement cost, handling the same neighbour twice in a row has the same effect as once. |
| AStar.Commit | Assets/Scripts/AStar.cs:131-133 | Committing adds the chosen node and its open edge to the tree and removes its entry from the open dictionary. |
| AStar.Select | Assets/Scripts/AStar.cs:125-128 | Picks an open node of least `f = g + h`, the first such node in enumeration order. |
| AStar.SetEstablishes | Assets/Scripts/AStar.cs:62-76 | The state after `Set` satisfies the search invariant. |
| AStar.CommitPending | Assets/Scripts/AStar.cs:125-136 | Committing a node other than the destination leaves a state ready for expansion. |
| AStar.UpdateShape | Assets/Scripts/AStar.cs:90-108 | Handling a neighbour keeps every label inside the closed universe, every open and tree edge a neighbour step, and the open and committed nodes disjoint. |
| AStar.UpdateLabels | Assets/Scripts/AStar.cs:92-98 | Handling a neighbour never forgets a node, and the set of known locations gains exactly that neighbour. |
| AStar.Expand | Assets/Scripts/AStar.cs:139-140 | Handling every neighbour of the current node restores the search invariant. It never loses a known location, and when no new location appears the open count is unchanged. |
| AStar.WalkBack | Assets/Scripts/AStar.cs:147-155 | The walk back from a node either fails (null parent, or no end) or yields a path of known locations from the origin to that node. In the path, each step is adjacent: one end is a neighbour of the other, in either direction. |
| AStar.DrainedUnreachable | Assets/Scripts/AStar.cs:120-145 | If the open dictionary runs dry before the destination is committed, the destination is not reachable. |
| AStar.TreeNeverCheaper | Assets/Scripts/AStar.cs:100-103 | Under a consistent estimate, with tree `f` values no larger than the current node's, no tree node next to the current node is reached more cheaply through it, so `UpdateParent` is never called. |
| AStar.UpdateSettles | Assets/Scripts/AStar.cs:90-108 | Under a consistent estimate, handling a neighbour of the current node leaves the tree unchanged and keeps the state settled: `f` ordered, and tree edges running from earlier to later commits. |
| AStar.CommitSettles | Assets/Scripts/AStar.cs:124-133 | Committing the open entry of least `f` from a settled state gives a settled state, with the committed node ranked last. |
| AStar.Round | Assets/Scripts/AStar.cs:124-141 | One turn commits the open node of least `f` and expands it unless it is at the destination. The turn meets a new location or closes an entry. It keeps the state settled under a consistent estimate and keeps the locations met distinct. |
| AStar.Loop | Assets/Scripts/AStar.cs:120-142 | The loop ends at the destination or with nothing open. It keeps the state settled under a consistent estimate, and keeps the locations met distinct. |
| AStar.WalkBackFinds | Assets/Scripts/AStar.cs:147-152 | On a tree whose edges run from earlier to later commits, the walk back from a tree node away from the origin finds a path when the fuel exceeds the node's rank. With distinct locations, the path repeats none. |
| AStar.WalkBackAtEnd | Assets/Scripts/AStar.cs:143-155 | Once the destination is committed, the walk back stays inside the universe. Under a consistent estimate it always finds a path, which repeats no location when the locations met are distinct. |
| AStar.RoundShrinks | Assets/Scripts/AStar.cs:120-141 | Each round either meets a new location of the finite universe or shrinks the open dictionary, so the loop ends. |
| AStar.Calculate | Assets/Scripts/AStar.cs:113-156 | Origin equal to destination gives `[origin]`. Null is returned exactly when the destination is unreachable. A returned path runs from origin to destination inside the universe, through adjacent steps (a neighbour in either direction). Under a consistent estimate a path is returned exactly when the destination is reachable, and when the origin and its neighbours are distinct the path repeats no location. |
| Tiles.NewTile | Assets/Scripts/Editor/SquareTileMap/TileSquared.cs:10-15 | The tile constructor, with a movement cost of 1 by default. |
| Tiles.MovementCost | Assets/Scripts/Editor/SquareTileMap/TileSquared.cs:25 | The movement cost of a tile is the cost it was built with. |
| Tiles.Manhattan | Assets/Scripts/Editor/SquareTileMap/TileSquared.cs:17-23 | The estimate is never negative and is zero exactly at equal coordinates. |
| Tiles.DistanceEstimation | Assets/Scripts/Editor/SquareTileMap/TileSquared.cs:17-23 | The tile estimate is never negative and is zero exactly for tiles at the same coordinates. |
| Tiles.NewTileFields | Assets/Scripts/Editor/SquareTileMap/TileSquared.cs:10-25 | The constructor stores the coordinates, and the movement cost defaults to 1. |
| Tiles.DistanceIsMetric | Assets/Scripts/Editor/SquareTileMap/TileSquared.cs:17-23 | The estimate is symmetric and satisfies the triangle inequality. |
| Tiles.PlainDistanceEstimation | Editor/SquareTileMap/TileSquared.cs:16-22 | The newer tile's estimate is never negative and is zero exactly at equal coordinates. |
| Tiles.EstimatesAgree | Editor/SquareTileMap/TileSquared.cs:16-22 | Both tile classes estimate the same distance for the same coordinates. |
| GridMaps.Find | Assets/Scripts/Editor/SquareTileMap/MapSquare2D.cs:12-13 | Returns the first location at the given coordinates, or null exactly when there is none. |
| GridMaps.Resolve | Assets/Scripts/Editor/SquareTileMap/MapSquare2D.cs:27-32 | Every element is `Find`'s hit at one of the candidate coordinates, and `Find`'s hit at every candidate is an element. There are no more elements than candidates. |
| GridMaps.ResolveInOrder | Assets/Scripts/Editor/SquareTileMap/MapSquare2D.cs:21-32 | For distinct candidates, the results come in strictly increasing candidate position, so there is at most one per candidate, in the order tried. |
| GridMaps.CandidatesAtDistanceOne | Assets/Scripts/Editor/SquareTileMap/MapSquare2D.cs:21-25 | The four candidate coordinates are exactly those at Manhattan distance 1. |
| GridMaps.NeighborsIn | Assets/Scripts/Editor/SquareTileMap/MapSquare2D.cs:15-34 | Null exactly for a tile that is not a location. Otherwise at most four locations, each one step away and the first location at its coordinates, in the order +X, -X, +Y, -Y. The first location at every candidate coordinate is included. |
| GridMaps.NeighborsDistinct | Assets/Scripts/Editor/SquareTileMap/MapSquare2D.cs:15-34 | A location's neighbours are pairwise distinct and do not include the location itself. |
| GridMaps.StackedNeighborIsFirst | Assets/Scripts/Editor/SquareTileMap/MapSquare2D.cs:12-13 | Of two locations stacked at the coordinates one step along +X, only the one listed first is a neighbour. |
| GridMaps.NeighborsOf | Assets/Scripts/Editor/SquareTileMap/MapSquare2D.cs:15-34 | `MapSquare2D.NeighborsOf` answers as `NeighborsIn` on the map's locations, whatever the flags. |
| GridMaps.IsWalkable | Assets/Scripts/Editor/SquareTileMap/MapSquare2D.cs:36 | A tile is walkable exactly when it is one of the map's locations. |
| GridMaps.ObjectNeighborsOf | Assets/Scripts/Editor/Map2dWithObjects/Map2dWithObjects.cs:24-43 | `Map2dWithObjects.NeighborsOf` answers as `NeighborsIn` on the map's locations; the objects are not consulted. |
| GridMaps.ObjectIsWalkable | Assets/Scripts/Editor/Map2dWithObjects/Map2dWithObjects.cs:45 | A tile is walkable exactly when it is one of the map's locations; the objects are not consulted. |
| GridMaps.GridWorld | Assets/Scripts/Editor/SquareTileMap/MapSquare2D.cs:15-34 | The search world of a map: its neighbours, the tiles' movement cost, and the Manhattan estimate. |
| GridMaps.NeighborIffOneStep | Assets/Scripts/Editor/SquareTileMap/MapSquare2D.cs:15-34 | On a map without two locations at the same coordinates, two locations are neighbours exactly when they are one step apart. |
| GridMaps.NeighborsSymmetric | Assets/Scripts/Editor/SquareTileMap/MapSquare2D.cs:15-34 | On such a map, being a neighbour is symmetric. |
| GridMaps.ObjectsNeverConsulted | Assets/Scripts/Editor/Map2dWithObjects/Map2dWithObjects.cs:19-45 | The map with objects has the same neighbours and walkability as the plain map on its locations, whatever its objects and flags. |
| GridMaps.GridIsClosed | Assets/Scripts/Editor/SquareTileMap/MapSquare2D.cs:15-34 | The set of a map's locations is closed under its neighbour relation. |
| GridScenarios.UnitGrid | Editor/Tests/SquaredMapTests.cs:10-14 | The newer project's test world: the map's neighbours and the Manhattan estimate, with every move costing 1. |
| GridScenarios.GridIsConsistent | Assets/Scripts/Editor/SquareTileMap/TileSquared.cs:17-25 | On a map whose tiles all cost at least 1, the Manhattan estimate is consistent towards any destination. |
| GridScenarios.GridNeighborsDistinct | Assets/Scripts/Editor/SquareTileMap/MapSquare2D.cs:15-34 | A tile and its grid neighbours are all different. |
| GridScenarios.OriginIsDestination | Editor/Tests/SquaredMapTests.cs:20-29 | `PathToPoint(origin, origin)` returns the one-element path `[origin]`. |
| GridScenarios.OneStep | Editor/Tests/SquaredMapTests.cs:32-45 | On two adjacent tiles, the path is origin then destination. |
| GridScenarios.PairPath | Editor/Tests/SquaredMapTests.cs:32-45 | On the two-tile map, the only repeat-free walk between the tiles is the direct step. |
| GridScenarios.NoCutoffFindsAllPaths | Editor/Tests/SquaredMapTests.cs:140-152 | Without a cutoff, every location of the connected three-tile map is in the returned tree. |
| GridScenarios.CutOffZero | Editor/Tests/SquaredMapTests.cs:210-220 | With cutoff 0 the tree holds only the origin. |
| GridScenarios.FarEndCostsTwo | Editor/Tests/SquaredMapTests.cs:155-170 | On the line, the far tile can only be recorded through the middle one, at a cost of at least 2. |
| GridScenarios.FarEndPruned | Editor/Tests/SquaredMapTests.cs:155-170 | With cutoff 1 on the line, the far tile is never committed. |
| GridScenarios.NearEndCommitted | Editor/Tests/SquaredMapTests.cs:155-170 | With cutoff 1 on the line, the origin's neighbour is committed. |
| GridScenarios.CutOffOnePath | Editor/Tests/SquaredMapTests.cs:155-170 | With cutoff 1 on the three-tile line, the tree holds exactly the origin and its neighbour, and the path to the neighbour is the direct step. |
| GridScenarios.LinearOriginIsDestination | Assets/Scripts/Editor/Tests/SquaredMapTests.cs:20-30 | The linear-scan `Calculate` with origin equal to destination returns `[origin]`. |
| GridScenarios.AdjacentPairReachable | Assets/Scripts/Editor/Tests/SquaredMapTests.cs:33-46 | On a two-tile map with the tiles one step apart, the locations are the two tiles, and the second is reachable from the first. |
| GridScenarios.AdjacentPairConsistent | Assets/Scripts/Editor/Tests/SquaredMapTests.cs:33-46 | On a two-tile map whose tiles cost at least 1, the estimate is consistent. |
| GridScenarios.LinearAdjacentPair | Assets/Scripts/Editor/Tests/SquaredMapTests.cs:33-46 | On any two tiles one step apart that cost at least 1, the linear-scan `Calculate` returns origin then destination. |
| GridScenarios.LinearOneStep | Assets/Scripts/Editor/Tests/SquaredMapTests.cs:33-46 | The linear-scan `Calculate` on tiles (0,0) and (0,1) returns the path of length 2 from origin to destination. |

## Left out

- I/O: the core does none. The cookie passed to `NeighborsOf` is folded into the `World` value, and `IsWalkable` is modelled but never consulted by either search.
- 32-bit integer overflow of costs, `f` values and the comparator's subtraction is not modelled. Costs are unbounded integers, so a comparator that overflows in C# does not here.
- The `InvalidOperationException` of `Peek` and `Pop` on an empty heap is the `None` result. The type check in `DistanceEstimation` that throws for a non-tile argument cannot arise, because the model's estimate takes two tiles.
- `NeighborsOf` returns null for a tile that is not a location. `NeighborsIn` models the null as `None`. The searches use `GridWorld`, which reads null as no neighbours; the real engines would throw there, but only on a start tile outside the map, and no test does that.
- Dictionary and `HashSet` enumeration order is modelled as insertion order (a sequence). The source promises no order; the proofs do not depend on the chosen one, except `AStar.Select`, which picks the first least entry in that order.
- Object identity of tiles and `NodeAnnotated` nodes is modelled by an `id` field and by creation numbers. Two tiles built at the same coordinates are different tiles, as in the source.
- The loops of `UpdateOrOpenNeighbor`, `MainLoop`'s caller and `_Heapify` are written as recursive methods with the same step order (`OfferFrom`, `Drain`, `SiftDown`).
- `NonNegativeCosts` and the finite neighbour-closed universe `U` are preconditions of the proofs, not of the source. With negative movement costs the parent map can form a cycle, and the source's `PathTo` would not terminate. Without a finite universe the loop need not end.
- The newer project's own map class is not part of this model. Its scenario tests are stated over `UnitGrid`, whose movement cost is 1 for every tile, as the Unity tile's default.
- The root `Algorithm.cs` writes `tree.ParentOf`, and the tests read `paths.ParentOf`, while `Structures/PathTree.cs` names the field `Nodes`. The model has one parent map under one name.
- The root `Algorithm.cs`'s relax branch calls `Update` on a copy of the `Step` struct, so the cost table never changes after a node is first recorded. The model keeps that: `Search.RelaxPreserves` re-sorts the heap by unchanged priorities.
- `MinHeap.WithReserve`: a heap built with a reserve has chunk 0, so pushing past the reserve would fail to grow. `Push` requires room or a positive chunk, and the model does not describe the failing push.
- `AStar.Calculate` promises `Found` for a reachable destination only under a consistent estimate. Without one, the walk back over `UpdateParent`'s reversed edges can meet a node without a parent edge (`NullParent`). It can also loop forever (`Diverges`, when the fuel of one step per created node runs out). Under a consistent estimate `UpdateParent` is never called. Without one, the contract states only that `NotFound` is exact and that `Found` paths are correct.
- `AStar.WalkBack` states each step with `Adjacent`, meaning one location is a neighbour of the other in either direction. A reversed edge from `UpdateParent` makes a step run against the neighbour relation.
- `Search.PathsFromPoint` with a non-negative cutoff does not promise that the tree holds every node whose lowest-cost path is within the cutoff, and the source does not keep that promise. The heap pops the largest recorded cost first (Algorithm.cs:59). A node first recorded through a long route therefore keeps that cost, because the relax branch leaves the cost table alone (`Search.Offer`). If that cost prunes the node's expansion (`Search.UpdateOrOpenNeighbor` leaves the state unchanged), the expansion is never repeated. A shorter route found later only re-points the node's tree parent. Example, with unit costs and cutoff 3: edges s–a, s–d, a–b, b–x, d–x and x–y, with a popped before d. Then x is committed at cost 3, its expansion is pruned, and y, whose lowest cost is 3, is never recorded. The contract states the weaker facts that do hold: every recorded cost but the start's is within the cutoff, and without a cutoff every reachable node is in the tree.
- `Search.PathToPoint` and `Search.Calculate` do not state that the path is shortest. The source only orders the heap by the heuristic; optimality would need a consistent estimate, and the relax branch's stale costs would make it false anyway.
- The newer project's `SquaredMapTests` cases `TwoSteps`, `CurvedPath`, `ShortestCurvedPath`, `DeceptivePath`, `CutOffTwoPaths` and `CutOffBiggerThanOne` are not restated. Their assertions fix path lengths that rest on the search finding a shortest path, or need a larger scenario proof than the ones given.
- The Unity project's `SquaredMapTests` cases `TwoSteps`, `CurvedPath`, `ShortestCurvedPath` and `DeceptivePath` are not restated on the linear-scan engine, for the same reason.
- `MapObject`, the `IMap` interfaces themselves (stood in for by `World`), the NUnit test runner and the Unity editor code are not modelled.
