# Graph by adjacency lists: a verified Dafny model

This project models the core of a small C++ graph library. It covers:

- an undirected weighted graph stored as one singly linked adjacency list per vertex;
- the three helper structures the algorithms use: a bounded circular queue, an array-backed min-priority queue, and a union-find with path compression and union by rank;
- the five algorithms built on them: breadth-first search, depth-first search, Dijkstra, Prim and Kruskal. Each returns a new graph holding the edges it selected.

The model keeps each piece in the form the C++ code has:

- `AdjacencyList` is a class over real linked `Node`s. Its `removeEdge` redirects `head` or the predecessor's `next`.
- `Graph` is a class holding an array of lists.
- `Queue`, `PriorityQueue` and `unionFind` are classes over arrays.
- The algorithms are methods with the C++ loops, run against those classes.

Each class also carries a ghost abstraction:

- a list's `Contents`, a sequence of (destination, weight) entries, newest first;
- a graph's `Lists`, one such sequence per vertex;
- a queue's `Contents`;
- the union-find's `Rep`, the root of each element.

Every method's contract is stated on that abstraction. Each algorithm is also proved equal to a pure function of the input's lists, and the algorithm's promises are proved as lemmas about that function:

- `BfsTree` and `DfsTree`: the tree is a subgraph that spans exactly the start's component.
- `DijkstraTree` and `PrimTree`: the tree holds exactly the predecessor edges, and those are stored edges between vertices reachable from the start.
- `KruskalForest`: the forest is a subgraph with the same connected classes, with one edge fewer than vertices per class.

The graph's invariant (`Graph.Valid`) is the one `addEdge` establishes: every edge is mirrored. For every pair (u, v), the weights u's list holds for v are, in order, the weights v's list holds for u. Under this invariant:

- `removeEdge`'s second removal always finds its node;
- `getEdgeWeight(u, v) == getEdgeWeight(v, u)`;
- `countEdges` counts undirected edges.

Modules:

- `EdgeLists` (edge_lists.dfy): adjacency lists.
- `Graphs` (graphs.dfy): the graph and the table-level facts about adding and removing edges.
- `DataStructures` (data_structures.dfy): the queue, the priority queue and union-find.
- `Reachability` (reach.dfy): walks, closed sets and connected classes.
- `Trees` (trees.dfy): subgraphs, search trees and parent graphs.
- `Search` (search.dfy): `bfs` and `dfs` as functions.
- `ShortestPaths` (shortest.dfy): `dijkstra` as a function.
- `SpanningTrees` (spanning.dfy): `prim` as a function.
- `Forests` (forests.dfy): `kruskal`'s collection, bubble sort and selection as functions.
- `Algorithms` (algorithms.dfy): the imperative `bfs`, `dfs`, `dijkstra` and `prim`.
- `Kruskal` (kruskal.dfy): the imperative `kruskal`.
- `Scenarios` (scenarios.dfy): the graphs the repository's test cases build, and what the model computes on them.

## Model

| member | source | states |
|---|---|---|
| EdgeLists.AdjacencyList.constructor | AdjacencyList.cpp:15-17 | A new list is well formed and holds no entries. |
| EdgeLists.EmptyListHasNoDest | AdjacencyList.cpp:15-17 | A new list contains no destination, reports weight -1 for every destination and has no neighbors. |
| EdgeLists.AdjacencyList.AddEdge | AdjacencyList.cpp:33-36 | The list becomes the new (dest, weight) entry followed by all old entries in their old order. |
| EdgeLists.FrontInsertion | AdjacencyList.cpp:33-36 | After inserting (d, w) at the front: d is present, its lookup reports w, other destinations report what they did before, and the old entries follow unchanged. |
| EdgeLists.FirstIndex | AdjacencyList.cpp:47-48 | The position the scans stop at: no earlier entry points at d, the entry there does, and it is the length exactly when d is absent. |
| EdgeLists.AdjacencyList.RemoveEdge | AdjacencyList.cpp:43-62 | `found` holds exactly when some node points at dest. The contents lose the first such node and nothing else. When there is none (the "Edge not found" throw), nothing changes. |
| EdgeLists.AdjacencyList.Unlink | AdjacencyList.cpp:49-54 | Redirecting `head` (first node) or the predecessor's `next` splices out node k: both the node chain and the entries lose exactly position k. |
| EdgeLists.RemoveFirstSplices | AdjacencyList.cpp:43-62 | Removal deletes exactly the entry at the first match for d, and leaves the list unchanged when d is absent. |
| EdgeLists.WeightsToRemoveFirst | AdjacencyList.cpp:43-62 | Removing the first d-node drops exactly the first of the weights stored for d and no weight of another destination. |
| EdgeLists.AdjacencyList.Contains | AdjacencyList.cpp:69-78 | True exactly when some entry points at dest. |
| EdgeLists.AdjacencyList.Count | AdjacencyList.cpp:97-105 | The number of nodes in the list. |
| EdgeLists.AdjacencyList.GetAllNeighbors | AdjacencyList.cpp:112-122 | A fresh array holding the destinations of all nodes, in list order. |
| EdgeLists.AdjacencyList.GetWeight | AdjacencyList.cpp:129-137 | The weight of the first node pointing at dest, or -1 when there is none. |
| EdgeLists.WeightOf | AdjacencyList.cpp:129-137 | The same lookup on entries: the first match's weight when d is present, -1 otherwise. |
| EdgeLists.WeightsToNonEmpty | AdjacencyList.cpp:129-137 | d is present exactly when some weight is stored for it, and the first stored weight is the one the lookup reports. |
| Graphs.Graph.constructor | Graph.cpp:15-18 | A valid graph on the given number of vertices, every list empty. |
| Graphs.EmptyUndirected | Graph.cpp:15-18 | A graph without edges satisfies the mirror invariant. |
| Graphs.NoEdgesTotal | Graph.cpp:15-18 | A graph without edges has no list entries. |
| Graphs.Graph.AddEdge | Graph.cpp:32-40 | `valid` holds exactly when both endpoints are in range. Then (dest, w) goes in front of src's list and (src, w) in front of dest's. Otherwise (the "Invalid edge!" report) nothing changes. The mirror invariant is kept. A call without a weight uses `DefaultWeight`, 1. |
| Graphs.Graph.Attach | Graph.cpp:38-39 | One insertion changes only the one list, putting the entry at its front. |
| Graphs.LinkUndirected | Graph.cpp:38-39 | Adding an edge to both endpoints keeps the mirror invariant. |
| Graphs.LinkQueries | Graph.cpp:32-40 | After `addEdge(u, v, w)`, `containsEdge` holds both ways and `getEdgeWeight` reports w both ways, whatever older u-v edges exist. |
| Graphs.LinkHasDest | Graph.cpp:38-39 | After adding (u, v), list x points at y exactly when it did before or (x, y) is (u, v) or (v, u). |
| Graphs.LinkTotal | Graph.cpp:38-39 | Adding an edge adds exactly two entries. |
| Graphs.LinkDests | Graph.cpp:33-39 | Adding an edge between in-range vertices keeps every destination in range. |
| Graphs.MirrorEdge | Graph.cpp:38-39 | Under the mirror invariant an edge stored at u is stored at v, and the lookup reports the same weight from both ends. |
| Graphs.Graph.RemoveEdge | Graph.cpp:48-60 | The outcome is `InvalidEdge` for an endpoint out of range and `EdgeNotFound` (the runtime_error) when src's list has no dest node. Otherwise it is `Removed`, and the first matching node leaves each endpoint's list. Only `Removed` changes anything. The mirror invariant is kept. |
| Graphs.Graph.Detach | Graph.cpp:58-59 | One removal changes only the one list; it reports whether the node was there. |
| Graphs.SecondRemovalFinds | Graph.cpp:58-59 | Under the mirror invariant, after u's list loses its first v-node, v's list still holds a u-node, so the second `removeEdge` never throws. |
| Graphs.RemoveFirstWeights | Graph.cpp:58-59 | Removing the first b-node of a's list drops the first weight a holds for b and no other pair's weights. |
| Graphs.UnlinkWeights | Graph.cpp:58-59 | Removing an edge from both ends drops, for each pair, exactly the leading weights it removed. |
| Graphs.UnlinkUndirected | Graph.cpp:58-59 | Removing a present edge from both ends keeps the mirror invariant. |
| Graphs.UnlinkTotal | Graph.cpp:48-60 | Removing a present edge removes exactly two entries, so the undirected edge count drops by one. |
| Graphs.UnlinkDests | Graph.cpp:58-59 | Removal keeps every destination in range. |
| Graphs.Graph.GetNumVertices | Graph.cpp:76-78 | The vertex count fixed at construction. |
| Graphs.Graph.GetNeighborCount | Graph.cpp:85-88 | The length of the vertex's list, 0 for a vertex out of range. |
| Graphs.Graph.GetNeighbors | Graph.cpp:96-99 | null for a vertex out of range, otherwise a fresh array of its neighbors in list order. |
| Graphs.Graph.GetEdgeWeight | Graph.cpp:107-111 | -1 for an endpoint out of range, otherwise the weight of the first dest-node of src's list, or -1 when there is none. |
| Graphs.Graph.ContainsEdge | Graph.cpp:119-124 | True exactly when both endpoints are in range and src's list holds a dest-node. |
| Graphs.Graph.CountEdges | Graph.cpp:130-140 | Half the number of nodes over all lists. |
| DataStructures.Queue.constructor | DataStructures.hpp:23-25 | An empty valid queue of the given capacity. |
| DataStructures.Queue.Enqueue | DataStructures.hpp:37-42 | The value joins the rear, unless the queue is full, which leaves it unchanged. The ring indices stay consistent. |
| DataStructures.Queue.Dequeue | DataStructures.hpp:48-54 | An empty queue gives -1 and stays empty. Otherwise the oldest value is returned and removed. |
| DataStructures.Queue.IsEmpty | DataStructures.hpp:60-62 | True exactly when the queue holds no value. |
| DataStructures.PriorityQueue.constructor | DataStructures.hpp:79-84 | An empty valid queue of the given capacity, every priority slot set to 1e9. |
| DataStructures.PriorityQueue.Insert | DataStructures.hpp:98-103 | The pair is appended, unless the queue is full, which leaves it unchanged. |
| DataStructures.MinIndex | DataStructures.hpp:111-115 | The position of a least priority, the first among equal minima. |
| DataStructures.MinIndexUnique | DataStructures.hpp:111-115 | Exactly one position is a first least priority, so `MinIndex` is the scan's only possible answer. |
| DataStructures.PriorityQueue.ExtractMin | DataStructures.hpp:109-121 | An empty queue gives -1 and stays empty. Otherwise the value at `MinIndex` is returned and the last pair moves into its slot. |
| DataStructures.SwapRemoveMultiset | DataStructures.hpp:116-119 | Moving the last pair into the chosen slot removes exactly the chosen pair from the multiset of pairs. |
| DataStructures.FirstLowerable | DataStructures.hpp:129-133 | The first pair with the value and a priority above the new one; none earlier qualifies. |
| DataStructures.PriorityQueue.DecreaseKey | DataStructures.hpp:128-135 | Only that first qualifying pair gets the new priority; with none, nothing changes. |
| DataStructures.PriorityQueue.IsEmpty | DataStructures.hpp:141-143 | True exactly when the queue holds no pair. |
| DataStructures.UnionFind.constructor | DataStructures.hpp:159-166 | Every element is its own parent and root, with rank 0. |
| DataStructures.Root | DataStructures.hpp:180-184 | Following parents from x ends at a root whose rank is at least x's; a root is its own root. |
| DataStructures.Roots | DataStructures.hpp:180-184 | The root of every element, in order. |
| DataStructures.UnionFind.Find | DataStructures.hpp:180-184 | Returns the root of x, which is its own parent. Ranks are unchanged and every element keeps its root. |
| DataStructures.UnionFind.Hook | DataStructures.hpp:182 | Pointing x straight at its root moves no element to another root. |
| DataStructures.Compress | DataStructures.hpp:182 | Path compression keeps a rank-ordered forest and every element's root. |
| DataStructures.UnionFind.Unite | DataStructures.hpp:192-204 | Every element whose old root was x's or y's now has one root, which is x's or y's. Every other element keeps its root. |
| DataStructures.UnionFind.Join | DataStructures.hpp:196-203 | Linking two distinct roots by rank: lower rank under higher, and on a tie ry under rx, whose rank goes up by one. |
| DataStructures.Link | DataStructures.hpp:196-203 | Hanging root c under root par, with ranks that keep c below par, keeps a forest. Exactly c's class moves to par. |
| DataStructures.LinkedForest | DataStructures.hpp:196-203 | Linking two distinct roots by rank keeps parents rank-ordered, so `find` terminates. |
| DataStructures.LinkRoots | DataStructures.hpp:196-203 | Linking by rank merges exactly the two classes under the winning root and leaves every other root. |
| DataStructures.RootRanks | DataStructures.hpp:202 | Roots depend on parents only, not on the ranks that bound the walk. |
| Reachability.WithinReachIsReachable | Algorithms.cpp:17-47 | A set of vertices is within reach of s in the closed-set sense exactly when each of its members is reachable from s by a walk. |
| Reachability.LeastClosedIsReachSet | Algorithms.cpp:56-89 | A set holding s that is closed under edges and within reach of s is exactly the set of vertices reachable from s. |
| Reachability.ReachableSymmetric | Graph.cpp:25-40 | In a mirrored graph every walk can be reversed. |
| Reachability.LinkReachable | Graph.cpp:32-40 | After adding (u, v), x reaches y exactly when it did before, or it reached one endpoint and the other endpoint reached y. |
| Reachability.LinkComponents | Graph.cpp:32-40 | An edge between two classes leaves one class fewer. |
| Reachability.LinkComponentsMerge | Graph.cpp:32-40 | After adding (u, v) the classes are the old ones with u's and v's replaced by their union. |
| Reachability.NoEdgesComponents | Graph.cpp:15-18 | Without edges there are exactly n classes. |
| Trees.TreeStart | Algorithms.cpp:18-26 | The start vertex discovered with no edges is a search tree. |
| Trees.LinkSubgraph | Algorithms.cpp:38 | Recording an edge of g with the weight `getEdgeWeight` reports keeps the tree a subgraph of g, the mirrored entry included. |
| Trees.TreeGrow | Algorithms.cpp:36-39 | Discovering v through an edge from a discovered u, and recording that edge, keeps a search tree: one more vertex, two more entries, all reachable in both graphs. |
| Trees.TreeSpans | Algorithms.cpp:17-47 | A search tree whose discovered set is closed under g's edges spans exactly the start's component. |
| Trees.PredTree | Algorithms.cpp:139-142 | The graph the final loops build: the edge (v, prev[v]) for each v in range that has one, in increasing order. |
| Trees.PredTreeSubgraph | Algorithms.cpp:139-142 | The parent graph of stored parent edges is a subgraph of g. |
| Trees.PredTreeEdges | Algorithms.cpp:139-142 | The parent graph joins x and y exactly when one is the other's parent and the child lies in range. |
| Trees.PredTreeTotal | Algorithms.cpp:139-142 | The parent graph holds two list nodes, one edge, per child in [lo, hi) with a parent. |
| Trees.PredTreeShape | Algorithms.cpp:139-142 | A parent graph whose vertices are reachable from s is a subgraph, holds exactly the parent edges and gives no edge to an unreachable vertex. |
| Search.BreadthVisit | Algorithms.cpp:35-40 | One neighbor: when it is unvisited, mark it, record the edge and queue it (a full queue drops it). The unvisited count drops exactly when something changes. |
| Search.BreadthScan | Algorithms.cpp:34-41 | The scan of a list from position i; it never raises the unvisited count. |
| Search.BreadthLoop | Algorithms.cpp:28-43 | The main loop: it ends with an empty queue. |
| Search.BfsTree | Algorithms.cpp:17-47 | The tree `bfs` returns for given lists and start. |
| Search.BfsRoom | Algorithms.cpp:24-39 | Whenever a vertex is about to be queued, the queue has fewer than n values, so the capacity-n queue never drops one. |
| Search.BfsTake | Algorithms.cpp:29 | Dequeuing the head starts the scan of its list in the search state. |
| Search.BfsDiscover | Algorithms.cpp:36-40 | Marking, linking and queueing an undiscovered neighbor keeps the scan state. |
| Search.BfsPass | Algorithms.cpp:36 | Skipping a discovered neighbor keeps the scan state. |
| Search.BfsDone | Algorithms.cpp:34-41 | After its whole list the scanned vertex is finished. |
| Search.BfsEnd | Algorithms.cpp:28-43 | With the queue empty the discovered set is closed, so the tree spans the start's component. |
| Search.BreadthScanKeeps | Algorithms.cpp:34-41 | A scan that starts in the scan state ends in the search state. |
| Search.BreadthLoopKeeps | Algorithms.cpp:28-43 | The loop keeps the search state and ends with the queue empty. |
| Search.BfsTreeSpans | Algorithms.cpp:17-47 | The `bfs` tree is a subgraph of g carrying g's weights. Vertices unreachable from the start get no edges, every reachable vertex is reachable in the tree, and there is one undirected edge fewer than reachable vertices. |
| Search.DepthEnter | Algorithms.cpp:56-69 | `dfsHelper(u)`: mark u, then scan its list; it never raises the unvisited count. |
| Search.DepthScan | Algorithms.cpp:61-67 | The scan of u's list from position i. |
| Search.DepthVisit | Algorithms.cpp:62-66 | One neighbor: when it is unvisited, record the edge and descend into it. |
| Search.DfsTree | Algorithms.cpp:79-89 | The tree `dfs` returns for given lists and start. |
| Search.DfsEnter | Algorithms.cpp:57 | Marking u on entry starts the scan state. |
| Search.DfsReturn | Algorithms.cpp:64-65 | Returning from the recursive call, with the neighbor discovered and every newly discovered vertex finished, keeps the scan state. |
| Search.DfsPass | Algorithms.cpp:63 | Skipping a discovered neighbor keeps the scan state. |
| Search.DfsDone | Algorithms.cpp:61-67 | After the whole list every vertex discovered during the call is finished. |
| Search.DfsEnd | Algorithms.cpp:85 | When the top call returns, the discovered set is closed and the tree spans the start's component. |
| Search.DepthEnterKeeps | Algorithms.cpp:56-69 | A call returns with a search tree over a larger discovered set in which every vertex it discovered is finished. |
| Search.DepthScanKeeps | Algorithms.cpp:61-67 | The scan of u's list keeps the state and ends with u finished. |
| Search.DfsTreeSpans | Algorithms.cpp:79-89 | The `dfs` tree is a subgraph of g that spans exactly the start's component, as for `bfs`. |
| ShortestPaths.DijkstraInit | Algorithms.cpp:108-116 | Nothing visited, distance 0 at the start and 1e9 elsewhere, no predecessors, the start queued with priority 0. |
| ShortestPaths.RelaxEdge | Algorithms.cpp:127-133 | On a strict improvement through u, lower dist[v], set prev[v] = u and queue v with the new distance; nothing visited changes. |
| ShortestPaths.RelaxScan | Algorithms.cpp:126-134 | Relax every entry of u's list from position i. |
| ShortestPaths.Settle | Algorithms.cpp:118-136 | One turn: extract the value `MinIndex` picks; skip it if visited, else mark it and relax its list. Each turn marks a vertex or shortens the queue. |
| ShortestPaths.DijkstraLoop | Algorithms.cpp:118-136 | The main loop: it ends with an empty queue. |
| ShortestPaths.DijkstraRun | Algorithms.cpp:100-136 | The final state of `dijkstra` for given lists and start. |
| ShortestPaths.DijkstraTree | Algorithms.cpp:139-142 | The tree `dijkstra` returns: the parent graph of the final `prev`. |
| ShortestPaths.RelaxScanKeeps | Algorithms.cpp:126-134 | Relaxing keeps predecessors and queued values in range and only lowers distances. |
| ShortestPaths.SettleKeeps | Algorithms.cpp:118-136 | A turn only lowers distances. |
| ShortestPaths.DijkstraLoopLowers | Algorithms.cpp:118-136 | The whole loop only lowers distances. |
| ShortestPaths.DijkstraInitSound | Algorithms.cpp:108-116 | The initial state is sound: predecessors are stored neighbors, each distance is at least its predecessor's plus the edge, everything recorded is reachable from the start, and with nonnegative weights distances stay nonnegative. |
| ShortestPaths.RelaxEdgeChained | Algorithms.cpp:129-131 | Relaxing a stored edge keeps predecessor edges stored and distances consistent with them. |
| ShortestPaths.RelaxEdgeRooted | Algorithms.cpp:129-132 | Relaxing an edge out of a reachable vertex keeps everything recorded reachable. |
| ShortestPaths.RelaxEdgeAnchored | Algorithms.cpp:129-131 | With nonnegative weights relaxing never touches the start and never makes a distance negative. |
| ShortestPaths.RelaxEdgeSound | Algorithms.cpp:127-133 | Relaxing a stored edge out of a reachable vertex keeps the state sound. |
| ShortestPaths.RelaxScanSound | Algorithms.cpp:126-134 | Relaxing the list of a reachable vertex keeps the state sound. |
| ShortestPaths.SettleSound | Algorithms.cpp:118-136 | A turn keeps the state sound. |
| ShortestPaths.DijkstraLoopSound | Algorithms.cpp:118-136 | The loop keeps the state sound. |
| ShortestPaths.DijkstraRunSound | Algorithms.cpp:100-136 | The final state of `dijkstra` is sound. |
| ShortestPaths.DijkstraRunLinks | Algorithms.cpp:100-136 | In the final state every predecessor is a stored neighbor, and a vertex with a predecessor and that predecessor are reachable from the start. |
| ShortestPaths.DijkstraTreeEdges | Algorithms.cpp:139-142 | The returned tree is a subgraph of g holding exactly the edges (v, prev[v]), and vertices unreachable from the start get no edges. |
| ShortestPaths.DijkstraTreeSize | Algorithms.cpp:139-142 | The returned tree holds two list nodes per vertex with a predecessor, so its `countEdges()` is the number of such vertices. |
| ShortestPaths.DijkstraDistances | Algorithms.cpp:108-133 | Final distances are at most the initial ones. A vertex with a predecessor has a finite distance, at least its predecessor's plus their edge's weight. With nonnegative weights the start keeps distance 0 and no predecessor. |
| ShortestPaths.SettleKeepsVisited | Algorithms.cpp:119-121 | A turn marks the vertex it extracts (when not already marked) and clears no flag. |
| ShortestPaths.DijkstraLoopKeepsVisited | Algorithms.cpp:118-136 | A vertex visited before the loop is visited after it. |
| ShortestPaths.DijkstraRunVisitsStart | Algorithms.cpp:114-121 | `dijkstra(g, s)` ends with s visited: the first turn extracts the only queued pair (s, 0). |
| SpanningTrees.LightenEdge | Algorithms.cpp:183-189 | When v is outside the tree and the edge is strictly lighter than its key, the weight becomes v's key, u its parent, and v is queued. |
| SpanningTrees.LightenScan | Algorithms.cpp:182-190 | Lighten every entry of u's list from position i. |
| SpanningTrees.LightenScanKeeps | Algorithms.cpp:182-190 | Lightening keeps parents and queued values in range and only lowers keys. |
| SpanningTrees.LightenScanCovers | Algorithms.cpp:182-190 | After lightening, every scanned neighbor is in the tree or keyed at most the weight of the edge to it. |
| SpanningTrees.LightenScanIdle | Algorithms.cpp:182-190 | Lightening an already covered list changes nothing, so a vertex extracted again rescans to no effect. |
| SpanningTrees.LightenScanScanned | Algorithms.cpp:176-190 | Putting u in the tree and lightening its list keeps every tree vertex's list covered. |
| SpanningTrees.Grow | Algorithms.cpp:175-192 | One turn: extract the value `MinIndex` picks, put it in the tree and lighten its list. Each turn adds a vertex or shortens the queue. |
| SpanningTrees.PrimLoop | Algorithms.cpp:175-192 | The main loop: it ends with an empty queue and every tree vertex's list covered. |
| SpanningTrees.PrimRun | Algorithms.cpp:157-192 | The final state of `prim` for given lists. |
| SpanningTrees.PrimTree | Algorithms.cpp:195-198 | The tree `prim` returns: the edge (i, parent[i]) for each i >= 1 with a parent. |
| SpanningTrees.PrimInitGrown | Algorithms.cpp:165-173 | The initial state is grown: parents are stored neighbors whose edge weight is the child's key, and everything recorded is reachable from 0. |
| SpanningTrees.LightenEdgeGrown | Algorithms.cpp:185-188 | Lightening a stored edge out of a vertex reachable from 0 keeps the state grown. |
| SpanningTrees.LightenScanGrown | Algorithms.cpp:182-190 | Lightening the list of a reachable vertex keeps the state grown. |
| SpanningTrees.GrowGrown | Algorithms.cpp:175-192 | A turn keeps the state grown. |
| SpanningTrees.PrimLoopGrown | Algorithms.cpp:175-192 | The loop keeps the state grown. |
| SpanningTrees.PrimRunKeys | Algorithms.cpp:157-192 | In the final state every parent is a stored neighbor. A vertex with a parent and its parent are reachable from 0, and the vertex's key is the weight of its parent edge. |
| SpanningTrees.PrimTreeEdges | Algorithms.cpp:195-198 | The returned tree is a subgraph of g holding exactly the edges (i, parent[i]) for i >= 1, and vertices unreachable from 0 get no edges. |
| SpanningTrees.PrimTreeSize | Algorithms.cpp:195-198 | The returned tree holds two list nodes per vertex i >= 1 with a parent, so its `countEdges()` is the number of such vertices. |
| SpanningTrees.PrimRunCovered | Algorithms.cpp:175-192 | When `prim` stops, each tree vertex's neighbor is in the tree or keyed at most the weight of the edge joining them. |
| SpanningTrees.GrowKeepsVisited | Algorithms.cpp:176-177 | A turn puts the vertex it extracts in the tree and takes none out. |
| SpanningTrees.PrimLoopKeepsVisited | Algorithms.cpp:175-192 | A vertex in the tree before the loop is in it after the loop. |
| SpanningTrees.PrimRunVisitsZero | Algorithms.cpp:171-177 | `prim` ends with vertex 0 in the tree: the first turn extracts the only queued pair (0, 0). |
| SpanningTrees.PrimRunCoversZero | Algorithms.cpp:175-192 | When `prim` stops, each neighbor of vertex 0 is in the tree or keyed at most the weight of its edge from 0. |
| Forests.CollectedDrawn | Algorithms.cpp:226-237 | Every collected edge is a stored edge from its lower to its higher end, with the weight `getEdgeWeight` reports. |
| Forests.CollectedHolds | Algorithms.cpp:226-237 | Every stored edge from a lower to a higher vertex is collected. |
| Forests.EdgesBeforeNext | Algorithms.cpp:226-237 | The edges collected from the first u + 1 vertices are those from the first u followed by those from vertex u. |
| Forests.ListEdgesAbove | Algorithms.cpp:232-233 | An entry pointing above its vertex appends its edge. |
| Forests.ListEdgesBelow | Algorithms.cpp:232 | An entry pointing at or below its vertex adds nothing. |
| Forests.CollectedBound | Algorithms.cpp:226-237 | What the collection loop has gathered part way through never exceeds what it gathers in all. |
| Forests.CollectedWithin | Algorithms.cpp:226-237 | The loop collects at most as many edges as the lists hold entries. |
| Forests.FiveParallelShape | Graph.cpp:32-40 | Five `addEdge(0, 1, 1)` calls on two vertices are all accepted and give two lists of five entries each. |
| Forests.FiveCollected | Algorithms.cpp:226-237 | On those lists the loop collects five edges. |
| Forests.FiveParallelOverflows | Algorithms.cpp:222 | The mirrored five-parallel graph collects 5 edges, more than the n * n = 4 slots allocated. |
| Forests.Bubble | Algorithms.cpp:241-247 | The first j turns of the inner loop; the length is kept. |
| Forests.Passes | Algorithms.cpp:240-248 | The first i passes of the outer loop; the length is kept. |
| Forests.SwappedFacts | Algorithms.cpp:242-246 | One exchange touches only the pair, leaves it in weight order and keeps both edges. |
| Forests.BubbleMax | Algorithms.cpp:241-247 | The inner loop carries a heaviest of the first j + 1 edges to position j. |
| Forests.BubbleTail | Algorithms.cpp:241-247 | The inner loop touches nothing past position j. |
| Forests.PassesSettled | Algorithms.cpp:240-248 | After i passes the last i positions hold the heaviest edges in order. |
| Forests.BubbleSortSorted | Algorithms.cpp:240-248 | The sort leaves weights nondecreasing. |
| Forests.SwappedStable | Algorithms.cpp:242-246 | An exchange happens only between different weights, so the edges of each weight keep their order. |
| Forests.BubbleSortStable | Algorithms.cpp:240-248 | The sort is stable: the edges of each weight appear in their original order. |
| Forests.BubbleSortPermutes | Algorithms.cpp:240-248 | The sort is a permutation: every edge occurs as often as before. |
| Forests.Pick | Algorithms.cpp:252-257 | One edge of the selection loop, on lists and class labels: when the labels separate its ends, link it and merge the two classes. |
| Forests.Alone | Algorithms.cpp:215-216 | No edges and every vertex alone in its class. |
| Forests.Picks | Algorithms.cpp:251-258 | The state after the first i sorted edges. |
| Forests.KruskalForest | Algorithms.cpp:213-262 | The forest `kruskal` returns: the selection applied to the sorted collected edges. |
| Forests.SortedDrawn | Algorithms.cpp:226-248 | The sorted edges are stored edges of g between in-range vertices. |
| Forests.SortedHolds | Algorithms.cpp:226-248 | Every stored edge from a lower to a higher vertex is among the sorted edges. |
| Forests.UniteClasses | Algorithms.cpp:256 | `unite` on roots that `find` separated gives the roots of the merged labels. |
| Forests.PickLabels | Algorithms.cpp:252-257 | Merging the labels of two classes matches adding an edge between them; the lists stay mirrored. |
| Forests.PicksLabels | Algorithms.cpp:251-258 | Throughout the loop the labels are exactly the connected classes of the mirrored forest built so far. |
| Forests.PickForest | Algorithms.cpp:254-256 | A step adds two entries exactly when it merges two classes. |
| Forests.PicksForest | Algorithms.cpp:251-258 | The entries stay twice the number of vertices minus the number of classes: one edge fewer per class than it has vertices, so no cycle is ever formed. |
| Forests.PickSubgraph | Algorithms.cpp:255 | Adding a drawn edge keeps a subgraph of g. |
| Forests.PicksSubgraph | Algorithms.cpp:251-258 | Selecting from drawn edges yields a subgraph of g. |
| Forests.PickJoins | Algorithms.cpp:254-256 | After a step the edge's endpoints are connected, whether it was added or skipped. |
| Forests.PicksConnect | Algorithms.cpp:251-258 | Once an edge has been considered, its endpoints stay connected. |
| Forests.SubgraphReachable | Algorithms.cpp:255 | A walk in a subgraph is a walk in the host. |
| Forests.KruskalCoversEdge | Algorithms.cpp:226-258 | The ends of every stored edge are connected in the forest. |
| Forests.KruskalSpans | Algorithms.cpp:213-262 | For a mirrored graph the forest is a mirrored subgraph with the same connected classes, connecting two vertices exactly when g does, with 2(n - classes) entries. |
| Forests.KruskalReach | Algorithms.cpp:213-262 | The forest connects x and y exactly when g does. |
| Algorithms.Bfs | Algorithms.cpp:17-47 | Returns a fresh valid graph on g's vertices equal to `BfsTree`, hence a subgraph spanning exactly the start's component. |
| Algorithms.BfsStart | Algorithms.cpp:18-26 | An edgeless tree, only the start marked, and a capacity-n queue holding the start. |
| Algorithms.BfsRound | Algorithms.cpp:29-43 | One turn of the loop moves the state one step of `BreadthLoop`. |
| Algorithms.ScanBreadth | Algorithms.cpp:31-42 | The scan of u's list reaches the state `BreadthScan` gives. |
| Algorithms.BreadthRun | Algorithms.cpp:34-41 | The loop over u's neighbors reaches its target state. |
| Algorithms.BreadthNext | Algorithms.cpp:34-41 | One turn of the neighbor loop. |
| Algorithms.BreadthStep | Algorithms.cpp:35-41 | One neighbor, as `BreadthVisit` says. |
| Algorithms.Discover | Algorithms.cpp:37-39 | Marks v, adds (u, v) to the tree with the weight of u's first v-node, and queues v unless the queue is full. |
| Algorithms.Dfs | Algorithms.cpp:79-89 | Returns a fresh valid graph on g's vertices equal to `DfsTree`, hence a subgraph spanning exactly the start's component. |
| Algorithms.DfsStart | Algorithms.cpp:80-83 | An edgeless tree and no vertex marked. |
| Algorithms.DfsHelper | Algorithms.cpp:56-69 | The recursive call changes the tree and the marks as `DepthEnter` says. |
| Algorithms.ScanDepth | Algorithms.cpp:58-68 | The scan of u's list, as `DepthScan` says. |
| Algorithms.DepthStep | Algorithms.cpp:62-66 | One neighbor, as `DepthVisit` says. |
| Algorithms.Dijkstra | Algorithms.cpp:100-148 | Returns a fresh valid graph on g's vertices equal to `DijkstraTree`, a subgraph of g. |
| Algorithms.DijkstraStart | Algorithms.cpp:101-116 | The arrays and queue hold `DijkstraInit`. |
| Algorithms.DijkstraRound | Algorithms.cpp:118-136 | One turn of the main loop, as `Settle` says. |
| Algorithms.RelaxNeighbors | Algorithms.cpp:123-135 | Relaxing u's list, as `RelaxScan` says. |
| Algorithms.RelaxStep | Algorithms.cpp:128-133 | One neighbor, as `RelaxEdge` says. |
| Algorithms.Prim | Algorithms.cpp:157-204 | Returns a fresh valid graph on g's vertices equal to `PrimTree`, a subgraph of g. |
| Algorithms.PrimRound | Algorithms.cpp:175-192 | One turn of the main loop, as `Grow` says. |
| Algorithms.LightenNeighbors | Algorithms.cpp:179-191 | Lightening u's list, as `LightenScan` says. |
| Algorithms.LightenStep | Algorithms.cpp:183-189 | One neighbor, as `LightenEdge` says. |
| Algorithms.ParentTree | Algorithms.cpp:139-142 | A fresh valid graph equal to `PredTree` of the parent array from `lo` on. |
| Algorithms.ParentLoop | Algorithms.cpp:139-142 | The loop over the vertices builds that parent graph. |
| Algorithms.ParentStart | Algorithms.cpp:102 | An edgeless graph on g's vertices. |
| Algorithms.ParentStep | Algorithms.cpp:140-141 | Adds (v, prev[v]) when v has a predecessor. |
| Algorithms.Record | Algorithms.cpp:141 | `tree.addEdge(u, v, g.getEdgeWeight(u, v))` adds the edge with the weight of u's first v-node. |
| Kruskal.Kruskal | Algorithms.cpp:213-262 | With the n * n buffer: a fresh valid graph equal to `KruskalForest`. It is a subgraph of g, connects two vertices exactly when g does, and has one edge fewer than vertices per connected class. |
| Kruskal.KruskalSized | Algorithms.cpp:213-262 | The same promises for every valid graph, with a buffer as long as all lists together. |
| Kruskal.CountEntries | Graph.cpp:130-138 | The number of entries over all lists, summed from neighbor counts. |
| Kruskal.KruskalWith | Algorithms.cpp:214-261 | Collect, sort and select into any large enough buffer, with the same promises. |
| Kruskal.Gather | Algorithms.cpp:224-248 | The buffer's first count edges are the bubble-sorted collected edges. |
| Kruskal.CollectEdges | Algorithms.cpp:226-237 | The buffer's first count edges are the collected edges: each list entry pointing above its vertex, in list order, with the weight `getEdgeWeight` reports. |
| Kruskal.CollectVertex | Algorithms.cpp:226-236 | Vertex u's entries extend the collected prefix. |
| Kruskal.CollectList | Algorithms.cpp:227-236 | The edges from u's list are appended after those gathered so far. |
| Kruskal.CollectEntry | Algorithms.cpp:231-234 | One entry appends its edge exactly when it points above u. |
| Kruskal.Append | Algorithms.cpp:233 | `edges[edgeCount++] = e` extends the prefix by e. |
| Kruskal.SortEdges | Algorithms.cpp:240-248 | The prefix becomes `BubbleSort` of its old value. |
| Kruskal.BubblePass | Algorithms.cpp:241-247 | One pass moves the prefix from `Passes(s, i)` to `Passes(s, i + 1)`. |
| Kruskal.Exchange | Algorithms.cpp:242-246 | Exchanges edges j and j + 1 exactly when the first is strictly heavier. |
| Kruskal.Build | Algorithms.cpp:251-258 | An edgeless tree and a fresh union-find, then selection, give `Picks` over all sorted edges. |
| Kruskal.SelectEdges | Algorithms.cpp:251-258 | The loop keeps the tree equal to `Picks` and the union-find's classes equal to its labels. |
| Kruskal.SelectStep | Algorithms.cpp:252-257 | One edge advances that state by `Pick`. |
| Kruskal.ProbeAt | Algorithms.cpp:254 | `find` separates the edge's ends exactly when the labels do; the tree is untouched. |
| Kruskal.Advance | Algorithms.cpp:255-256 | Add and unite when separated, nothing otherwise, advancing the state by one edge. |
| Kruskal.SkipJoined | Algorithms.cpp:254 | An edge within one class is skipped and the state still advances. |
| Kruskal.ConnectAt | Algorithms.cpp:255-256 | An edge between two classes is added to the tree and the two classes are united. |
| Kruskal.Probe | Algorithms.cpp:254 | The separation test within the loop's layout, leaving the tree and the classes as they were. |
| Kruskal.Grow | Algorithms.cpp:255 | `tree.addEdge(u, v, w)` adds the edge to both lists. |
| Kruskal.Unify | Algorithms.cpp:256 | `unite` merges the two labelled classes and no others; the tree is untouched. |
| Kruskal.Separated | Algorithms.cpp:254 | `find(u) != find(v)` exactly when the labels put u and v in different classes; the classes are kept. |
| Kruskal.Locate | Algorithms.cpp:254 | `find(x)` returns x's root, and every element keeps its root. |
| Kruskal.Combine | Algorithms.cpp:256 | `unite` of two separated vertices merges their two classes and no others. |
| Scenarios.BuildBranching | Graph.hpp:27 | `Graph g(4)` and three `addEdge` calls without a weight (Tests.cpp:15-18) give lists whose every node has weight 1. |
| Scenarios.RouteListsBuilt | Tests.cpp:110-116 | The six `addEdge` calls of the `dijkstra` case build the listed adjacency lists, which keep the graph invariant. |
| Scenarios.DijkstraRouteRun | Tests.cpp:118 | On that graph `dijkstra(g, 0)` ends with distances [0, 2, 3, 4, 4] and predecessors [-1, 0, 1, 1, 2]. |
| Scenarios.DijkstraRouteTree | Tests.cpp:120-125 | The tree it returns joins exactly 0-1, 1-2, 1-3 and 2-4, so not 0-2. |
| Scenarios.SpanListsBuilt | Tests.cpp:149-155 | The six `addEdge` calls of the `prim` case build the listed adjacency lists, which keep the graph invariant. |
| Scenarios.PrimSpanRun | Tests.cpp:157 | On that graph `prim(g)` ends with every vertex in the tree, keys [0, 3, 1, 1, 5] and parents [-1, 0, 1, 0, 2]. |
| Scenarios.PrimSpanTree | Tests.cpp:157-160 | The tree it returns joins exactly 0-1, 1-2, 0-3 and 2-4. |
| Scenarios.PrimSpanTreeSize | Tests.cpp:160 | That tree holds eight list nodes, so `countEdges()` is 4. |
| Scenarios.SpanReachesAll | Tests.cpp:184-190 | Every vertex of the `kruskal` case's graph, the same graph, is reachable from 0. |
| Scenarios.SpanConnected | Tests.cpp:184-190 | That graph has exactly one connected class. |
| Scenarios.KruskalSpanSize | Tests.cpp:192-195 | The forest `kruskal(g)` returns on it holds eight list nodes, so `countEdges()` is 4. |

## Left out

- Memory management is not modelled: destructors, `delete`/`delete[]` of the arrays `getNeighbors` returns, and copies of the returned `Graph`. Dafny's heap is garbage collected, and no method here frees anything.
- Printing (`AdjacencyList::print`, `Graph::print_graph`) is not modelled: it is output only. The "Invalid edge!" message of `addEdge`/`removeEdge` is modelled as a result value.
- `getHead` is not modelled as a separate accessor. `Graph.CountEdges` walks each list's nodes from its head directly.
- 32-bit `int` is modelled as unbounded integers. The overflow of `dist[u] + w` in `dijkstra` and of `n * n` in `kruskal`, for large weights or vertex counts, is not modelled. 1e9 is modelled as the constant 1000000000.
- A negative vertex count in `Graph(int)`, `Queue(int)`, `PriorityQueue(int)` and `unionFind(int)` is excluded by requiring a nonnegative size, because `new T[n]` with negative `n` is undefined.
- Out-of-range `start` for `bfs`, `dfs` and `dijkstra`, and `prim` on a graph without vertices, are excluded by preconditions. The C++ code indexes its arrays with them unchecked.
- Algorithms.Dijkstra: does not state that the distances are shortest. The capacity-n priority queue silently drops insertions once full, and negative weights are accepted, so neither the code nor the model guarantees it. The lemmas prove what holds for every input instead (see `DijkstraDistances` and `DijkstraRunVisitsStart`). For the graph of Tests.cpp:110-116 the final distances and tree are computed turn by turn (`Scenarios.DijkstraRouteRun`, `Scenarios.DijkstraRouteTree`).
- Algorithms.Prim: does not state that the tree has minimum weight, nor that it reaches every vertex of 0's component. The capacity-n queue can drop insertions, as in `dijkstra`. The lemmas prove instead that parents are stored edges keyed by their weight, that vertex 0 is in the tree (`PrimRunVisitsZero`), and that each neighbor of a tree vertex is in the tree or keyed at most the edge's weight (`PrimRunCovered`, `PrimRunCoversZero`). For the graph of Tests.cpp:149-155 the tree is computed turn by turn (`Scenarios.PrimSpanTree`).
- Kruskal.Kruskal: does not state minimum total weight, only that the forest spans every class with the least number of edges. It also requires that the collected edges fit in the `n * n` buffer the code allocates; see Findings.
- `Graph.Valid` requires the mirror invariant. A `Graph` is only ever built empty and changed by `addEdge`/`removeEdge`, which keep it.

## Findings

| source | as written | input that shows it | evidently intended | confidence | as-written member | corrected member |
|---|---|---|---|---|---|---|
| Algorithms.cpp:222 | `new Edge[n * n]` holds the edges collected from lower to higher vertex | two vertices and `addEdge(0, 1, 1)` called five times (accepted: `addEdge` keeps parallel edges): 5 edges are collected into 4 slots | a buffer that holds every collected edge, e.g. as many slots as list entries | not executed | Kruskal.Kruskal, with Forests.FiveParallelOverflows exhibiting the overflow | Kruskal.KruskalSized |
