/** The graph algorithms: each takes a graph and returns a fresh graph on
    the same vertices holding the edges it selected. */
module Algorithms {
  import opened EdgeLists
  import opened Graphs
  import opened DataStructures
  import opened Reachability
  import opened Trees
  import opened Search
  import opened ShortestPaths
  import opened SpanningTrees

  /** The objects `bfs` works on: the input graph, the tree being built
      on its vertices, the `visited` flags and the queue, each valid and
      none sharing storage with another. */
  ghost predicate BfsRig(g: Graph, tree: Graph, visited: array<bool>, q: Queue)
    reads g, g.Repr, tree, tree.Repr, q, q.data
  {
    TreeRig(g, tree, visited, q) && q.Valid() && q.capacity == g.n
  }

  /** The part of `BfsRig` that the queue's operations cannot change. */
  ghost predicate TreeRig(g: Graph, tree: Graph, visited: array<bool>, q: Queue)
    reads g, g.Repr, tree, tree.Repr
  {
    && g.Valid() && tree.Valid() && tree.n == g.n && visited.Length == g.n
    && g.Repr !! tree.Repr
    && q !in g.Repr && q.data !in g.Repr && visited !in g.Repr
    && q !in tree.Repr && q.data !in tree.Repr && visited !in tree.Repr
  }

  /** `bfs` (lines 17-47): the tree built is the one the breadth-first
      sweep of `g`'s lists produces, so it is a subgraph of `g` spanning
      exactly the start's component. */
  method Bfs(g: Graph, start: int) returns (tree: Graph)
    requires g.Valid() && 0 <= start < g.n
    ensures fresh(tree.Repr) && tree.Valid() && tree.n == g.n
    ensures tree.Lists == BfsTree(g.Lists, start)
    ensures SubgraphOf(tree.Lists, g.Lists) && SpansReach(g.Lists, tree.Lists, start)
  {
    ghost var G: Table := g.Lists;
    var visited, q;
    tree, visited, q := BfsStart(g, start);
    ghost var init := Sweep(tree.Lists, visited[..], q.Contents);
    while !q.IsEmpty()
      invariant BfsRig(g, tree, visited, q) && g.Lists == G
      invariant fresh(tree.Repr) && fresh(visited) && fresh(q) && fresh(q.data)
      invariant Sized(G, Sweep(tree.Lists, visited[..], q.Contents))
      invariant BreadthLoop(G, Sweep(tree.Lists, visited[..], q.Contents)) == BreadthLoop(G, init)
      decreases Unvisited(visited[..]), |q.Contents|
    {
      BfsRound(g, tree, visited, q);
    }
    BfsTreeSpans(G, start);
  }

  /** Lines 18-26 of `bfs`: an edgeless tree on `g`'s vertices, only
      `start` marked, and a queue of capacity n holding `start`. */
  method BfsStart(g: Graph, start: int) returns (tree: Graph, visited: array<bool>, q: Queue)
    requires g.Valid() && 0 <= start < g.n
    ensures BfsRig(g, tree, visited, q)
    ensures fresh(tree.Repr) && fresh(visited) && fresh(q) && fresh(q.data)
    ensures tree.Lists == NoEdges(g.n) && visited[..] == seq(g.n, v => v == start) && q.Contents == [start]
  {
    var n := g.GetNumVertices();
    tree := new Graph(n);
    visited := new bool[n](_ => false);
    q := new Queue(n);
    visited[start] := true;
    q.Enqueue(start);
  }

  /** One turn of the `bfs` loop (lines 29-43): dequeue the oldest vertex
      and scan its list. */
  method BfsRound(g: Graph, tree: Graph, visited: array<bool>, q: Queue)
    requires BfsRig(g, tree, visited, q) && q.Contents != []
    requires Sized(g.Lists, Sweep(tree.Lists, visited[..], q.Contents))
    modifies tree.Repr, visited, q, q.data
    ensures BfsRig(g, tree, visited, q) && fresh(tree.Repr - old(tree.Repr))
    ensures var st := old(Sweep(tree.Lists, visited[..], q.Contents));
      Sweep(tree.Lists, visited[..], q.Contents)
        == BreadthScan(g.Lists, st.queue[0], st.(queue := st.queue[1..]), 0)
  {
    var u := q.Dequeue();
    ScanBreadth(g, u, tree, visited, q);
  }

  /** Lines 31-42 of `bfs`: scan the list of `u`, marking, linking and
      queueing each neighbor not yet visited. */
  method ScanBreadth(g: Graph, u: int, tree: Graph, visited: array<bool>, q: Queue)
    requires BfsRig(g, tree, visited, q) && 0 <= u < g.n
    requires Sized(g.Lists, Sweep(tree.Lists, visited[..], q.Contents))
    modifies tree.Repr, visited, q, q.data
    ensures BfsRig(g, tree, visited, q) && fresh(tree.Repr - old(tree.Repr))
    ensures Sweep(tree.Lists, visited[..], q.Contents)
         == BreadthScan(g.Lists, u, old(Sweep(tree.Lists, visited[..], q.Contents)), 0)
  {
    ghost var G: Table := g.Lists;
    ghost var target := BreadthScan(G, u, Sweep(tree.Lists, visited[..], q.Contents), 0);
    var count := g.GetNeighborCount(u);
    var neighbors := g.GetNeighbors(u);
    BreadthRun(g, G, u, neighbors, target, tree, visited, q);
  }

  /** Lines 34-41 of `bfs`: the loop over `u`'s neighbors. */
  method BreadthRun(g: Graph, ghost G: Table, u: int, neighbors: array<int>, ghost target: Sweep,
                    tree: Graph, visited: array<bool>, q: Queue)
    requires BreadthScanning(g, G, u, neighbors, 0, target, tree, visited, q)
    modifies tree.Repr, visited, q, q.data
    ensures fresh(tree.Repr - old(tree.Repr))
    ensures BreadthScanning(g, G, u, neighbors, neighbors.Length, target, tree, visited, q)
  {
    for i := 0 to neighbors.Length
      invariant fresh(tree.Repr - old(tree.Repr))
      invariant BreadthScanning(g, G, u, neighbors, i, target, tree, visited, q)
    {
      BreadthNext(g, G, u, neighbors, i, target, tree, visited, q);
    }
  }

  /** The state of the scan of `u`'s list before position `i`: the rest
      of the scan leads to `target`. */
  ghost predicate BreadthScanning(g: Graph, G: Table, u: int, neighbors: array<int>, i: int, target: Sweep,
                                  tree: Graph, visited: array<bool>, q: Queue)
    reads g, g.Repr, tree, tree.Repr, visited, q, q.data, neighbors
  {
    && BfsRig(g, tree, visited, q) && g.Lists == G && 0 <= u < |G|
    && neighbors !in tree.Repr && neighbors != q.data && neighbors[..] == Dests(G[u])
    && 0 <= i <= |G[u]|
    && Sized(G, Sweep(tree.Lists, visited[..], q.Contents))
    && BreadthScan(G, u, Sweep(tree.Lists, visited[..], q.Contents), i) == target
  }

  /** One turn of the loop at lines 34-41 of `bfs`. */
  method BreadthNext(g: Graph, ghost G: Table, u: int, neighbors: array<int>, i: int, ghost target: Sweep,
                     tree: Graph, visited: array<bool>, q: Queue)
    requires BreadthScanning(g, G, u, neighbors, i, target, tree, visited, q) && i < neighbors.Length
    modifies tree.Repr, visited, q, q.data
    ensures fresh(tree.Repr - old(tree.Repr))
    ensures BreadthScanning(g, G, u, neighbors, i + 1, target, tree, visited, q)
  {
    var v := neighbors[i];
    BreadthStep(g, u, v, tree, visited, q);
  }

  /** Lines 35-41 of `bfs`: one neighbor `v` of `u`, discovered unless it
      was visited already. */
  method BreadthStep(g: Graph, u: int, v: int, tree: Graph, visited: array<bool>, q: Queue)
    requires BfsRig(g, tree, visited, q) && 0 <= u < g.n && 0 <= v < g.n
    requires Sized(g.Lists, Sweep(tree.Lists, visited[..], q.Contents))
    modifies tree.Repr, visited, q, q.data
    ensures BfsRig(g, tree, visited, q) && fresh(tree.Repr - old(tree.Repr))
    ensures Sweep(tree.Lists, visited[..], q.Contents)
         == BreadthVisit(g.Lists, u, old(Sweep(tree.Lists, visited[..], q.Contents)), v)
  {
    if !visited[v] {
      Discover(g, u, v, tree, visited, q);
    }
  }

  /** Lines 37-39 of `bfs`: mark `v`, record the edge (u, v) and queue
      `v` (which a full queue drops). */
  method Discover(g: Graph, u: int, v: int, tree: Graph, visited: array<bool>, q: Queue)
    requires BfsRig(g, tree, visited, q) && 0 <= u < g.n && 0 <= v < g.n
    modifies tree.Repr, visited, q, q.data
    ensures BfsRig(g, tree, visited, q) && fresh(tree.Repr - old(tree.Repr))
    ensures tree.Lists == Graphs.Link(old(tree.Lists), u, v, WeightOf(g.Lists[u], v))
    ensures visited[..] == old(visited[..])[v := true]
    ensures q.Contents == if old(|q.Contents|) == q.capacity then old(q.Contents) else old(q.Contents) + [v]
  {
    visited[v] := true;
    Record(g, u, v, tree);
    ghost var built := tree.Repr;
    q.Enqueue(v);
    assert tree.Repr == built;
  }

  /** The objects `dfs` works on: the input graph, the tree being built on
      its vertices and the `visited` flags, none sharing storage. */
  ghost predicate DfsRig(g: Graph, tree: Graph, visited: array<bool>)
    reads g, g.Repr, tree, tree.Repr
  {
    && g.Valid() && tree.Valid() && tree.n == g.n && visited.Length == g.n
    && g.Repr !! tree.Repr && visited !in g.Repr && visited !in tree.Repr
  }

  /** `dfs` (lines 79-89): the tree built is the one the depth-first
      descent through `g`'s lists produces, so it is a subgraph of `g`
      spanning exactly the start's component. */
  method Dfs(g: Graph, start: int) returns (tree: Graph)
    requires g.Valid() && 0 <= start < g.n
    ensures fresh(tree.Repr) && tree.Valid() && tree.n == g.n
    ensures tree.Lists == DfsTree(g.Lists, start)
    ensures SubgraphOf(tree.Lists, g.Lists) && SpansReach(g.Lists, tree.Lists, start)
  {
    var visited;
    tree, visited := DfsStart(g);
    DfsHelper(g, start, visited, tree);
    DfsTreeSpans(g.Lists, start);
  }

  /** Lines 80-83 of `dfs`: an edgeless tree on `g`'s vertices and no
      vertex marked. */
  method DfsStart(g: Graph) returns (tree: Graph, visited: array<bool>)
    requires g.Valid()
    ensures DfsRig(g, tree, visited) && fresh(tree.Repr) && fresh(visited)
    ensures Trail(tree.Lists, visited[..]) == Trail(NoEdges(g.n), seq(g.n, _ => false))
  {
    var n := g.GetNumVertices();
    tree := new Graph(n);
    visited := new bool[n](_ => false);
  }

  /** `dfsHelper` (lines 56-69): mark `u` and scan its list, descending
      into each neighbor not yet visited. */
  method DfsHelper(g: Graph, u: int, visited: array<bool>, tree: Graph)
    requires DfsRig(g, tree, visited) && 0 <= u < g.n
    modifies tree.Repr, visited
    ensures DfsRig(g, tree, visited) && fresh(tree.Repr - old(tree.Repr))
    ensures Trail(tree.Lists, visited[..]) == DepthEnter(g.Lists, u, old(Trail(tree.Lists, visited[..])))
    decreases Unvisited(visited[..][u := true]), 2
  {
    visited[u] := true;
    ScanDepth(g, u, visited, tree);
  }

  /** Lines 58-68 of `dfsHelper`: scan the list of `u`. */
  method ScanDepth(g: Graph, u: int, visited: array<bool>, tree: Graph)
    requires DfsRig(g, tree, visited) && 0 <= u < g.n
    modifies tree.Repr, visited
    ensures DfsRig(g, tree, visited) && fresh(tree.Repr - old(tree.Repr))
    ensures Trail(tree.Lists, visited[..]) == DepthScan(g.Lists, u, old(Trail(tree.Lists, visited[..])), 0)
    decreases Unvisited(visited[..]), 1
  {
    ghost var G: Table := g.Lists;
    ghost var top := Unvisited(visited[..]);
    ghost var target := DepthScan(G, u, Trail(tree.Lists, visited[..]), 0);
    var count := g.GetNeighborCount(u);
    var neighbors := g.GetNeighbors(u);
    for i := 0 to count
      invariant fresh(tree.Repr - old(tree.Repr))
      invariant DfsRig(g, tree, visited) && g.Lists == G
      invariant neighbors !in tree.Repr && neighbors[..] == Dests(G[u])
      invariant Unvisited(visited[..]) <= top
      invariant DepthScan(G, u, Trail(tree.Lists, visited[..]), i) == target
    {
      var v := neighbors[i];
      DepthStep(g, u, v, visited, tree);
    }
  }

  /** Lines 62-66 of `dfsHelper`: one neighbor `v` of `u`, linked and
      descended into unless it was visited already. */
  method DepthStep(g: Graph, u: int, v: int, visited: array<bool>, tree: Graph)
    requires DfsRig(g, tree, visited) && 0 <= u < g.n && 0 <= v < g.n
    modifies tree.Repr, visited
    ensures DfsRig(g, tree, visited) && fresh(tree.Repr - old(tree.Repr))
    ensures Trail(tree.Lists, visited[..]) == DepthVisit(g.Lists, u, old(Trail(tree.Lists, visited[..])), v)
    decreases Unvisited(visited[..]), 0
  {
    if !visited[v] {
      Record(g, u, v, tree);
      UnvisitedMark(visited[..], v);
      DfsHelper(g, v, visited, tree);
    }
  }

  /** The objects `dijkstra` works on besides the input graph: the
      `visited`, `dist` and `prev` arrays and the priority queue, each
      sized to the graph and none sharing storage. `prim` works on the
      same objects, named `inMST`, `key` and `parent`. */
  ghost predicate DijkstraRig(g: Graph, visited: array<bool>, dist: array<int>, prev: array<int>, pq: PriorityQueue)
    reads g, g.Repr, pq, pq.values, pq.priorities
  {
    && g.Valid() && pq.Valid() && pq.capacity == g.n
    && visited.Length == g.n && dist.Length == g.n && prev.Length == g.n
    && dist != prev && dist != pq.values && dist != pq.priorities
    && prev != pq.values && prev != pq.priorities
    && visited !in g.Repr && dist !in g.Repr && prev !in g.Repr
    && pq !in g.Repr && pq.values !in g.Repr && pq.priorities !in g.Repr
  }

  /** The arrays and the queue's pairs as one value. */
  ghost function PathsOf(visited: array<bool>, dist: array<int>, prev: array<int>, pq: PriorityQueue): Paths
    reads visited, dist, prev, pq
  {
    Paths(visited[..], dist[..], prev[..], pq.Contents)
  }

  /** `dijkstra` (lines 100-148): the tree built holds the edge
      (v, prev[v]) for each vertex the lazy-reinsertion search gave a
      predecessor, so it is a subgraph of `g`. */
  method Dijkstra(g: Graph, start: int) returns (tree: Graph)
    requires g.Valid() && 0 <= start < g.n
    ensures fresh(tree.Repr) && tree.Valid() && tree.n == g.n
    ensures tree.Lists == DijkstraTree(g.Lists, start)
    ensures SubgraphOf(tree.Lists, g.Lists)
  {
    ghost var G: Table := g.Lists;
    var visited, dist, prev, pq := DijkstraStart(g, start);
    while !pq.IsEmpty()
      invariant DijkstraRig(g, visited, dist, prev, pq) && g.Lists == G
      invariant fresh(visited) && fresh(dist) && fresh(prev)
      invariant fresh(pq) && fresh(pq.values) && fresh(pq.priorities)
      invariant Ranged(G, PathsOf(visited, dist, prev, pq))
      invariant DijkstraLoop(G, PathsOf(visited, dist, prev, pq)) == DijkstraRun(G, start)
      decreases Unvisited(visited[..]), |pq.Contents|
    {
      DijkstraRound(g, visited, dist, prev, pq);
    }
    tree := ParentTree(g, prev, 0);
    DijkstraTreeEdges(G, start);
  }

  /** Lines 101-116 of `dijkstra`: nothing visited, distance 0 for
      `start` and "infinity" elsewhere, no predecessors, and `start`
      queued with priority 0. Lines 158-173 of `prim` are this with
      `start` 0. */
  method DijkstraStart(g: Graph, start: int)
      returns (visited: array<bool>, dist: array<int>, prev: array<int>, pq: PriorityQueue)
    requires g.Valid() && 0 <= start < g.n
    ensures DijkstraRig(g, visited, dist, prev, pq)
    ensures fresh(visited) && fresh(dist) && fresh(prev)
    ensures fresh(pq) && fresh(pq.values) && fresh(pq.priorities)
    ensures PathsOf(visited, dist, prev, pq) == DijkstraInit(g.Lists, start)
  {
    var n := g.GetNumVertices();
    visited := new bool[n](_ => false);
    dist := new int[n](_ => Infinity);
    prev := new int[n](_ => -1);
    dist[start] := 0;
    pq := new PriorityQueue(n);
    pq.Insert(start, 0);
  }

  /** One turn of the loop at lines 118-136: extract the value of least
      priority and, unless it is visited already, mark it and relax its
      list. */
  method DijkstraRound(g: Graph, visited: array<bool>, dist: array<int>, prev: array<int>, pq: PriorityQueue)
    requires DijkstraRig(g, visited, dist, prev, pq) && pq.Contents != []
    requires Ranged(g.Lists, PathsOf(visited, dist, prev, pq))
    modifies visited, dist, prev, pq, pq.values, pq.priorities
    ensures DijkstraRig(g, visited, dist, prev, pq)
    ensures PathsOf(visited, dist, prev, pq) == Settle(g.Lists, old(PathsOf(visited, dist, prev, pq)))
  {
    var u := pq.ExtractMin();
    if !visited[u] {
      visited[u] := true;
      RelaxNeighbors(g, u, visited, dist, prev, pq);
    }
  }

  /** Lines 123-135 of `dijkstra`: relax every entry of `u`'s list. */
  method RelaxNeighbors(g: Graph, u: int, visited: array<bool>, dist: array<int>, prev: array<int>, pq: PriorityQueue)
    requires DijkstraRig(g, visited, dist, prev, pq) && 0 <= u < g.n
    modifies dist, prev, pq, pq.values, pq.priorities
    ensures DijkstraRig(g, visited, dist, prev, pq)
    ensures Paths(visited[..], dist[..], prev[..], pq.Contents) == RelaxScan(g.Lists, u, old(Paths(visited[..], dist[..], prev[..], pq.Contents)), 0)
  {
    ghost var G: Table := g.Lists;
    ghost var target := RelaxScan(G, u, Paths(visited[..], dist[..], prev[..], pq.Contents), 0);
    var count := g.GetNeighborCount(u);
    var neighbors := g.GetNeighbors(u);
    for i := 0 to count
      invariant DijkstraRig(g, visited, dist, prev, pq) && g.Lists == G
      invariant neighbors != dist && neighbors != prev && neighbors != pq.values && neighbors != pq.priorities
      invariant neighbors[..] == Dests(G[u])
      invariant RelaxScan(G, u, Paths(visited[..], dist[..], prev[..], pq.Contents), i) == target
    {
      var v := neighbors[i];
      RelaxStep(g, u, v, visited, dist, prev, pq);
    }
  }

  /** Lines 128-133 of `dijkstra`: on a strict improvement through `u`,
      lower `dist[v]`, record `u` as its predecessor and queue `v`. */
  method RelaxStep(g: Graph, u: int, v: int, visited: array<bool>, dist: array<int>, prev: array<int>, pq: PriorityQueue)
    requires DijkstraRig(g, visited, dist, prev, pq) && 0 <= u < g.n && 0 <= v < g.n
    modifies dist, prev, pq, pq.values, pq.priorities
    ensures DijkstraRig(g, visited, dist, prev, pq)
    ensures Paths(visited[..], dist[..], prev[..], pq.Contents) == RelaxEdge(g.Lists, u, old(Paths(visited[..], dist[..], prev[..], pq.Contents)), v)
  {
    var w := g.GetEdgeWeight(u, v);
    if dist[v] > dist[u] + w {
      dist[v] := dist[u] + w;
      prev[v] := u;
      pq.Insert(v, dist[v]);
    }
  }

  /** `prim` (lines 157-204): the tree built holds the edge (i, parent[i])
      for each i >= 1 the lazy-reinsertion growth from vertex 0 gave a
      parent, so it is a subgraph of `g`. */
  method Prim(g: Graph) returns (tree: Graph)
    requires g.Valid() && g.n >= 1
    ensures fresh(tree.Repr) && tree.Valid() && tree.n == g.n
    ensures tree.Lists == PrimTree(g.Lists)
    ensures SubgraphOf(tree.Lists, g.Lists)
  {
    ghost var G: Table := g.Lists;
    var inMST, key, parent, pq := DijkstraStart(g, 0);
    while !pq.IsEmpty()
      invariant DijkstraRig(g, inMST, key, parent, pq) && g.Lists == G
      invariant fresh(inMST) && fresh(key) && fresh(parent)
      invariant fresh(pq) && fresh(pq.values) && fresh(pq.priorities)
      invariant Ranged(G, PathsOf(inMST, key, parent, pq)) && Scanned(G, PathsOf(inMST, key, parent, pq))
      invariant PrimLoop(G, PathsOf(inMST, key, parent, pq)) == PrimRun(G)
      decreases Unvisited(inMST[..]), |pq.Contents|
    {
      PrimRound(g, inMST, key, parent, pq);
    }
    tree := ParentTree(g, parent, 1);
    PrimTreeEdges(G);
  }

  /** One turn of the loop at lines 175-192: extract the value of least
      key, put it in the tree and lighten its list. */
  method PrimRound(g: Graph, inMST: array<bool>, key: array<int>, parent: array<int>, pq: PriorityQueue)
    requires DijkstraRig(g, inMST, key, parent, pq) && pq.Contents != []
    requires Ranged(g.Lists, PathsOf(inMST, key, parent, pq)) && Scanned(g.Lists, PathsOf(inMST, key, parent, pq))
    modifies inMST, key, parent, pq, pq.values, pq.priorities
    ensures DijkstraRig(g, inMST, key, parent, pq)
    ensures PathsOf(inMST, key, parent, pq) == Grow(g.Lists, old(PathsOf(inMST, key, parent, pq)))
  {
    var u := pq.ExtractMin();
    inMST[u] := true;
    LightenNeighbors(g, u, inMST, key, parent, pq);
  }

  /** Lines 179-191 of `prim`: lighten every entry of `u`'s list. */
  method LightenNeighbors(g: Graph, u: int, inMST: array<bool>, key: array<int>, parent: array<int>, pq: PriorityQueue)
    requires DijkstraRig(g, inMST, key, parent, pq) && 0 <= u < g.n
    modifies key, parent, pq, pq.values, pq.priorities
    ensures DijkstraRig(g, inMST, key, parent, pq)
    ensures Paths(inMST[..], key[..], parent[..], pq.Contents) == LightenScan(g.Lists, u, old(Paths(inMST[..], key[..], parent[..], pq.Contents)), 0)
  {
    ghost var G: Table := g.Lists;
    ghost var target := LightenScan(G, u, Paths(inMST[..], key[..], parent[..], pq.Contents), 0);
    var count := g.GetNeighborCount(u);
    var neighbors := g.GetNeighbors(u);
    for i := 0 to count
      invariant DijkstraRig(g, inMST, key, parent, pq) && g.Lists == G
      invariant neighbors != key && neighbors != parent && neighbors != pq.values && neighbors != pq.priorities
      invariant neighbors[..] == Dests(G[u])
      invariant LightenScan(G, u, Paths(inMST[..], key[..], parent[..], pq.Contents), i) == target
    {
      var v := neighbors[i];
      LightenStep(g, u, v, inMST, key, parent, pq);
    }
  }

  /** Lines 183-189 of `prim`: when `v` is outside the tree and the edge
      is strictly lighter than its key, take the edge's weight as its
      key, `u` as its parent, and queue `v`. */
  method LightenStep(g: Graph, u: int, v: int, inMST: array<bool>, key: array<int>, parent: array<int>, pq: PriorityQueue)
    requires DijkstraRig(g, inMST, key, parent, pq) && 0 <= u < g.n && 0 <= v < g.n
    modifies key, parent, pq, pq.values, pq.priorities
    ensures DijkstraRig(g, inMST, key, parent, pq)
    ensures Paths(inMST[..], key[..], parent[..], pq.Contents) == LightenEdge(g.Lists, u, old(Paths(inMST[..], key[..], parent[..], pq.Contents)), v)
  {
    var w := g.GetEdgeWeight(u, v);
    if !inMST[v] && w < key[v] {
      key[v] := w;
      parent[v] := u;
      pq.Insert(v, key[v]);
    }
  }

  /** The final loop of `dijkstra` (lines 139-142) and of `prim` (lines
      195-198): a fresh graph on `g`'s vertices holding, for each v from
      `lo` on with a predecessor, the edge (v, prev[v]) with the weight
      `g` reports. */
  method ParentTree(g: Graph, prev: array<int>, lo: nat) returns (tree: Graph)
    requires g.Valid() && prev.Length == g.n && lo <= g.n
    requires PrevInRange(prev[..], lo, g.n)
    ensures fresh(tree.Repr) && tree.Valid() && tree.n == g.n
    ensures tree.Lists == PredTree(g.Lists, prev[..], lo, g.n)
  {
    tree := ParentStart(g, prev, lo);
    ParentLoop(g, prev, lo, tree);
  }

  /** Lines 139-142 of `dijkstra`, lines 195-198 of `prim`: the loop over
      the vertices from `lo` on. */
  method ParentLoop(g: Graph, prev: array<int>, lo: nat, tree: Graph)
    requires Building(g, prev, lo, lo, tree)
    modifies tree.Repr
    ensures fresh(tree.Repr - old(tree.Repr))
    ensures Building(g, prev, lo, g.n, tree)
  {
    var n := g.GetNumVertices();
    for v := lo to n
      invariant fresh(tree.Repr - old(tree.Repr))
      invariant Building(g, prev, lo, v, tree)
    {
      ParentStep(g, prev, lo, v, tree);
    }
  }

  /** `Graph tree(n)` (line 102 of `dijkstra`, line 159 of `prim`): an
      edgeless graph on `g`'s vertices. */
  method ParentStart(g: Graph, prev: array<int>, lo: nat) returns (tree: Graph)
    requires g.Valid() && prev.Length == g.n && lo <= g.n
    requires PrevInRange(prev[..], lo, g.n)
    ensures fresh(tree.Repr) && Building(g, prev, lo, lo, tree)
  {
    var n := g.GetNumVertices();
    tree := new Graph(n);
  }

  /** The state of the final loop before vertex `v`: the tree holds the
      parent edges of the vertices from `lo` up to `v`. */
  ghost predicate Building(g: Graph, prev: array<int>, lo: nat, v: nat, tree: Graph)
    reads g, g.Repr, tree, tree.Repr, prev
  {
    && g.Valid() && tree.Valid() && tree.n == g.n && g.Repr !! tree.Repr
    && prev.Length == g.n && prev !in tree.Repr && lo <= v <= g.n
    && PrevInRange(prev[..], lo, g.n)
    && tree.Lists == PredTree(g.Lists, prev[..], lo, v)
  }

  /** One turn of the final loop: the edge (v, prev[v]) when `v` has a
      predecessor. */
  method ParentStep(g: Graph, prev: array<int>, lo: nat, v: nat, tree: Graph)
    requires Building(g, prev, lo, v, tree) && v < g.n
    modifies tree.Repr
    ensures fresh(tree.Repr - old(tree.Repr))
    ensures Building(g, prev, lo, v + 1, tree)
  {
    if prev[v] != -1 {
      Record(g, v, prev[v], tree);
    }
  }

  /** `tree.addEdge(u, v, g.getEdgeWeight(u, v))` for in-range `u` and
      `v`: the edge joins the tree with the weight the first `v`-node of
      `u`'s list in `g` carries. */
  method Record(g: Graph, u: int, v: int, tree: Graph)
    requires g.Valid() && tree.Valid() && tree.n == g.n && g.Repr !! tree.Repr
    requires 0 <= u < g.n && 0 <= v < g.n
    modifies tree.Repr
    ensures tree.Valid() && fresh(tree.Repr - old(tree.Repr))
    ensures tree.Lists == Graphs.Link(old(tree.Lists), u, v, WeightOf(g.Lists[u], v))
  {
    var w := g.GetEdgeWeight(u, v);
    var _ := tree.AddEdge(u, v, w);
  }
}
