/** `prim` as a function of the input's lists. Its state has the shape of
    `dijkstra`'s (`Paths`): `visited` holds the `inMST` flags, `dist` the
    keys and `prev` the parents; lines 161-173 set it up exactly as
    `DijkstraInit(G, 0)` does. */
module SpanningTrees {
  import opened EdgeLists
  import opened Graphs
  import opened DataStructures
  import opened Reachability
  import opened Trees
  import opened Search
  import opened ShortestPaths

  /** Lines 183-189 for the neighbor `v` of `u`: when `v` is outside the
      tree and the edge is strictly lighter than its key, the edge's
      weight becomes the key, `u` the parent, and `v` is queued with it. */
  function LightenEdge(G: Table, u: int, ps: Paths, v: int): (r: Paths)
    requires Shaped(G, ps) && 0 <= u < |G| && 0 <= v < |G|
    ensures Shaped(G, r) && r.visited == ps.visited
  {
    var w := WeightOf(G[u], v);
    if !ps.visited[v] && w < ps.dist[v] then
      Paths(ps.visited, ps.dist[v := w], ps.prev[v := u], Offer(ps.queue, Item(v, w), |G|))
    else ps
  }

  /** Lines 182-190: lighten every entry of `u`'s list from position `i`. */
  function LightenScan(G: Table, u: int, ps: Paths, i: nat): (r: Paths)
    requires DestsInRange(G) && Shaped(G, ps) && 0 <= u < |G| && i <= |G[u]|
    ensures Shaped(G, r) && r.visited == ps.visited
    decreases |G[u]| - i
  {
    if i == |G[u]| then ps
    else LightenScan(G, u, LightenEdge(G, u, ps, G[u][i].dest), i + 1)
  }

  /** The entries of `u`'s list from position `i` lead to vertices in the
      tree or to vertices whose key is at most the edge's weight. */
  ghost predicate Covered(G: Table, u: int, ps: Paths, i: nat)
    requires DestsInRange(G) && Shaped(G, ps) && 0 <= u < |G|
  {
    forall k :: i <= k < |G[u]| ==>
      ps.visited[G[u][k].dest] || ps.dist[G[u][k].dest] <= WeightOf(G[u], G[u][k].dest)
  }

  /** Every vertex in the tree has had its list scanned: its neighbors
      are in the tree or keyed no higher than the edge joining them. */
  ghost predicate Scanned(G: Table, ps: Paths)
    requires DestsInRange(G) && Shaped(G, ps)
  {
    forall u :: 0 <= u < |G| && ps.visited[u] ==> Covered(G, u, ps, 0)
  }

  /** Lightening a list keeps parents and queued values vertices, and
      only lowers keys. */
  lemma {:induction false} LightenScanKeeps(G: Table, u: int, ps: Paths, i: nat)
    requires DestsInRange(G) && Shaped(G, ps) && 0 <= u < |G| && i <= |G[u]|
    ensures Ranged(G, ps) ==> Ranged(G, LightenScan(G, u, ps, i))
    ensures Lowered(G, ps, LightenScan(G, u, ps, i))
    decreases |G[u]| - i
  {
    if i < |G[u]| {
      LightenScanKeeps(G, u, LightenEdge(G, u, ps, G[u][i].dest), i + 1);
    }
  }

  /** After lightening `u`'s list from `i`, those entries are covered. */
  lemma {:induction false} LightenScanCovers(G: Table, u: int, ps: Paths, i: nat)
    requires DestsInRange(G) && Shaped(G, ps) && 0 <= u < |G| && i <= |G[u]|
    ensures Covered(G, u, LightenScan(G, u, ps, i), i)
    decreases |G[u]| - i
  {
    if i < |G[u]| {
      var p1 := LightenEdge(G, u, ps, G[u][i].dest);
      LightenScanCovers(G, u, p1, i + 1);
      LightenScanKeeps(G, u, p1, i + 1);
    }
  }

  /** Lightening covered entries changes nothing: a vertex already in
      the tree rescans its list to no effect. */
  lemma {:induction false} LightenScanIdle(G: Table, u: int, ps: Paths, i: nat)
    requires DestsInRange(G) && Shaped(G, ps) && 0 <= u < |G| && i <= |G[u]|
    requires Covered(G, u, ps, i)
    ensures LightenScan(G, u, ps, i) == ps
    decreases |G[u]| - i
  {
    if i < |G[u]| {
      assert LightenEdge(G, u, ps, G[u][i].dest) == ps;
      LightenScanIdle(G, u, ps, i + 1);
    }
  }

  /** Lightening the list of `u`, now in the tree, keeps every list of
      the tree scanned. */
  lemma LightenScanScanned(G: Table, u: int, ps: Paths)
    requires DestsInRange(G) && Shaped(G, ps) && Scanned(G, ps) && 0 <= u < |G|
    ensures Scanned(G, LightenScan(G, u, ps.(visited := ps.visited[u := true]), 0))
  {
    var marked := ps.(visited := ps.visited[u := true]);
    var r := LightenScan(G, u, marked, 0);
    LightenScanCovers(G, u, marked, 0);
    LightenScanKeeps(G, u, marked, 0);
    forall x | 0 <= x < |G| && r.visited[x] && x != u
      ensures Covered(G, x, r, 0)
    {
      assert Covered(G, x, ps, 0);
    }
  }

  /** One turn of the loop at lines 175-192: extract the value `MinIndex`
      picks, put it in the tree and lighten its list. A vertex extracted
      again rescans to no effect, so each turn adds a vertex to the tree
      or shortens the queue. */
  function Grow(G: Table, ps: Paths): (r: Paths)
    requires DestsInRange(G) && Shaped(G, ps) && Ranged(G, ps) && Scanned(G, ps) && ps.queue != []
    ensures Shaped(G, r) && Ranged(G, r) && Scanned(G, r)
    ensures Unvisited(r.visited) < Unvisited(ps.visited)
         || (r.visited == ps.visited && |r.queue| < |ps.queue|)
  {
    var m := MinIndex(ps.queue);
    var u := ps.queue[m].value;
    var rest := ps.(queue := SwapRemove(ps.queue, m));
    assert forall k :: 0 <= k < |rest.queue| ==> rest.queue[k] == ps.queue[if k == m then |ps.queue| - 1 else k];
    var marked := rest.(visited := ps.visited[u := true]);
    UnvisitedMark(ps.visited, u);
    LightenScanKeeps(G, u, marked, 0);
    LightenScanScanned(G, u, rest);
    assert ps.visited[u] ==> LightenScan(G, u, marked, 0) == rest by {
      if ps.visited[u] {
        assert marked == rest;
        LightenScanIdle(G, u, rest, 0);
      }
    }
    LightenScan(G, u, marked, 0)
  }

  /** Lines 175-192: grow until the queue is empty. */
  function PrimLoop(G: Table, ps: Paths): (r: Paths)
    requires DestsInRange(G) && Shaped(G, ps) && Ranged(G, ps) && Scanned(G, ps)
    ensures Shaped(G, r) && Ranged(G, r) && Scanned(G, r) && r.queue == []
    decreases Unvisited(ps.visited), |ps.queue|
  {
    if ps.queue == [] then ps else PrimLoop(G, Grow(G, ps))
  }

  /** The final state of `prim(g)` for a graph with lists `G`. */
  function PrimRun(G: Table): (r: Paths)
    requires DestsInRange(G) && |G| >= 1
    ensures Shaped(G, r) && Ranged(G, r) && Scanned(G, r) && r.queue == []
  {
    PrimLoop(G, DijkstraInit(G, 0))
  }

  /** The tree `prim(g)` returns (lines 195-198): the edge (i, parent[i])
      for each i >= 1 with a parent. */
  function PrimTree(G: Table): (T: Table)
    requires DestsInRange(G) && |G| >= 1
    ensures |T| == |G|
  {
    PredTree(G, PrimRun(G).prev, 1, |G|)
  }

  /** Each parent is a stored neighbor whose edge weight is the child's
      key. */
  ghost predicate Keyed(G: Table, ps: Paths)
    requires Shaped(G, ps)
  {
    && ParentEdges(G, ps.prev)
    && forall v :: 0 <= v < |G| && ps.prev[v] != -1 ==> ps.dist[v] == WeightOf(G[ps.prev[v]], v)
  }

  /** What every state of `prim` satisfies. */
  ghost predicate Grown(G: Table, ps: Paths)
  {
    && Shaped(G, ps) && Ranged(G, ps) && |G| >= 1
    && Keyed(G, ps) && Rooted(G, 0, ps)
  }

  lemma PrimInitGrown(G: Table)
    requires |G| >= 1
    ensures Grown(G, DijkstraInit(G, 0))
  {
    ReachableRefl(G, 0);
  }

  /** Lightening a stored edge out of a vertex reachable from 0 keeps
      parents keyed and everything recorded reachable. */
  lemma LightenEdgeGrown(G: Table, u: int, ps: Paths, v: int)
    requires Grown(G, ps) && 0 <= u < |G| && 0 <= v < |G|
    requires HasDest(G[u], v) && Reachable(G, 0, u)
    ensures Grown(G, LightenEdge(G, u, ps, v))
  {
    ReachableStep(G, 0, u, v);
  }

  lemma {:induction false} LightenScanGrown(G: Table, u: int, ps: Paths, i: nat)
    requires DestsInRange(G) && Grown(G, ps) && 0 <= u < |G| && i <= |G[u]|
    requires Reachable(G, 0, u)
    ensures Grown(G, LightenScan(G, u, ps, i))
    decreases |G[u]| - i
  {
    if i < |G[u]| {
      var v := G[u][i].dest;
      assert HasDest(G[u], v);
      LightenEdgeGrown(G, u, ps, v);
      LightenScanGrown(G, u, LightenEdge(G, u, ps, v), i + 1);
    }
  }

  lemma GrowGrown(G: Table, ps: Paths)
    requires DestsInRange(G) && Grown(G, ps) && Scanned(G, ps) && ps.queue != []
    ensures Grown(G, Grow(G, ps))
  {
    var m := MinIndex(ps.queue);
    var u := ps.queue[m].value;
    var rest := ps.(queue := SwapRemove(ps.queue, m));
    assert forall k :: 0 <= k < |rest.queue| ==> rest.queue[k] == ps.queue[if k == m then |ps.queue| - 1 else k];
    assert Grown(G, rest);
    LightenScanGrown(G, u, rest.(visited := ps.visited[u := true]), 0);
  }

  lemma {:induction false} PrimLoopGrown(G: Table, ps: Paths)
    requires DestsInRange(G) && Grown(G, ps) && Scanned(G, ps)
    ensures Grown(G, PrimLoop(G, ps))
    decreases Unvisited(ps.visited), |ps.queue|
  {
    if ps.queue != [] {
      GrowGrown(G, ps);
      PrimLoopGrown(G, Grow(G, ps));
    }
  }

  /** In the final state of `prim` every parent is a stored neighbor, a
      vertex with a parent and its parent are reachable from 0, and the
      vertex's key is the weight of the edge from its parent. */
  lemma PrimRunKeys(G: Table)
    requires DestsInRange(G) && |G| >= 1
    ensures ParentEdges(G, PrimRun(G).prev)
    ensures forall v :: 0 <= v < |G| && PrimRun(G).prev[v] != -1 ==>
      && Reachable(G, 0, v) && Reachable(G, 0, PrimRun(G).prev[v])
      && PrimRun(G).dist[v] == WeightOf(G[PrimRun(G).prev[v]], v)
  {
    PrimInitGrown(G);
    PrimLoopGrown(G, DijkstraInit(G, 0));
  }

  /** What `prim` returns: a subgraph of the input holding exactly the
      edges (i, parent[i]) for i >= 1; vertices unreachable from 0 get no
      edges. */
  lemma PrimTreeEdges(G: Table)
    requires Undirected(G) && |G| >= 1
    ensures SubgraphOf(PrimTree(G), G)
    ensures PrevEdges(PrimTree(G), PrimRun(G).prev, 1)
    ensures ConfinedToReach(G, PrimTree(G), 0)
  {
    PrimRunKeys(G);
    PredTreeShape(G, PrimRun(G).prev, 1, 0);
  }

  /** The tree `prim` returns holds one edge, two list nodes, per i >= 1
      with a parent. */
  lemma PrimTreeSize(G: Table)
    requires Undirected(G) && |G| >= 1
    ensures TotalLength(PrimTree(G)) == 2 * ParentCount(PrimRun(G).prev, 1, |G|)
  {
    PredTreeTotal(G, PrimRun(G).prev, 1, |G|);
  }

  /** When `prim` stops, every vertex in the tree has each neighbor in
      the tree or keyed at most the weight of the edge joining them. */
  lemma PrimRunCovered(G: Table, u: int, k: int)
    requires DestsInRange(G) && |G| >= 1 && 0 <= u < |G| && PrimRun(G).visited[u] && 0 <= k < |G[u]|
    ensures var v := G[u][k].dest;
      PrimRun(G).visited[v] || PrimRun(G).dist[v] <= WeightOf(G[u], v)
  {
    assert Covered(G, u, PrimRun(G), 0);
  }
  /** A turn of the main loop puts the vertex it extracts in the tree
      (line 177) and takes none out. */
  lemma GrowKeepsVisited(G: Table, ps: Paths, x: int)
    requires DestsInRange(G) && Shaped(G, ps) && Ranged(G, ps) && Scanned(G, ps) && ps.queue != []
    requires 0 <= x < |G|
    ensures x == ps.queue[MinIndex(ps.queue)].value || ps.visited[x] ==> Grow(G, ps).visited[x]
  {
  }

  /** The main loop takes no vertex out of the tree. */
  lemma {:induction false} PrimLoopKeepsVisited(G: Table, ps: Paths, x: int)
    requires DestsInRange(G) && Shaped(G, ps) && Ranged(G, ps) && Scanned(G, ps)
    requires 0 <= x < |G| && ps.visited[x]
    ensures PrimLoop(G, ps).visited[x]
    decreases Unvisited(ps.visited), |ps.queue|
  {
    if ps.queue != [] {
      GrowKeepsVisited(G, ps, x);
      PrimLoopKeepsVisited(G, Grow(G, ps), x);
    }
  }

  /** `prim` puts vertex 0 in the tree: the first turn extracts the only
      queued pair (0, 0), and no turn takes a vertex out. */
  lemma PrimRunVisitsZero(G: Table)
    requires DestsInRange(G) && |G| >= 1
    ensures PrimRun(G).visited[0]
  {
    var ps := DijkstraInit(G, 0);
    assert ps.queue == [Item(0, 0)];
    assert Scanned(G, ps);
    assert PrimRun(G) == PrimLoop(G, Grow(G, ps));
    GrowKeepsVisited(G, ps, 0);
    PrimLoopKeepsVisited(G, Grow(G, ps), 0);
  }

  /** When `prim` stops, each neighbor of vertex 0 is in the tree or
      keyed at most the weight of the edge from 0. */
  lemma PrimRunCoversZero(G: Table, k: int)
    requires DestsInRange(G) && |G| >= 1 && 0 <= k < |G[0]|
    ensures var v := G[0][k].dest;
      PrimRun(G).visited[v] || PrimRun(G).dist[v] <= WeightOf(G[0], v)
  {
    PrimRunVisitsZero(G);
    PrimRunCovered(G, 0, k);
  }
}
