/** `dijkstra` as a function of the input's lists: the `visited` flags,
    the `dist` and `prev` arrays and the priority queue's pairs, with the
    lazy re-insertion and the capacity drops of the C++ code. */
module ShortestPaths {
  import opened EdgeLists
  import opened Graphs
  import opened DataStructures
  import opened Reachability
  import opened Trees
  import opened Search

  /** What `dijkstra` works on between statements. */
  datatype Paths = Paths(visited: seq<bool>, dist: seq<int>, prev: seq<int>, queue: seq<Item>)

  /** One flag, distance and predecessor per vertex. */
  ghost predicate Shaped(G: Table, ps: Paths)
  {
    |ps.visited| == |G| && |ps.dist| == |G| && |ps.prev| == |G|
  }

  /** Predecessors and queued values are vertices. */
  ghost predicate Ranged(G: Table, ps: Paths)
    requires Shaped(G, ps)
  {
    && PrevInRange(ps.prev, 0, |G|)
    && (forall k :: 0 <= k < |ps.queue| ==> 0 <= ps.queue[k].value < |G|)
  }

  /** The state after lines 108-116: no vertex visited, distance 0 for
      `s` and "infinity" elsewhere, no predecessors, and `s` queued with
      priority 0 in a queue of capacity |G|. */
  function DijkstraInit(G: Table, s: int): (ps: Paths)
    requires 0 <= s < |G|
    ensures Shaped(G, ps) && Ranged(G, ps)
  {
    Paths(seq(|G|, _ => false), seq(|G|, v => if v == s then 0 else Infinity),
          seq(|G|, _ => -1), Offer([], Item(s, 0), |G|))
  }

  /** Lines 127-133 for the neighbor `v` of `u`: on a strict improvement
      through `u`, lower `dist[v]`, make `u` its predecessor and queue `v`
      with the new distance. */
  function RelaxEdge(G: Table, u: int, ps: Paths, v: int): (r: Paths)
    requires Shaped(G, ps) && 0 <= u < |G| && 0 <= v < |G|
    ensures Shaped(G, r) && r.visited == ps.visited
  {
    var d := ps.dist[u] + WeightOf(G[u], v);
    if ps.dist[v] > d then
      Paths(ps.visited, ps.dist[v := d], ps.prev[v := u], Offer(ps.queue, Item(v, d), |G|))
    else ps
  }

  /** Lines 126-134: relax every entry of `u`'s list from position `i`. */
  function RelaxScan(G: Table, u: int, ps: Paths, i: nat): (r: Paths)
    requires DestsInRange(G) && Shaped(G, ps) && 0 <= u < |G| && i <= |G[u]|
    ensures Shaped(G, r) && r.visited == ps.visited
    decreases |G[u]| - i
  {
    if i == |G[u]| then ps
    else RelaxScan(G, u, RelaxEdge(G, u, ps, G[u][i].dest), i + 1)
  }

  /** One turn of the loop at lines 118-136: extract the value `MinIndex`
      picks, skip it when already visited, otherwise mark it and relax
      its list. Each turn marks a vertex or shortens the queue. */
  function Settle(G: Table, ps: Paths): (r: Paths)
    requires DestsInRange(G) && Shaped(G, ps) && Ranged(G, ps) && ps.queue != []
    ensures Shaped(G, r) && Ranged(G, r)
    ensures Unvisited(r.visited) < Unvisited(ps.visited)
         || (r.visited == ps.visited && |r.queue| < |ps.queue|)
  {
    var m := MinIndex(ps.queue);
    var u := ps.queue[m].value;
    var rest := ps.(queue := SwapRemove(ps.queue, m));
    assert forall k :: 0 <= k < |rest.queue| ==> rest.queue[k] == ps.queue[if k == m then |ps.queue| - 1 else k];
    if ps.visited[u] then rest
    else
      UnvisitedMark(ps.visited, u);
      RelaxScanKeeps(G, u, rest.(visited := ps.visited[u := true]), 0);
      RelaxScan(G, u, rest.(visited := ps.visited[u := true]), 0)
  }

  /** Lines 118-136: settle until the queue is empty. */
  function DijkstraLoop(G: Table, ps: Paths): (r: Paths)
    requires DestsInRange(G) && Shaped(G, ps) && Ranged(G, ps)
    ensures Shaped(G, r) && Ranged(G, r) && r.queue == []
    decreases Unvisited(ps.visited), |ps.queue|
  {
    if ps.queue == [] then ps else DijkstraLoop(G, Settle(G, ps))
  }

  /** From `ps` to `r` no distance rises, and a predecessor changes only
      with a strict fall of the distance. */
  ghost predicate Lowered(G: Table, ps: Paths, r: Paths)
    requires Shaped(G, ps) && Shaped(G, r)
  {
    && (forall x :: 0 <= x < |G| ==> r.dist[x] <= ps.dist[x])
    && (forall x :: 0 <= x < |G| && r.prev[x] != ps.prev[x] ==> r.dist[x] < ps.dist[x])
  }

  /** Relaxing a list keeps predecessors and queued values vertices, and
      only lowers distances. */
  lemma {:induction false} RelaxScanKeeps(G: Table, u: int, ps: Paths, i: nat)
    requires DestsInRange(G) && Shaped(G, ps) && 0 <= u < |G| && i <= |G[u]|
    ensures Ranged(G, ps) ==> Ranged(G, RelaxScan(G, u, ps, i))
    ensures Lowered(G, ps, RelaxScan(G, u, ps, i))
    decreases |G[u]| - i
  {
    if i < |G[u]| {
      RelaxScanKeeps(G, u, RelaxEdge(G, u, ps, G[u][i].dest), i + 1);
    }
  }

  /** A turn of the main loop only lowers distances. */
  lemma SettleKeeps(G: Table, ps: Paths)
    requires DestsInRange(G) && Shaped(G, ps) && Ranged(G, ps) && ps.queue != []
    ensures Lowered(G, ps, Settle(G, ps))
  {
    var m := MinIndex(ps.queue);
    var u := ps.queue[m].value;
    if !ps.visited[u] {
      RelaxScanKeeps(G, u, ps.(queue := SwapRemove(ps.queue, m), visited := ps.visited[u := true]), 0);
    }
  }

  /** The whole main loop only lowers distances. */
  lemma {:induction false} DijkstraLoopLowers(G: Table, ps: Paths)
    requires DestsInRange(G) && Shaped(G, ps) && Ranged(G, ps)
    ensures Lowered(G, ps, DijkstraLoop(G, ps))
    decreases Unvisited(ps.visited), |ps.queue|
  {
    if ps.queue != [] {
      SettleKeeps(G, ps);
      DijkstraLoopLowers(G, Settle(G, ps));
    }
  }

  /** The final state of `dijkstra(g, s)` for a graph with lists `G`. */
  function DijkstraRun(G: Table, s: int): (r: Paths)
    requires DestsInRange(G) && 0 <= s < |G|
    ensures Shaped(G, r) && Ranged(G, r)
  {
    DijkstraLoop(G, DijkstraInit(G, s))
  }

  /** The tree `dijkstra(g, s)` returns (lines 139-142): the edge
      (v, prev[v]) for each vertex with a predecessor. */
  function DijkstraTree(G: Table, s: int): (T: Table)
    requires DestsInRange(G) && 0 <= s < |G|
    ensures |T| == |G|
  {
    PredTree(G, DijkstraRun(G, s).prev, 0, |G|)
  }

  /** Every stored weight is nonnegative. */
  ghost predicate NonNegative(G: Table)
  {
    forall u, k :: 0 <= u < |G| && 0 <= k < |G[u]| ==> G[u][k].weight >= 0
  }

  /** Each predecessor is a stored neighbor; no distance exceeds
      "infinity"; a vertex with a predecessor has a finite distance, at
      least its predecessor's plus the weight of their edge. */
  ghost predicate Chained(G: Table, ps: Paths)
    requires Shaped(G, ps)
  {
    && ParentEdges(G, ps.prev)
    && (forall v :: 0 <= v < |G| ==> ps.dist[v] <= Infinity)
    && (forall v :: 0 <= v < |G| && ps.prev[v] != -1 ==>
          && ps.dist[v] < Infinity
          && ps.dist[v] >= ps.dist[ps.prev[v]] + WeightOf(G[ps.prev[v]], v))
  }

  /** Vertices with a predecessor, the predecessors and the queued values
      are reachable from `s`. */
  ghost predicate Rooted(G: Table, s: int, ps: Paths)
    requires Shaped(G, ps) && Ranged(G, ps)
  {
    && (forall v :: 0 <= v < |G| && ps.prev[v] != -1 ==> Reachable(G, s, v) && Reachable(G, s, ps.prev[v]))
    && (forall k :: 0 <= k < |ps.queue| ==> Reachable(G, s, ps.queue[k].value))
  }

  /** With nonnegative weights every distance is nonnegative while `s`
      keeps distance 0 and no predecessor. */
  ghost predicate Anchored(G: Table, s: int, ps: Paths)
    requires Shaped(G, ps) && 0 <= s < |G|
  {
    NonNegative(G) ==>
      && (forall v :: 0 <= v < |G| ==> ps.dist[v] >= 0)
      && ps.dist[s] == 0 && ps.prev[s] == -1
  }

  /** What every state of `dijkstra` from `s` satisfies. */
  ghost predicate Sound(G: Table, s: int, ps: Paths)
  {
    && Shaped(G, ps) && Ranged(G, ps) && 0 <= s < |G|
    && Chained(G, ps) && Rooted(G, s, ps) && Anchored(G, s, ps)
  }

  lemma DijkstraInitSound(G: Table, s: int)
    requires 0 <= s < |G|
    ensures Sound(G, s, DijkstraInit(G, s))
  {
    ReachableRefl(G, s);
  }

  /** Relaxing a stored edge keeps predecessor edges and distances
      consistent. */
  lemma RelaxEdgeChained(G: Table, u: int, ps: Paths, v: int)
    requires Shaped(G, ps) && Chained(G, ps) && 0 <= u < |G| && 0 <= v < |G| && HasDest(G[u], v)
    ensures Chained(G, RelaxEdge(G, u, ps, v))
  {
    var w := WeightOf(G[u], v);
    var d := ps.dist[u] + w;
    if ps.dist[v] > d {
      var r := RelaxEdge(G, u, ps, v);
      assert r.dist == ps.dist[v := d] && r.prev == ps.prev[v := u];
      forall x | 0 <= x < |G| && r.prev[x] != -1
        ensures r.dist[x] >= r.dist[r.prev[x]] + WeightOf(G[r.prev[x]], x)
      {
        if x != v {
          assert r.dist[x] == ps.dist[x];
        }
      }
    }
  }

  /** Relaxing a stored edge out of a reachable vertex keeps everything it
      records reachable. */
  lemma RelaxEdgeRooted(G: Table, s: int, u: int, ps: Paths, v: int)
    requires Shaped(G, ps) && Ranged(G, ps) && Rooted(G, s, ps) && 0 <= u < |G| && 0 <= v < |G|
    requires HasDest(G[u], v) && Reachable(G, s, u)
    ensures Ranged(G, RelaxEdge(G, u, ps, v)) && Rooted(G, s, RelaxEdge(G, u, ps, v))
  {
    ReachableStep(G, s, u, v);
  }

  /** With nonnegative weights relaxing never touches `s` and never makes
      a distance negative. */
  lemma RelaxEdgeAnchored(G: Table, s: int, u: int, ps: Paths, v: int)
    requires Shaped(G, ps) && 0 <= s < |G| && Anchored(G, s, ps) && 0 <= u < |G| && 0 <= v < |G|
    requires HasDest(G[u], v)
    ensures Anchored(G, s, RelaxEdge(G, u, ps, v))
  {
    if NonNegative(G) {
      assert WeightOf(G[u], v) == G[u][FirstIndex(G[u], v)].weight;
    }
  }

  /** Relaxing a stored edge out of a reachable vertex keeps the state
      sound. */
  lemma RelaxEdgeSound(G: Table, s: int, u: int, ps: Paths, v: int)
    requires Sound(G, s, ps) && 0 <= u < |G| && 0 <= v < |G|
    requires HasDest(G[u], v) && Reachable(G, s, u)
    ensures Sound(G, s, RelaxEdge(G, u, ps, v))
  {
    RelaxEdgeChained(G, u, ps, v);
    RelaxEdgeRooted(G, s, u, ps, v);
    RelaxEdgeAnchored(G, s, u, ps, v);
  }

  lemma {:induction false} RelaxScanSound(G: Table, s: int, u: int, ps: Paths, i: nat)
    requires DestsInRange(G) && Sound(G, s, ps) && 0 <= u < |G| && i <= |G[u]|
    requires Reachable(G, s, u)
    ensures Sound(G, s, RelaxScan(G, u, ps, i))
    decreases |G[u]| - i
  {
    if i < |G[u]| {
      var v := G[u][i].dest;
      assert HasDest(G[u], v);
      RelaxEdgeSound(G, s, u, ps, v);
      RelaxScanSound(G, s, u, RelaxEdge(G, u, ps, v), i + 1);
    }
  }

  lemma SettleSound(G: Table, s: int, ps: Paths)
    requires DestsInRange(G) && Sound(G, s, ps) && ps.queue != []
    ensures Sound(G, s, Settle(G, ps))
  {
    var m := MinIndex(ps.queue);
    var u := ps.queue[m].value;
    var rest := ps.(queue := SwapRemove(ps.queue, m));
    assert forall k :: 0 <= k < |rest.queue| ==> rest.queue[k] == ps.queue[if k == m then |ps.queue| - 1 else k];
    assert Sound(G, s, rest);
    if !ps.visited[u] {
      RelaxScanSound(G, s, u, rest.(visited := ps.visited[u := true]), 0);
    }
  }

  lemma {:induction false} DijkstraLoopSound(G: Table, s: int, ps: Paths)
    requires DestsInRange(G) && Sound(G, s, ps)
    ensures Sound(G, s, DijkstraLoop(G, ps))
    decreases Unvisited(ps.visited), |ps.queue|
  {
    if ps.queue != [] {
      SettleSound(G, s, ps);
      DijkstraLoopSound(G, s, Settle(G, ps));
    }
  }

  /** The final state of `dijkstra` is sound. */
  lemma DijkstraRunSound(G: Table, s: int)
    requires DestsInRange(G) && 0 <= s < |G|
    ensures Sound(G, s, DijkstraRun(G, s))
  {
    DijkstraInitSound(G, s);
    DijkstraLoopSound(G, s, DijkstraInit(G, s));
  }

  /** In the final state of `dijkstra` every predecessor is a stored
      neighbor, and a vertex with a predecessor and that predecessor are
      reachable from `s`. */
  lemma DijkstraRunLinks(G: Table, s: int)
    requires DestsInRange(G) && 0 <= s < |G|
    ensures ParentEdges(G, DijkstraRun(G, s).prev)
    ensures forall v :: 0 <= v < |G| && DijkstraRun(G, s).prev[v] != -1 ==>
      Reachable(G, s, v) && Reachable(G, s, DijkstraRun(G, s).prev[v])
  {
    DijkstraRunSound(G, s);
  }

  /** What `dijkstra` returns: a subgraph of the input holding exactly the
      edges (v, prev[v]); vertices unreachable from `s` get no edges. */
  lemma DijkstraTreeEdges(G: Table, s: int)
    requires Undirected(G) && 0 <= s < |G|
    ensures SubgraphOf(DijkstraTree(G, s), G)
    ensures PrevEdges(DijkstraTree(G, s), DijkstraRun(G, s).prev, 0)
    ensures ConfinedToReach(G, DijkstraTree(G, s), s)
  {
    DijkstraRunLinks(G, s);
    PredTreeShape(G, DijkstraRun(G, s).prev, 0, s);
  }

  /** The tree `dijkstra` returns holds one edge, two list nodes, per
      vertex with a predecessor. */
  lemma DijkstraTreeSize(G: Table, s: int)
    requires Undirected(G) && 0 <= s < |G|
    ensures TotalLength(DijkstraTree(G, s)) == 2 * ParentCount(DijkstraRun(G, s).prev, 0, |G|)
  {
    PredTreeTotal(G, DijkstraRun(G, s).prev, 0, |G|);
  }

  /** The distances `dijkstra` ends with: at most the initial ones; every
      vertex with a predecessor has a finite distance, at least its
      predecessor's plus their edge's weight; and with nonnegative
      weights `s` keeps distance 0 and gets no predecessor. */
  lemma DijkstraDistances(G: Table, s: int)
    requires DestsInRange(G) && 0 <= s < |G|
    ensures var r := DijkstraRun(G, s);
      && (forall v :: 0 <= v < |G| ==> r.dist[v] <= (if v == s then 0 else Infinity))
      && (forall v :: 0 <= v < |G| && r.prev[v] != -1 ==>
            r.dist[v] < Infinity && r.dist[v] >= r.dist[r.prev[v]] + WeightOf(G[r.prev[v]], v))
      && (NonNegative(G) ==> r.dist[s] == 0 && r.prev[s] == -1)
  {
    DijkstraRunSound(G, s);
    DijkstraLoopLowers(G, DijkstraInit(G, s));
  }
  /** A turn of the main loop marks the vertex it extracts and never
      clears a visited flag. */
  lemma SettleKeepsVisited(G: Table, ps: Paths, x: int)
    requires DestsInRange(G) && Shaped(G, ps) && Ranged(G, ps) && ps.queue != []
    requires 0 <= x < |G|
    ensures x == ps.queue[MinIndex(ps.queue)].value || ps.visited[x] ==> Settle(G, ps).visited[x]
  {
    var m := MinIndex(ps.queue);
    var u := ps.queue[m].value;
    var rest := ps.(queue := SwapRemove(ps.queue, m));
    if !ps.visited[u] {
      assert Settle(G, ps).visited == ps.visited[u := true];
    }
  }

  /** The main loop never clears a visited flag (line 121 only sets them). */
  lemma {:induction false} DijkstraLoopKeepsVisited(G: Table, ps: Paths, x: int)
    requires DestsInRange(G) && Shaped(G, ps) && Ranged(G, ps)
    requires 0 <= x < |G| && ps.visited[x]
    ensures DijkstraLoop(G, ps).visited[x]
    decreases Unvisited(ps.visited), |ps.queue|
  {
    if ps.queue != [] {
      SettleKeepsVisited(G, ps, x);
      DijkstraLoopKeepsVisited(G, Settle(G, ps), x);
    }
  }

  /** `dijkstra(g, s)` visits `s`: the first turn extracts the only queued
      pair (s, 0) and marks `s` (lines 119-121), and no turn unmarks it. */
  lemma DijkstraRunVisitsStart(G: Table, s: int)
    requires DestsInRange(G) && 0 <= s < |G|
    ensures DijkstraRun(G, s).visited[s]
  {
    var ps := DijkstraInit(G, s);
    assert ps.queue == [Item(s, 0)];
    assert DijkstraRun(G, s) == DijkstraLoop(G, Settle(G, ps));
    SettleKeepsVisited(G, ps, s);
    DijkstraLoopKeepsVisited(G, Settle(G, ps), s);
  }
}
