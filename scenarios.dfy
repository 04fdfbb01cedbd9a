/** Graphs the repository's test cases build, and what the model
    computes for them: the unweighted graph of the `bfs` and `dfs` cases,
    the weighted graph of the `dijkstra` case (Tests.cpp:108-126) turn by
    turn, and the weighted graph of the `prim` and `kruskal` cases
    (Tests.cpp:147-161 and 182-196). */
module Scenarios {
  import opened EdgeLists
  import opened Graphs
  import opened DataStructures
  import opened Reachability
  import opened Trees
  import opened Forests
  import opened ShortestPaths
  import opened SpanningTrees

  // ---------------------------------------------------------------------
  // The unweighted graph of the bfs and dfs cases (Tests.cpp:15-18, 61-64)

  /** `Graph g(4)` and three `addEdge` calls without a weight: every
      node carries the default weight 1. */
  method BuildBranching() returns (g: Graph)
    ensures g.Valid() && g.n == 4
    ensures g.Lists == [[Entry(2, 1), Entry(1, 1)], [Entry(3, 1), Entry(0, 1)], [Entry(0, 1)], [Entry(1, 1)]]
  {
    g := new Graph(4);
    ghost var L0 := g.Lists;
    var _ := g.AddEdge(0, 1);
    ghost var L1 := g.Lists;
    var _ := g.AddEdge(0, 2);
    ghost var L2 := g.Lists;
    var _ := g.AddEdge(1, 3);
    BranchingLists(L0, L1, L2, g.Lists);
  }

  lemma BranchingLists(L0: Table, L1: Table, L2: Table, L3: Table)
    requires L0 == NoEdges(4) && L1 == Graphs.Link(L0, 0, 1, 1) && L2 == Graphs.Link(L1, 0, 2, 1)
    requires L3 == Graphs.Link(L2, 1, 3, 1)
    ensures L3 == [[Entry(2, 1), Entry(1, 1)], [Entry(3, 1), Entry(0, 1)], [Entry(0, 1)], [Entry(1, 1)]]
  {
    assert L3[0] == [Entry(2, 1), Entry(1, 1)];
    assert L3[1] == [Entry(3, 1), Entry(0, 1)];
    assert L3[2] == [Entry(0, 1)];
    assert L3[3] == [Entry(1, 1)];
  }

  // ---------------------------------------------------------------------
  // dijkstra(g, 0) on the graph of Tests.cpp:110-116

  /** The lists after `Graph g(5)` and the six `addEdge` calls at
      Tests.cpp:110-116: each call puts its nodes at the heads. */
  const RouteLists: Table := [
    [Entry(2, 5), Entry(1, 2)],
    [Entry(3, 2), Entry(2, 1), Entry(0, 2)],
    [Entry(4, 1), Entry(1, 1), Entry(0, 5)],
    [Entry(4, 3), Entry(1, 2)],
    [Entry(3, 3), Entry(2, 1)]]

  /** The six calls keep the graph invariant. */
  lemma RouteChainUndirected()
    ensures Undirected(Graphs.Link(Graphs.Link(Graphs.Link(Graphs.Link(Graphs.Link(Graphs.Link(NoEdges(5), 0, 1, 2), 0, 2, 5), 1, 2, 1), 1, 3, 2), 2, 4, 1), 3, 4, 3))
  {
    var L0 := NoEdges(5);
    var L1 := Graphs.Link(L0, 0, 1, 2);
    var L2 := Graphs.Link(L1, 0, 2, 5);
    var L3 := Graphs.Link(L2, 1, 2, 1);
    var L4 := Graphs.Link(L3, 1, 3, 2);
    var L5 := Graphs.Link(L4, 2, 4, 1);
    var L6 := Graphs.Link(L5, 3, 4, 3);
    EmptyUndirected(5);
    LinkUndirected(L0, 0, 1, 2);
    LinkUndirected(L1, 0, 2, 5);
    LinkUndirected(L2, 1, 2, 1);
    LinkUndirected(L3, 1, 3, 2);
    LinkUndirected(L4, 2, 4, 1);
    LinkUndirected(L5, 3, 4, 3);
  }

  lemma RouteChainLists()
    ensures Graphs.Link(Graphs.Link(Graphs.Link(Graphs.Link(Graphs.Link(Graphs.Link(NoEdges(5), 0, 1, 2), 0, 2, 5), 1, 2, 1), 1, 3, 2), 2, 4, 1), 3, 4, 3)
      == RouteLists
  {
    var L0 := NoEdges(5);
    var L1 := Graphs.Link(L0, 0, 1, 2);
    var L2 := Graphs.Link(L1, 0, 2, 5);
    var L3 := Graphs.Link(L2, 1, 2, 1);
    var L4 := Graphs.Link(L3, 1, 3, 2);
    var L5 := Graphs.Link(L4, 2, 4, 1);
    var L6 := Graphs.Link(L5, 3, 4, 3);
    assert L6[0] == RouteLists[0];
    assert L6[1] == RouteLists[1];
    assert L6[2] == RouteLists[2];
    assert L6[3] == RouteLists[3];
    assert L6[4] == RouteLists[4];
  }

  /** The six calls build exactly these lists, which keep the graph
      invariant. */
  lemma RouteListsBuilt()
    ensures Graphs.Link(Graphs.Link(Graphs.Link(Graphs.Link(Graphs.Link(Graphs.Link(NoEdges(5), 0, 1, 2), 0, 2, 5), 1, 2, 1), 1, 3, 2), 2, 4, 1), 3, 4, 3)
      == RouteLists
    ensures Undirected(RouteLists)
  {
    RouteChainUndirected();
    RouteChainLists();
  }
  /** The states of `dijkstra(g, 0)` before each turn of the loop at
      lines 118-136: `s` is settled first, then 1, 2, 3 and 4, and the
      last turn pops the stale pair (2, 5). */
  /** The edges of the expected tree, both directions. */
  const RouteTreeEdges: set<(int, int)> := {(0, 1), (1, 0), (1, 2), (2, 1), (1, 3), (3, 1), (2, 4), (4, 2)}

  const RouteTurns: seq<Paths> := [
    Paths([false, false, false, false, false], [0, Infinity, Infinity, Infinity, Infinity],
          [-1, -1, -1, -1, -1], [Item(0, 0)]),
    Paths([true, false, false, false, false], [0, 2, 5, Infinity, Infinity],
          [-1, 0, 0, -1, -1], [Item(2, 5), Item(1, 2)]),
    Paths([true, true, false, false, false], [0, 2, 3, 4, Infinity],
          [-1, 0, 1, 1, -1], [Item(2, 5), Item(3, 4), Item(2, 3)]),
    Paths([true, true, true, false, false], [0, 2, 3, 4, 4],
          [-1, 0, 1, 1, 2], [Item(2, 5), Item(3, 4), Item(4, 4)]),
    Paths([true, true, true, true, false], [0, 2, 3, 4, 4],
          [-1, 0, 1, 1, 2], [Item(2, 5), Item(4, 4)]),
    Paths([true, true, true, true, true], [0, 2, 3, 4, 4],
          [-1, 0, 1, 1, 2], [Item(2, 5)]),
    Paths([true, true, true, true, true], [0, 2, 3, 4, 4],
          [-1, 0, 1, 1, 2], [])]

  /** Each turn takes the state listed before it to the next one. */
  lemma RouteTurn0()
    requires DestsInRange(RouteLists)
    ensures Settle(RouteLists, RouteTurns[0]) == RouteTurns[1]
  {
    var G, ps := RouteLists, RouteTurns[0];
    assert MinIndex(ps.queue) == 0;
    assert SwapRemove(ps.queue, 0) == [];
    var p0 := Paths([true, false, false, false, false], [0, Infinity, Infinity, Infinity, Infinity], [-1, -1, -1, -1, -1], []);
    assert ps.(queue := SwapRemove(ps.queue, 0)).(visited := ps.visited[0 := true]) == p0;
    assert G[0] == [Entry(2, 5), Entry(1, 2)];
    assert WeightOf(G[0], 2) == 5;
    var p1 := Paths([true, false, false, false, false], [0, Infinity, 5, Infinity, Infinity], [-1, -1, 0, -1, -1], [Item(2, 5)]);
    assert RelaxEdge(G, 0, p0, 2) == p1;
    assert WeightOf(G[0], 1) == 2;
    var p2 := Paths([true, false, false, false, false], [0, 2, 5, Infinity, Infinity], [-1, 0, 0, -1, -1], [Item(2, 5), Item(1, 2)]);
    assert RelaxEdge(G, 0, p1, 1) == p2;
    assert RelaxScan(G, 0, p2, 2) == p2;
    assert RelaxScan(G, 0, p1, 1) == p2;
    assert RelaxScan(G, 0, p0, 0) == p2;
  }

  lemma RouteTurn1()
    requires DestsInRange(RouteLists)
    ensures Settle(RouteLists, RouteTurns[1]) == RouteTurns[2]
  {
    var G, ps := RouteLists, RouteTurns[1];
    assert MinIndex(ps.queue) == 1;
    assert SwapRemove(ps.queue, 1) == [Item(2, 5)];
    var p0 := Paths([true, true, false, false, false], [0, 2, 5, Infinity, Infinity], [-1, 0, 0, -1, -1], [Item(2, 5)]);
    assert ps.(queue := SwapRemove(ps.queue, 1)).(visited := ps.visited[1 := true]) == p0;
    assert G[1] == [Entry(3, 2), Entry(2, 1), Entry(0, 2)];
    assert WeightOf(G[1], 3) == 2;
    var p1 := Paths([true, true, false, false, false], [0, 2, 5, 4, Infinity], [-1, 0, 0, 1, -1], [Item(2, 5), Item(3, 4)]);
    assert RelaxEdge(G, 1, p0, 3) == p1;
    assert WeightOf(G[1], 2) == 1;
    var p2 := Paths([true, true, false, false, false], [0, 2, 3, 4, Infinity], [-1, 0, 1, 1, -1], [Item(2, 5), Item(3, 4), Item(2, 3)]);
    assert RelaxEdge(G, 1, p1, 2) == p2;
    assert WeightOf(G[1], 0) == 2;
    var p3 := Paths([true, true, false, false, false], [0, 2, 3, 4, Infinity], [-1, 0, 1, 1, -1], [Item(2, 5), Item(3, 4), Item(2, 3)]);
    assert RelaxEdge(G, 1, p2, 0) == p3;
    assert RelaxScan(G, 1, p3, 3) == p3;
    assert RelaxScan(G, 1, p2, 2) == p3;
    assert RelaxScan(G, 1, p1, 1) == p3;
    assert RelaxScan(G, 1, p0, 0) == p3;
  }

  lemma RouteTurn2()
    requires DestsInRange(RouteLists)
    ensures Settle(RouteLists, RouteTurns[2]) == RouteTurns[3]
  {
    var G, ps := RouteLists, RouteTurns[2];
    assert MinIndex(ps.queue) == 2;
    assert SwapRemove(ps.queue, 2) == [Item(2, 5), Item(3, 4)];
    var p0 := Paths([true, true, true, false, false], [0, 2, 3, 4, Infinity], [-1, 0, 1, 1, -1], [Item(2, 5), Item(3, 4)]);
    assert ps.(queue := SwapRemove(ps.queue, 2)).(visited := ps.visited[2 := true]) == p0;
    assert G[2] == [Entry(4, 1), Entry(1, 1), Entry(0, 5)];
    assert WeightOf(G[2], 4) == 1;
    var p1 := Paths([true, true, true, false, false], [0, 2, 3, 4, 4], [-1, 0, 1, 1, 2], [Item(2, 5), Item(3, 4), Item(4, 4)]);
    assert RelaxEdge(G, 2, p0, 4) == p1;
    assert WeightOf(G[2], 1) == 1;
    var p2 := Paths([true, true, true, false, false], [0, 2, 3, 4, 4], [-1, 0, 1, 1, 2], [Item(2, 5), Item(3, 4), Item(4, 4)]);
    assert RelaxEdge(G, 2, p1, 1) == p2;
    assert WeightOf(G[2], 0) == 5;
    var p3 := Paths([true, true, true, false, false], [0, 2, 3, 4, 4], [-1, 0, 1, 1, 2], [Item(2, 5), Item(3, 4), Item(4, 4)]);
    assert RelaxEdge(G, 2, p2, 0) == p3;
    assert RelaxScan(G, 2, p3, 3) == p3;
    assert RelaxScan(G, 2, p2, 2) == p3;
    assert RelaxScan(G, 2, p1, 1) == p3;
    assert RelaxScan(G, 2, p0, 0) == p3;
  }

  lemma RouteTurn3()
    requires DestsInRange(RouteLists)
    ensures Settle(RouteLists, RouteTurns[3]) == RouteTurns[4]
  {
    var G, ps := RouteLists, RouteTurns[3];
    assert MinIndex(ps.queue) == 1;
    assert SwapRemove(ps.queue, 1) == [Item(2, 5), Item(4, 4)];
    var p0 := Paths([true, true, true, true, false], [0, 2, 3, 4, 4], [-1, 0, 1, 1, 2], [Item(2, 5), Item(4, 4)]);
    assert ps.(queue := SwapRemove(ps.queue, 1)).(visited := ps.visited[3 := true]) == p0;
    assert G[3] == [Entry(4, 3), Entry(1, 2)];
    assert WeightOf(G[3], 4) == 3;
    var p1 := Paths([true, true, true, true, false], [0, 2, 3, 4, 4], [-1, 0, 1, 1, 2], [Item(2, 5), Item(4, 4)]);
    assert RelaxEdge(G, 3, p0, 4) == p1;
    assert WeightOf(G[3], 1) == 2;
    var p2 := Paths([true, true, true, true, false], [0, 2, 3, 4, 4], [-1, 0, 1, 1, 2], [Item(2, 5), Item(4, 4)]);
    assert RelaxEdge(G, 3, p1, 1) == p2;
    assert RelaxScan(G, 3, p2, 2) == p2;
    assert RelaxScan(G, 3, p1, 1) == p2;
    assert RelaxScan(G, 3, p0, 0) == p2;
  }

  lemma RouteTurn4()
    requires DestsInRange(RouteLists)
    ensures Settle(RouteLists, RouteTurns[4]) == RouteTurns[5]
  {
    var G, ps := RouteLists, RouteTurns[4];
    assert MinIndex(ps.queue) == 1;
    assert SwapRemove(ps.queue, 1) == [Item(2, 5)];
    var p0 := Paths([true, true, true, true, true], [0, 2, 3, 4, 4], [-1, 0, 1, 1, 2], [Item(2, 5)]);
    assert ps.(queue := SwapRemove(ps.queue, 1)).(visited := ps.visited[4 := true]) == p0;
    assert G[4] == [Entry(3, 3), Entry(2, 1)];
    assert WeightOf(G[4], 3) == 3;
    var p1 := Paths([true, true, true, true, true], [0, 2, 3, 4, 4], [-1, 0, 1, 1, 2], [Item(2, 5)]);
    assert RelaxEdge(G, 4, p0, 3) == p1;
    assert WeightOf(G[4], 2) == 1;
    var p2 := Paths([true, true, true, true, true], [0, 2, 3, 4, 4], [-1, 0, 1, 1, 2], [Item(2, 5)]);
    assert RelaxEdge(G, 4, p1, 2) == p2;
    assert RelaxScan(G, 4, p2, 2) == p2;
    assert RelaxScan(G, 4, p1, 1) == p2;
    assert RelaxScan(G, 4, p0, 0) == p2;
  }

  lemma RouteTurn5()
    requires DestsInRange(RouteLists)
    ensures Settle(RouteLists, RouteTurns[5]) == RouteTurns[6]
  {
    var G, ps := RouteLists, RouteTurns[5];
    assert MinIndex(ps.queue) == 0;
    assert SwapRemove(ps.queue, 0) == [];
  }
  lemma RouteInit()
    ensures DijkstraInit(RouteLists, 0) == RouteTurns[0]
  {
    var ps := DijkstraInit(RouteLists, 0);
    assert ps.visited == RouteTurns[0].visited;
    assert ps.dist == RouteTurns[0].dist;
    assert ps.prev == RouteTurns[0].prev;
    assert ps.queue == RouteTurns[0].queue;
  }

  /** A state with a nonempty queue loops on after one turn. */
  lemma RouteLoopStep(k: nat)
    requires DestsInRange(RouteLists) && k < 6
    ensures DijkstraLoop(RouteLists, RouteTurns[k]) == DijkstraLoop(RouteLists, Settle(RouteLists, RouteTurns[k]))
  {
  }

  /** From the state before each turn the loop reaches the final state
      (one turn per lemma, from the last turn back). */
  lemma RouteFrom5()
    requires DestsInRange(RouteLists)
    ensures DijkstraLoop(RouteLists, RouteTurns[5]) == RouteTurns[6]
  {
    RouteTurn5();
    RouteLoopStep(5);
  }

  lemma RouteFrom4()
    requires DestsInRange(RouteLists)
    ensures DijkstraLoop(RouteLists, RouteTurns[4]) == RouteTurns[6]
  {
    RouteTurn4();
    RouteLoopStep(4);
    RouteFrom5();
  }

  lemma RouteFrom3()
    requires DestsInRange(RouteLists)
    ensures DijkstraLoop(RouteLists, RouteTurns[3]) == RouteTurns[6]
  {
    RouteTurn3();
    RouteLoopStep(3);
    RouteFrom4();
  }

  lemma RouteFrom2()
    requires DestsInRange(RouteLists)
    ensures DijkstraLoop(RouteLists, RouteTurns[2]) == RouteTurns[6]
  {
    RouteTurn2();
    RouteLoopStep(2);
    RouteFrom3();
  }

  lemma RouteFrom1()
    requires DestsInRange(RouteLists)
    ensures DijkstraLoop(RouteLists, RouteTurns[1]) == RouteTurns[6]
  {
    RouteTurn1();
    RouteLoopStep(1);
    RouteFrom2();
  }

  lemma RouteFrom0()
    requires DestsInRange(RouteLists)
    ensures DijkstraLoop(RouteLists, RouteTurns[0]) == RouteTurns[6]
  {
    RouteTurn0();
    RouteLoopStep(0);
    RouteFrom1();
  }

  /** `dijkstra(g, 0)` on this graph stops after six turns with the
      distances [0, 2, 3, 4, 4] and the predecessors [-1, 0, 1, 1, 2]. */
  lemma DijkstraRouteRun()
    ensures Undirected(RouteLists)
    ensures DijkstraRun(RouteLists, 0).dist == [0, 2, 3, 4, 4]
    ensures DijkstraRun(RouteLists, 0).prev == [-1, 0, 1, 1, 2]
  {
    RouteListsBuilt();
    RouteInit();
    RouteFrom0();
  }

  /** A vertex pair is an edge of the expected tree exactly when one is
      the other's predecessor. */
  lemma RouteTreeByPrev(x: int, y: int)
    requires 0 <= x < 5 && 0 <= y < 5
    ensures var prev := [-1, 0, 1, 1, 2]; prev[x] == y || prev[y] == x <==> (x, y) in RouteTreeEdges
  {
  }

  /** The tree `dijkstra(g, 0)` returns on this graph joins exactly
      0-1, 1-2, 1-3 and 2-4; in particular not 0-2. */
  lemma DijkstraRouteTree()
    ensures Undirected(RouteLists)
    ensures forall x, y :: 0 <= x < 5 && 0 <= y < 5 ==>
      (HasDest(DijkstraTree(RouteLists, 0)[x], y) <==> (x, y) in RouteTreeEdges)
  {
    DijkstraRouteRun();
    DijkstraRunLinks(RouteLists, 0);
    var prev := DijkstraRun(RouteLists, 0).prev;
    assert DijkstraTree(RouteLists, 0) == PredTree(RouteLists, prev, 0, 5);
    forall x, y | 0 <= x < 5 && 0 <= y < 5
      ensures HasDest(DijkstraTree(RouteLists, 0)[x], y) <==> (x, y) in RouteTreeEdges
    {
      PredTreeEdges(RouteLists, prev, 0, 5, x, y);
      RouteTreeByPrev(x, y);
    }
  }
  // ---------------------------------------------------------------------
  // prim(g) on the graph of Tests.cpp:149-155

  /** The lists after `Graph g(5)` and the six `addEdge` calls at
      Tests.cpp:149-155 (the graph of Tests.cpp:184-190 too). */
  const SpanLists: Table := [
    [Entry(3, 1), Entry(1, 3)],
    [Entry(3, 3), Entry(2, 1), Entry(0, 3)],
    [Entry(4, 5), Entry(1, 1)],
    [Entry(4, 6), Entry(1, 3), Entry(0, 1)],
    [Entry(3, 6), Entry(2, 5)]]

  /** The six calls keep the graph invariant. */
  lemma SpanChainUndirected()
    ensures Undirected(Graphs.Link(Graphs.Link(Graphs.Link(Graphs.Link(Graphs.Link(Graphs.Link(NoEdges(5), 0, 1, 3), 0, 3, 1), 1, 2, 1), 1, 3, 3), 2, 4, 5), 3, 4, 6))
  {
    var L0 := NoEdges(5);
    var L1 := Graphs.Link(L0, 0, 1, 3);
    var L2 := Graphs.Link(L1, 0, 3, 1);
    var L3 := Graphs.Link(L2, 1, 2, 1);
    var L4 := Graphs.Link(L3, 1, 3, 3);
    var L5 := Graphs.Link(L4, 2, 4, 5);
    var L6 := Graphs.Link(L5, 3, 4, 6);
    EmptyUndirected(5);
    LinkUndirected(L0, 0, 1, 3);
    LinkUndirected(L1, 0, 3, 1);
    LinkUndirected(L2, 1, 2, 1);
    LinkUndirected(L3, 1, 3, 3);
    LinkUndirected(L4, 2, 4, 5);
    LinkUndirected(L5, 3, 4, 6);
  }

  lemma SpanChainLists()
    ensures Graphs.Link(Graphs.Link(Graphs.Link(Graphs.Link(Graphs.Link(Graphs.Link(NoEdges(5), 0, 1, 3), 0, 3, 1), 1, 2, 1), 1, 3, 3), 2, 4, 5), 3, 4, 6)
      == SpanLists
  {
    var L0 := NoEdges(5);
    var L1 := Graphs.Link(L0, 0, 1, 3);
    var L2 := Graphs.Link(L1, 0, 3, 1);
    var L3 := Graphs.Link(L2, 1, 2, 1);
    var L4 := Graphs.Link(L3, 1, 3, 3);
    var L5 := Graphs.Link(L4, 2, 4, 5);
    var L6 := Graphs.Link(L5, 3, 4, 6);
    assert L6[0] == SpanLists[0];
    assert L6[1] == SpanLists[1];
    assert L6[2] == SpanLists[2];
    assert L6[3] == SpanLists[3];
    assert L6[4] == SpanLists[4];
  }

  /** The six calls build exactly these lists, which keep the graph
      invariant. */
  lemma SpanListsBuilt()
    ensures Graphs.Link(Graphs.Link(Graphs.Link(Graphs.Link(Graphs.Link(Graphs.Link(NoEdges(5), 0, 1, 3), 0, 3, 1), 1, 2, 1), 1, 3, 3), 2, 4, 5), 3, 4, 6)
      == SpanLists
    ensures Undirected(SpanLists)
  {
    SpanChainUndirected();
    SpanChainLists();
  }

  /** The states of `prim(g)` before each turn of the loop at lines
      175-192: 0 joins the tree first, then 3, 1, 2 and 4, and the last
      turn pops the stale pair (4, 6). */
  const SpanTurns: seq<Paths> := [
    Paths([false, false, false, false, false], [0, Infinity, Infinity, Infinity, Infinity],
          [-1, -1, -1, -1, -1], [Item(0, 0)]),
    Paths([true, false, false, false, false], [0, 3, Infinity, 1, Infinity],
          [-1, 0, -1, 0, -1], [Item(3, 1), Item(1, 3)]),
    Paths([true, false, false, true, false], [0, 3, Infinity, 1, 6],
          [-1, 0, -1, 0, 3], [Item(1, 3), Item(4, 6)]),
    Paths([true, true, false, true, false], [0, 3, 1, 1, 6],
          [-1, 0, 1, 0, 3], [Item(4, 6), Item(2, 1)]),
    Paths([true, true, true, true, false], [0, 3, 1, 1, 5],
          [-1, 0, 1, 0, 2], [Item(4, 6), Item(4, 5)]),
    Paths([true, true, true, true, true], [0, 3, 1, 1, 5],
          [-1, 0, 1, 0, 2], [Item(4, 6)]),
    Paths([true, true, true, true, true], [0, 3, 1, 1, 5],
          [-1, 0, 1, 0, 2], [])]

  /** Each turn takes the state listed before it to the next one. */
  lemma SpanTurn0()
    requires DestsInRange(SpanLists)
    requires Scanned(SpanLists, SpanTurns[0])
    ensures Grow(SpanLists, SpanTurns[0]) == SpanTurns[1]
  {
    var G, ps := SpanLists, SpanTurns[0];
    assert MinIndex(ps.queue) == 0;
    assert SwapRemove(ps.queue, 0) == [];
    var p0 := Paths([true, false, false, false, false], [0, Infinity, Infinity, Infinity, Infinity], [-1, -1, -1, -1, -1], []);
    assert ps.(queue := SwapRemove(ps.queue, 0)).(visited := ps.visited[0 := true]) == p0;
    assert G[0] == [Entry(3, 1), Entry(1, 3)];
    assert WeightOf(G[0], 3) == 1;
    var p1 := Paths([true, false, false, false, false], [0, Infinity, Infinity, 1, Infinity], [-1, -1, -1, 0, -1], [Item(3, 1)]);
    assert LightenEdge(G, 0, p0, 3) == p1;
    assert WeightOf(G[0], 1) == 3;
    var p2 := Paths([true, false, false, false, false], [0, 3, Infinity, 1, Infinity], [-1, 0, -1, 0, -1], [Item(3, 1), Item(1, 3)]);
    assert LightenEdge(G, 0, p1, 1) == p2;
    assert LightenScan(G, 0, p2, 2) == p2;
    assert LightenScan(G, 0, p1, 1) == p2;
    assert LightenScan(G, 0, p0, 0) == p2;
  }

  lemma SpanTurn1()
    requires DestsInRange(SpanLists)
    requires Scanned(SpanLists, SpanTurns[1])
    ensures Grow(SpanLists, SpanTurns[1]) == SpanTurns[2]
  {
    var G, ps := SpanLists, SpanTurns[1];
    assert MinIndex(ps.queue) == 0;
    assert SwapRemove(ps.queue, 0) == [Item(1, 3)];
    var p0 := Paths([true, false, false, true, false], [0, 3, Infinity, 1, Infinity], [-1, 0, -1, 0, -1], [Item(1, 3)]);
    assert ps.(queue := SwapRemove(ps.queue, 0)).(visited := ps.visited[3 := true]) == p0;
    assert G[3] == [Entry(4, 6), Entry(1, 3), Entry(0, 1)];
    assert WeightOf(G[3], 4) == 6;
    var p1 := Paths([true, false, false, true, false], [0, 3, Infinity, 1, 6], [-1, 0, -1, 0, 3], [Item(1, 3), Item(4, 6)]);
    assert LightenEdge(G, 3, p0, 4) == p1;
    assert WeightOf(G[3], 1) == 3;
    var p2 := Paths([true, false, false, true, false], [0, 3, Infinity, 1, 6], [-1, 0, -1, 0, 3], [Item(1, 3), Item(4, 6)]);
    assert LightenEdge(G, 3, p1, 1) == p2;
    assert WeightOf(G[3], 0) == 1;
    var p3 := Paths([true, false, false, true, false], [0, 3, Infinity, 1, 6], [-1, 0, -1, 0, 3], [Item(1, 3), Item(4, 6)]);
    assert LightenEdge(G, 3, p2, 0) == p3;
    assert LightenScan(G, 3, p3, 3) == p3;
    assert LightenScan(G, 3, p2, 2) == p3;
    assert LightenScan(G, 3, p1, 1) == p3;
    assert LightenScan(G, 3, p0, 0) == p3;
  }

  lemma SpanTurn2()
    requires DestsInRange(SpanLists)
    requires Scanned(SpanLists, SpanTurns[2])
    ensures Grow(SpanLists, SpanTurns[2]) == SpanTurns[3]
  {
    var G, ps := SpanLists, SpanTurns[2];
    assert MinIndex(ps.queue) == 0;
    assert SwapRemove(ps.queue, 0) == [Item(4, 6)];
    var p0 := Paths([true, true, false, true, false], [0, 3, Infinity, 1, 6], [-1, 0, -1, 0, 3], [Item(4, 6)]);
    assert ps.(queue := SwapRemove(ps.queue, 0)).(visited := ps.visited[1 := true]) == p0;
    assert G[1] == [Entry(3, 3), Entry(2, 1), Entry(0, 3)];
    assert WeightOf(G[1], 3) == 3;
    var p1 := Paths([true, true, false, true, false], [0, 3, Infinity, 1, 6], [-1, 0, -1, 0, 3], [Item(4, 6)]);
    assert LightenEdge(G, 1, p0, 3) == p1;
    assert WeightOf(G[1], 2) == 1;
    var p2 := Paths([true, true, false, true, false], [0, 3, 1, 1, 6], [-1, 0, 1, 0, 3], [Item(4, 6), Item(2, 1)]);
    assert LightenEdge(G, 1, p1, 2) == p2;
    assert WeightOf(G[1], 0) == 3;
    var p3 := Paths([true, true, false, true, false], [0, 3, 1, 1, 6], [-1, 0, 1, 0, 3], [Item(4, 6), Item(2, 1)]);
    assert LightenEdge(G, 1, p2, 0) == p3;
    assert LightenScan(G, 1, p3, 3) == p3;
    assert LightenScan(G, 1, p2, 2) == p3;
    assert LightenScan(G, 1, p1, 1) == p3;
    assert LightenScan(G, 1, p0, 0) == p3;
  }

  lemma SpanTurn3()
    requires DestsInRange(SpanLists)
    requires Scanned(SpanLists, SpanTurns[3])
    ensures Grow(SpanLists, SpanTurns[3]) == SpanTurns[4]
  {
    var G, ps := SpanLists, SpanTurns[3];
    assert MinIndex(ps.queue) == 1;
    assert SwapRemove(ps.queue, 1) == [Item(4, 6)];
    var p0 := Paths([true, true, true, true, false], [0, 3, 1, 1, 6], [-1, 0, 1, 0, 3], [Item(4, 6)]);
    assert ps.(queue := SwapRemove(ps.queue, 1)).(visited := ps.visited[2 := true]) == p0;
    assert G[2] == [Entry(4, 5), Entry(1, 1)];
    assert WeightOf(G[2], 4) == 5;
    var p1 := Paths([true, true, true, true, false], [0, 3, 1, 1, 5], [-1, 0, 1, 0, 2], [Item(4, 6), Item(4, 5)]);
    assert LightenEdge(G, 2, p0, 4) == p1;
    assert WeightOf(G[2], 1) == 1;
    var p2 := Paths([true, true, true, true, false], [0, 3, 1, 1, 5], [-1, 0, 1, 0, 2], [Item(4, 6), Item(4, 5)]);
    assert LightenEdge(G, 2, p1, 1) == p2;
    assert LightenScan(G, 2, p2, 2) == p2;
    assert LightenScan(G, 2, p1, 1) == p2;
    assert LightenScan(G, 2, p0, 0) == p2;
  }

  lemma SpanTurn4()
    requires DestsInRange(SpanLists)
    requires Scanned(SpanLists, SpanTurns[4])
    ensures Grow(SpanLists, SpanTurns[4]) == SpanTurns[5]
  {
    var G, ps := SpanLists, SpanTurns[4];
    assert MinIndex(ps.queue) == 1;
    assert SwapRemove(ps.queue, 1) == [Item(4, 6)];
    var p0 := Paths([true, true, true, true, true], [0, 3, 1, 1, 5], [-1, 0, 1, 0, 2], [Item(4, 6)]);
    assert ps.(queue := SwapRemove(ps.queue, 1)).(visited := ps.visited[4 := true]) == p0;
    assert G[4] == [Entry(3, 6), Entry(2, 5)];
    assert WeightOf(G[4], 3) == 6;
    var p1 := Paths([true, true, true, true, true], [0, 3, 1, 1, 5], [-1, 0, 1, 0, 2], [Item(4, 6)]);
    assert LightenEdge(G, 4, p0, 3) == p1;
    assert WeightOf(G[4], 2) == 5;
    var p2 := Paths([true, true, true, true, true], [0, 3, 1, 1, 5], [-1, 0, 1, 0, 2], [Item(4, 6)]);
    assert LightenEdge(G, 4, p1, 2) == p2;
    assert LightenScan(G, 4, p2, 2) == p2;
    assert LightenScan(G, 4, p1, 1) == p2;
    assert LightenScan(G, 4, p0, 0) == p2;
  }

  lemma SpanTurn5()
    requires DestsInRange(SpanLists)
    requires Scanned(SpanLists, SpanTurns[5])
    ensures Grow(SpanLists, SpanTurns[5]) == SpanTurns[6]
  {
    var G, ps := SpanLists, SpanTurns[5];
    assert MinIndex(ps.queue) == 0;
    assert SwapRemove(ps.queue, 0) == [];
    var p0 := Paths([true, true, true, true, true], [0, 3, 1, 1, 5], [-1, 0, 1, 0, 2], []);
    assert ps.(queue := SwapRemove(ps.queue, 0)).(visited := ps.visited[4 := true]) == p0;
    assert G[4] == [Entry(3, 6), Entry(2, 5)];
    assert WeightOf(G[4], 3) == 6;
    var p1 := Paths([true, true, true, true, true], [0, 3, 1, 1, 5], [-1, 0, 1, 0, 2], []);
    assert LightenEdge(G, 4, p0, 3) == p1;
    assert WeightOf(G[4], 2) == 5;
    var p2 := Paths([true, true, true, true, true], [0, 3, 1, 1, 5], [-1, 0, 1, 0, 2], []);
    assert LightenEdge(G, 4, p1, 2) == p2;
    assert LightenScan(G, 4, p2, 2) == p2;
    assert LightenScan(G, 4, p1, 1) == p2;
    assert LightenScan(G, 4, p0, 0) == p2;
  }

  /** A state with a nonempty queue loops on after one turn. */
  lemma SpanLoopStep(k: nat)
    requires k < 6 && DestsInRange(SpanLists) && Scanned(SpanLists, SpanTurns[k])
    ensures PrimLoop(SpanLists, SpanTurns[k]) == PrimLoop(SpanLists, Grow(SpanLists, SpanTurns[k]))
  {
  }

  lemma SpanInit()
    ensures DijkstraInit(SpanLists, 0) == SpanTurns[0]
  {
    var ps := DijkstraInit(SpanLists, 0);
    assert ps.visited == SpanTurns[0].visited;
    assert ps.dist == SpanTurns[0].dist;
    assert ps.prev == SpanTurns[0].prev;
    assert ps.queue == SpanTurns[0].queue;
  }

  /** From the state before each turn the loop reaches the final state
      (one turn per lemma, from the last turn back). */
  lemma SpanFrom5()
    requires DestsInRange(SpanLists) && Scanned(SpanLists, SpanTurns[5])
    ensures PrimLoop(SpanLists, SpanTurns[5]) == SpanTurns[6]
  {
    SpanTurn5();
    SpanLoopStep(5);
  }

  lemma SpanFrom4()
    requires DestsInRange(SpanLists) && Scanned(SpanLists, SpanTurns[4])
    ensures PrimLoop(SpanLists, SpanTurns[4]) == SpanTurns[6]
  {
    SpanTurn4();
    SpanLoopStep(4);
    SpanFrom5();
  }

  lemma SpanFrom3()
    requires DestsInRange(SpanLists) && Scanned(SpanLists, SpanTurns[3])
    ensures PrimLoop(SpanLists, SpanTurns[3]) == SpanTurns[6]
  {
    SpanTurn3();
    SpanLoopStep(3);
    SpanFrom4();
  }

  lemma SpanFrom2()
    requires DestsInRange(SpanLists) && Scanned(SpanLists, SpanTurns[2])
    ensures PrimLoop(SpanLists, SpanTurns[2]) == SpanTurns[6]
  {
    SpanTurn2();
    SpanLoopStep(2);
    SpanFrom3();
  }

  lemma SpanFrom1()
    requires DestsInRange(SpanLists) && Scanned(SpanLists, SpanTurns[1])
    ensures PrimLoop(SpanLists, SpanTurns[1]) == SpanTurns[6]
  {
    SpanTurn1();
    SpanLoopStep(1);
    SpanFrom2();
  }

  lemma SpanFrom0()
    requires DestsInRange(SpanLists) && Scanned(SpanLists, SpanTurns[0])
    ensures PrimLoop(SpanLists, SpanTurns[0]) == SpanTurns[6]
  {
    SpanTurn0();
    SpanLoopStep(0);
    SpanFrom1();
  }

  /** `prim(g)` on this graph stops after six turns with every vertex in
      the tree, the keys [0, 3, 1, 1, 5] and the parents [-1, 0, 1, 0, 2]. */
  lemma PrimSpanRun()
    ensures Undirected(SpanLists)
    ensures PrimRun(SpanLists).visited == [true, true, true, true, true]
    ensures PrimRun(SpanLists).dist == [0, 3, 1, 1, 5]
    ensures PrimRun(SpanLists).prev == [-1, 0, 1, 0, 2]
  {
    SpanListsBuilt();
    SpanInit();
    SpanFrom0();
  }

  /** The edges of the expected tree, both directions. */
  const SpanTreeEdges: set<(int, int)> := {(0, 1), (1, 0), (1, 2), (2, 1), (0, 3), (3, 0), (2, 4), (4, 2)}

  /** A vertex pair is an edge of the expected tree exactly when one is
      the other's parent. */
  lemma SpanTreeByPrev(x: int, y: int)
    requires 0 <= x < 5 && 0 <= y < 5
    ensures var prev := [-1, 0, 1, 0, 2];
      (1 <= x && prev[x] == y) || (1 <= y && prev[y] == x) <==> (x, y) in SpanTreeEdges
  {
  }

  /** The tree `prim(g)` returns on this graph joins exactly 0-1, 1-2,
      0-3 and 2-4. */
  lemma PrimSpanTree()
    ensures Undirected(SpanLists)
    ensures forall x, y :: 0 <= x < 5 && 0 <= y < 5 ==>
      (HasDest(PrimTree(SpanLists)[x], y) <==> (x, y) in SpanTreeEdges)
  {
    PrimSpanRun();
    PrimRunKeys(SpanLists);
    var prev := PrimRun(SpanLists).prev;
    assert PrimTree(SpanLists) == PredTree(SpanLists, prev, 1, 5);
    forall x, y | 0 <= x < 5 && 0 <= y < 5
      ensures HasDest(PrimTree(SpanLists)[x], y) <==> (x, y) in SpanTreeEdges
    {
      PredTreeEdges(SpanLists, prev, 1, 5, x, y);
      SpanTreeByPrev(x, y);
    }
  }

  /** The tree `prim(g)` returns on this graph holds eight list nodes, so
      its `countEdges()` is 4. */
  lemma PrimSpanTreeSize()
    ensures TotalLength(PrimTree(SpanLists)) == 8
  {
    PrimSpanRun();
    PrimTreeSize(SpanLists);
    assert ParentCount([-1, 0, 1, 0, 2], 1, 5) == 4;
  }
  // ---------------------------------------------------------------------
  // kruskal(g) on the same graph (Tests.cpp:184-192)

  /** Every vertex is reachable from 0, along 0-3, 0-1, 1-2 and 2-4. */
  lemma SpanReachesAll()
    ensures forall x :: 0 <= x < 5 ==> Reachable(SpanLists, 0, x)
  {
    var G := SpanLists;
    ReachableRefl(G, 0);
    assert HasDest(G[0], 3) by { assert G[0][0].dest == 3; }
    ReachableStep(G, 0, 0, 3);
    assert HasDest(G[0], 1) by { assert G[0][1].dest == 1; }
    ReachableStep(G, 0, 0, 1);
    assert HasDest(G[1], 2) by { assert G[1][1].dest == 2; }
    ReachableStep(G, 0, 1, 2);
    assert HasDest(G[2], 4) by { assert G[2][0].dest == 4; }
    ReachableStep(G, 0, 2, 4);
  }

  /** The graph is connected: it has one class, vertex 0's. */
  lemma SpanConnected()
    ensures Undirected(SpanLists)
    ensures Components(SpanLists) == {ReachSet(SpanLists, 0)}
    ensures |Components(SpanLists)| == 1
  {
    SpanListsBuilt();
    SpanReachesAll();
    var G := SpanLists;
    forall x | 0 <= x < 5
      ensures ReachSet(G, x) == ReachSet(G, 0)
    {
      ClassOf(G, x, 0);
    }
    assert ReachSet(G, 0) in Components(G);
    assert |{ReachSet(G, 0)}| == 1;
  }

  /** The forest `kruskal(g)` returns on this graph holds eight list
      nodes, so its `countEdges()` is 4. */
  lemma KruskalSpanSize()
    ensures Undirected(SpanLists)
    ensures TotalLength(KruskalForest(SpanLists)) == 8
  {
    SpanConnected();
    KruskalSpans(SpanLists);
  }
}
