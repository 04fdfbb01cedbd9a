/** What the traversal and shortest-path algorithms build: subgraphs of
    the input that carry the input's weights, search trees spanning the
    vertices reachable from the start, and the graph of parent edges. */
module Trees {
  import opened EdgeLists
  import opened Graphs
  import opened Reachability

  /** Every entry of the list `s` stored at vertex `x` points along a
      stored edge of `G` and carries the weight a scan of `G` reports for
      that edge. */
  ghost predicate CarriedBy(G: Table, x: int, s: seq<Entry>)
  {
    && 0 <= x < |G|
    && forall k :: 0 <= k < |s| ==> HasDest(G[x], s[k].dest) && s[k].weight == WeightOf(G[x], s[k].dest)
  }

  /** Every list of `T` is carried by `G`. */
  ghost predicate SubgraphOf(T: Table, G: Table)
  {
    |T| == |G| && forall x :: 0 <= x < |T| ==> CarriedBy(G, x, T[x])
  }

  /** A subgraph points only at vertices its host points at. */
  lemma SubgraphInRange(G: Table, T: Table)
    requires DestsInRange(G) && SubgraphOf(T, G)
    ensures DestsInRange(T)
  {
    forall x, k | 0 <= x < |T| && 0 <= k < |T[x]|
      ensures 0 <= T[x][k].dest < |T|
    {
      assert CarriedBy(G, x, T[x]);
      assert HasDest(G[x], T[x][k].dest);
      var j :| 0 <= j < |G[x]| && G[x][j].dest == T[x][k].dest;
    }
  }

  lemma EmptySubgraph(G: Table)
    ensures SubgraphOf(NoEdges(|G|), G)
  {
  }

  lemma ConsCarried(G: Table, x: int, e: Entry, s: seq<Entry>)
    requires CarriedBy(G, x, s) && HasDest(G[x], e.dest) && e.weight == WeightOf(G[x], e.dest)
    ensures CarriedBy(G, x, [e] + s)
  {
    assert forall k :: 1 <= k < |s| + 1 ==> ([e] + s)[k] == s[k - 1];
  }

  /** Recording an edge of `G` with the weight `getEdgeWeight` reports for
      it keeps a subgraph of `G`: the mirrored entry carries the same
      weight because `G` is undirected. */
  lemma LinkSubgraph(T: Table, G: Table, u: int, v: int)
    requires SubgraphOf(T, G) && Undirected(G)
    requires 0 <= u < |G| && 0 <= v < |G| && HasDest(G[u], v)
    ensures SubgraphOf(Link(T, u, v, WeightOf(G[u], v)), G)
  {
    var w := WeightOf(G[u], v);
    MirrorEdge(G, u, v);
    var T1 := T[u := [Entry(v, w)] + T[u]];
    ConsCarried(G, u, Entry(v, w), T[u]);
    assert forall x :: 0 <= x < |T1| ==> CarriedBy(G, x, T1[x]);
    ConsCarried(G, v, Entry(u, w), T1[v]);
  }

  /** The state of a search from `s` that has discovered the vertices `V`:
      `T` is a subgraph of `G` whose edges touch only `V`, one edge per
      discovered vertex besides `s`, and every vertex of `V` is reachable
      from `s` both in `G` and in `T`. */
  ghost predicate TreeOn(G: Table, T: Table, s: int, V: set<int>)
  {
    && SubgraphOf(T, G)
    && s in V
    && (forall x :: x in V ==> 0 <= x < |G|)
    && (forall x :: 0 <= x < |T| && x !in V ==> T[x] == [])
    && TotalLength(T) == 2 * (|V| - 1)
    && WithinReach(G, s, V)
    && WithinReach(T, s, V)
  }

  /** A search starts with the start vertex discovered and no edges. */
  lemma TreeStart(G: Table, s: int)
    requires 0 <= s < |G|
    ensures TreeOn(G, NoEdges(|G|), s, {s})
  {
    NoEdgesTotal(|G|);
  }

  /** Discovering `v` through a stored edge from the discovered `u` and
      recording that edge keeps a search tree. */
  lemma TreeGrow(G: Table, T: Table, s: int, V: set<int>, u: int, v: int)
    requires TreeOn(G, T, s, V) && Undirected(G)
    requires u in V && v !in V && 0 <= v < |G| && HasDest(G[u], v)
    ensures TreeOn(G, Link(T, u, v, WeightOf(G[u], v)), s, V + {v})
  {
    var w := WeightOf(G[u], v);
    var T': seq<seq<Entry>> := Link(T, u, v, w);
    LinkSubgraph(T, G, u, v);
    LinkTotal(T, u, v, w);
    assert |V + {v}| == |V| + 1;
    forall S | Closed(G, S) && s in S
      ensures V + {v} <= S
    {
      assert u in S;
    }
    forall S | Closed(T', S) && s in S
      ensures V + {v} <= S
    {
      LinkClosed(T, u, v, w, S);
    }
  }

  /** The search tree rooted at `s` spans exactly the vertices reachable
      from `s`: unreachable vertices have no edges, every reachable vertex
      is reachable in the tree, and there is one edge fewer than there are
      reachable vertices. */
  ghost predicate SpansReach(G: Table, T: Table, s: int)
  {
    && |T| == |G|
    && (forall v :: 0 <= v < |G| && !Reachable(G, s, v) ==> T[v] == [])
    && (forall v :: 0 <= v < |G| && Reachable(G, s, v) ==> Reachable(T, s, v))
    && TotalLength(T) == 2 * (|ReachSet(G, s)| - 1)
  }

  /** A search whose discovered set is closed under the edges of `G` has
      built a spanning tree of the start's component. */
  lemma TreeSpans(G: Table, T: Table, s: int, V: set<int>)
    requires TreeOn(G, T, s, V) && Closed(G, V)
    requires DestsInRange(G) && DestsInRange(T) && 0 <= s < |G|
    ensures SpansReach(G, T, s)
  {
    LeastClosedIsReachSet(G, s, V);
    assert V == ReachSet(G, s);
    WithinReachIsReachable(T, s, V);
  }

  /** Where set, `prev[v]` is a vertex with a stored edge to `v`. */
  ghost predicate ParentEdges(G: Table, prev: seq<int>)
  {
    && |prev| == |G|
    && forall v :: 0 <= v < |G| && prev[v] != -1 ==> 0 <= prev[v] < |G| && HasDest(G[prev[v]], v)
  }

  /** From `lo` on, every set entry of `prev` names one of `n` vertices. */
  ghost predicate PrevInRange(prev: seq<int>, lo: nat, n: int)
  {
    forall v :: lo <= v < |prev| && prev[v] != -1 ==> 0 <= prev[v] < n
  }

  /** The graph the final loops of `dijkstra` and `prim` build: for each
      v in [lo, hi) in increasing order with `prev[v] != -1`, the edge
      (v, prev[v]) with the weight a scan of v's list reports. */
  function PredTree(G: Table, prev: seq<int>, lo: nat, hi: nat): (T: Table)
    requires |prev| == |G| && lo <= hi <= |G|
    requires PrevInRange(prev, lo, |G|)
    ensures |T| == |G|
    decreases hi
  {
    if hi == lo then NoEdges(|G|)
    else
      var v := hi - 1;
      if prev[v] == -1 then PredTree(G, prev, lo, v)
      else Link(PredTree(G, prev, lo, v), v, prev[v], WeightOf(G[v], prev[v]))
  }

  /** The parent graph is a subgraph of `G`. */
  lemma {:induction false} PredTreeSubgraph(G: Table, prev: seq<int>, lo: nat, hi: nat)
    requires Undirected(G) && ParentEdges(G, prev) && lo <= hi <= |G|
    ensures SubgraphOf(PredTree(G, prev, lo, hi), G)
  {
    var T := PredTree(G, prev, lo, hi);
    if hi == lo {
      EmptySubgraph(G);
    } else {
      var v := hi - 1;
      var T0 := PredTree(G, prev, lo, v);
      PredTreeSubgraph(G, prev, lo, v);
      if prev[v] != -1 {
        var p := prev[v];
        assert HasDest(G[p], v);
        MirrorEdge(G, p, v);
        LinkSubgraph(T0, G, v, p);
        assert T == Link(T0, v, p, WeightOf(G[v], p));
      } else {
        assert T == T0;
      }
    }
  }

  /** The parent graph joins `x` and `y` exactly when one is the other's
      parent and lies in [lo, hi). */
  lemma {:induction false} PredTreeEdges(G: Table, prev: seq<int>, lo: nat, hi: nat, x: int, y: int)
    requires ParentEdges(G, prev) && lo <= hi <= |G| && 0 <= x < |G| && 0 <= y < |G|
    ensures HasDest(PredTree(G, prev, lo, hi)[x], y) <==>
      (lo <= x < hi && prev[x] == y) || (lo <= y < hi && prev[y] == x)
  {
    if hi > lo {
      var v := hi - 1;
      PredTreeEdges(G, prev, lo, v, x, y);
      if prev[v] != -1 {
        LinkHasDest(PredTree(G, prev, lo, v), v, prev[v], WeightOf(G[v], prev[v]), x, y);
      }
    }
  }

  /** The number of v in [lo, hi) with a parent. */
  function ParentCount(prev: seq<int>, lo: nat, hi: nat): nat
    requires lo <= hi <= |prev|
    decreases hi
  {
    if hi == lo then 0 else ParentCount(prev, lo, hi - 1) + (if prev[hi - 1] != -1 then 1 else 0)
  }

  /** The parent graph holds two list nodes, one undirected edge, per
      child in [lo, hi) with a parent: its `countEdges()` is that count. */
  lemma {:induction false} PredTreeTotal(G: Table, prev: seq<int>, lo: nat, hi: nat)
    requires |prev| == |G| && lo <= hi <= |G| && PrevInRange(prev, lo, |G|)
    ensures TotalLength(PredTree(G, prev, lo, hi)) == 2 * ParentCount(prev, lo, hi)
    decreases hi
  {
    if hi == lo {
      NoEdgesTotal(|G|);
    } else {
      var v := hi - 1;
      PredTreeTotal(G, prev, lo, v);
      if prev[v] != -1 {
        LinkTotal(PredTree(G, prev, lo, v), v, prev[v], WeightOf(G[v], prev[v]));
      }
    }
  }

  /** `T` joins `x` and `y` exactly when one is the other's entry in
      `prev`, counting only children from `lo` on. */
  ghost predicate PrevEdges(T: Table, prev: seq<int>, lo: nat)
    requires |prev| == |T|
  {
    forall x, y :: 0 <= x < |T| && 0 <= y < |T| ==>
      (HasDest(T[x], y) <==> (lo <= x && prev[x] == y) || (lo <= y && prev[y] == x))
  }

  /** `T` gives no edge to a vertex unreachable from `s` in `G`. */
  ghost predicate ConfinedToReach(G: Table, T: Table, s: int)
    requires |T| == |G|
  {
    forall x, y :: 0 <= x < |G| && 0 <= y < |G| && !Reachable(G, s, x) ==> !HasDest(T[x], y)
  }

  /** A parent graph whose parents and children are all reachable from
      `s` is a subgraph of `G`, joins `x` and `y` exactly when one is the
      other's parent (counting only children from `lo` on), and leaves
      the vertices unreachable from `s` without edges. */
  lemma PredTreeShape(G: Table, prev: seq<int>, lo: nat, s: int)
    requires Undirected(G) && ParentEdges(G, prev) && lo <= |G|
    requires forall v :: 0 <= v < |G| && prev[v] != -1 ==> Reachable(G, s, v) && Reachable(G, s, prev[v])
    ensures SubgraphOf(PredTree(G, prev, lo, |G|), G)
    ensures PrevEdges(PredTree(G, prev, lo, |G|), prev, lo)
    ensures ConfinedToReach(G, PredTree(G, prev, lo, |G|), s)
  {
    PredTreeSubgraph(G, prev, lo, |G|);
    var T := PredTree(G, prev, lo, |G|);
    forall x, y {:trigger HasDest(T[x], y)} | 0 <= x < |G| && 0 <= y < |G|
      ensures HasDest(T[x], y) <==> (lo <= x && prev[x] == y) || (lo <= y && prev[y] == x)
    {
      PredTreeEdges(G, prev, lo, |G|, x, y);
    }
    forall x, y | 0 <= x < |G| && 0 <= y < |G| && !Reachable(G, s, x)
      ensures !HasDest(T[x], y)
    {
      assert prev[y] != x;
    }
  }
}
