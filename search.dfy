/** The states of breadth-first and depth-first search as values: the
    discovered set (the `visited` flags), the FIFO of discovered vertices
    whose lists are still to be scanned, and the tree built so far. */
module Search {
  import opened EdgeLists
  import opened Graphs
  import opened Reachability
  import opened Trees

  /** The indices whose flag is set. */
  ghost function Marked(s: seq<bool>): set<int>
  {
    set i | 0 <= i < |s| && s[i]
  }

  lemma MarkedNone(s: seq<bool>)
    requires forall i :: 0 <= i < |s| ==> !s[i]
    ensures Marked(s) == {}
  {
  }

  lemma MarkedUpdate(s: seq<bool>, i: int)
    requires 0 <= i < |s|
    ensures Marked(s[i := true]) == Marked(s) + {i}
  {
  }

  /** A set of vertices in [0, n) has at most n elements. */
  lemma {:induction false} RangeBound(S: set<int>, n: nat)
    requires forall x :: x in S ==> 0 <= x < n
    ensures |S| <= n
  {
    if n == 0 {
      assert forall x :: x !in S;
    } else {
      RangeBound(S - {n - 1}, n - 1);
    }
  }

  /** A duplicate-free sequence drawn from `S` is no longer than `S`. */
  lemma {:induction false} DistinctBound(s: seq<int>, S: set<int>)
    requires Distinct(s) && forall k :: 0 <= k < |s| ==> s[k] in S
    ensures |s| <= |S|
  {
    if s != [] {
      forall k | 0 <= k < |s[1..]|
        ensures s[1..][k] in S - {s[0]}
      {
        assert s[1..][k] == s[k + 1];
      }
      DistinctBound(s[1..], S - {s[0]});
    }
  }

  lemma SubsetBound(A: set<int>, B: set<int>)
    requires A <= B
    ensures |A| <= |B|
  {
    assert B == A + (B - A) && A * (B - A) == {};
  }

  /** Every stored edge out of `x` leads into `V`. */
  ghost predicate Finished(G: Table, V: set<int>, x: int)
  {
    0 <= x < |G| && forall y :: HasDest(G[x], y) ==> y in V
  }

  /** Between iterations of the `bfs` loop: `T` is a search tree over the
      discovered set `V`, the queue `Q` holds discovered vertices once
      each, and every discovered vertex that has left the queue has had
      all its neighbors discovered. */
  ghost predicate BfsState(G: Table, T: Table, s: int, V: set<int>, Q: seq<int>)
  {
    && TreeOn(G, T, s, V)
    && Distinct(Q)
    && (forall k :: 0 <= k < |Q| ==> Q[k] in V)
    && (forall x :: x in V && x !in Q ==> Finished(G, V, x))
  }

  /** While `u`'s list is scanned at position `i`: as `BfsState`, except
      that `u` has left the queue and only the neighbors before position
      `i` are known to be discovered. */
  ghost predicate BfsScan(G: Table, T: Table, s: int, V: set<int>, Q: seq<int>, u: int, i: nat)
  {
    && TreeOn(G, T, s, V)
    && Distinct(Q)
    && (forall k :: 0 <= k < |Q| ==> Q[k] in V)
    && u in V && u !in Q && i <= |G[u]|
    && (forall k :: 0 <= k < i ==> G[u][k].dest in V)
    && (forall x :: x in V && x !in Q && x != u ==> Finished(G, V, x))
  }

  /** The queue's capacity `|G|` is never exceeded: a vertex about to be
      discovered leaves room for it. */
  lemma BfsRoom(G: Table, T: Table, s: int, V: set<int>, Q: seq<int>, u: int, i: nat, v: int)
    requires BfsScan(G, T, s, V, Q, u, i) && 0 <= v < |G| && v !in V
    ensures |Q| < |G|
  {
    DistinctBound(Q, V);
    RangeBound(V + {v}, |G|);
  }

  /** Taking the head of the queue starts the scan of its list. */
  lemma BfsTake(G: Table, T: Table, s: int, V: set<int>, Q: seq<int>)
    requires BfsState(G, T, s, V, Q) && Q != []
    ensures BfsScan(G, T, s, V, Q[1..], Q[0], 0)
  {
    assert Q[0] !in Q[1..];
  }

  /** Lines 36-40 of the scan: a neighbor not yet discovered is marked,
      linked to `u` with the weight `G` reports and queued. */
  lemma BfsDiscover(G: Table, T: Table, s: int, V: set<int>, Q: seq<int>, u: int, i: nat)
    requires BfsScan(G, T, s, V, Q, u, i) && Undirected(G) && i < |G[u]|
    requires G[u][i].dest !in V
    ensures var v := G[u][i].dest;
      BfsScan(G, Link(T, u, v, WeightOf(G[u], v)), s, V + {v}, Q + [v], u, i + 1)
  {
    var v := G[u][i].dest;
    var V', Q' := V + {v}, Q + [v];
    assert HasDest(G[u], v);
    TreeGrow(G, T, s, V, u, v);
    assert forall k :: 0 <= k < |Q'| ==> Q'[k] in V';
    assert Distinct(Q');
    forall x | x in V' && x !in Q' && x != u
      ensures Finished(G, V', x)
    {
      assert Finished(G, V, x);
    }
  }

  /** A neighbor already discovered is passed over. */
  lemma BfsPass(G: Table, T: Table, s: int, V: set<int>, Q: seq<int>, u: int, i: nat)
    requires BfsScan(G, T, s, V, Q, u, i) && i < |G[u]| && G[u][i].dest in V
    ensures BfsScan(G, T, s, V, Q, u, i + 1)
  {
  }

  /** After the whole list the scanned vertex is finished. */
  lemma BfsDone(G: Table, T: Table, s: int, V: set<int>, Q: seq<int>, u: int)
    requires 0 <= u < |G| && BfsScan(G, T, s, V, Q, u, |G[u]|)
    ensures BfsState(G, T, s, V, Q)
  {
    forall y | HasDest(G[u], y)
      ensures y in V
    {
      var k :| 0 <= k < |G[u]| && G[u][k].dest == y;
    }
  }

  /** With the queue empty every discovered vertex is finished, so the
      tree spans the start's component. */
  lemma BfsEnd(G: Table, T: Table, s: int, V: set<int>)
    requires BfsState(G, T, s, V, []) && Undirected(G) && DestsInRange(T) && 0 <= s < |G|
    ensures SpansReach(G, T, s)
  {
    TreeSpans(G, T, s, V);
  }

  /** The number of unset flags: every search marks a vertex or shortens
      its work list, so this bounds its remaining steps. */
  function Unvisited(vis: seq<bool>): nat
  {
    if vis == [] then 0 else (if vis[0] then 0 else 1) + Unvisited(vis[1..])
  }

  /** Setting one flag lowers the count exactly when it was unset. */
  lemma {:induction false} UnvisitedMark(vis: seq<bool>, v: int)
    requires 0 <= v < |vis|
    ensures Unvisited(vis[v := true]) == Unvisited(vis) - (if vis[v] then 0 else 1)
  {
    if v > 0 {
      assert vis[v := true][1..] == vis[1..][v - 1 := true];
      UnvisitedMark(vis[1..], v - 1);
    }
  }

  /** What `bfs` works on between statements: the tree being built, the
      `visited` flags and the queue's contents. */
  datatype Sweep = Sweep(tree: Table, visited: seq<bool>, queue: seq<int>)

  /** The sizes `bfs` allocates: one list and one flag per vertex, and
      only vertices in the queue. */
  ghost predicate Sized(G: Table, st: Sweep)
  {
    && |st.tree| == |G| && |st.visited| == |G|
    && forall k :: 0 <= k < |st.queue| ==> 0 <= st.queue[k] < |G|
  }

  /** Lines 36-40 of `bfs` for the neighbor `v` of `u`: when `v` is not
      yet visited it is marked, linked to `u` with the weight a scan of
      `u`'s list reports, and queued (a full queue of capacity |G| would
      drop it); otherwise nothing changes. */
  function BreadthVisit(G: Table, u: int, st: Sweep, v: int): (r: Sweep)
    requires 0 <= u < |G| && 0 <= v < |G| && Sized(G, st)
    ensures Sized(G, r)
    ensures Unvisited(r.visited) <= Unvisited(st.visited)
    ensures Unvisited(r.visited) == Unvisited(st.visited) ==> r == st
  {
    if st.visited[v] then st
    else
      UnvisitedMark(st.visited, v);
      var q := if |st.queue| == |G| then st.queue else st.queue + [v];
      Sweep(Link(st.tree, u, v, WeightOf(G[u], v)), st.visited[v := true], q)
  }

  /** Lines 34-41 of `bfs` from position `i` of `u`'s list. */
  function BreadthScan(G: Table, u: int, st: Sweep, i: nat): (r: Sweep)
    requires DestsInRange(G) && 0 <= u < |G| && i <= |G[u]| && Sized(G, st)
    ensures Sized(G, r)
    ensures Unvisited(r.visited) <= Unvisited(st.visited)
    ensures Unvisited(r.visited) == Unvisited(st.visited) ==> r.queue == st.queue
    decreases |G[u]| - i
  {
    if i == |G[u]| then st
    else BreadthScan(G, u, BreadthVisit(G, u, st, G[u][i].dest), i + 1)
  }

  /** Lines 28-43 of `bfs`: while the queue is not empty, dequeue its head
      and scan that vertex's list. */
  function BreadthLoop(G: Table, st: Sweep): (r: Sweep)
    requires DestsInRange(G) && Sized(G, st)
    ensures Sized(G, r) && r.queue == []
    decreases Unvisited(st.visited), |st.queue|
  {
    if st.queue == [] then st
    else BreadthLoop(G, BreadthScan(G, st.queue[0], st.(queue := st.queue[1..]), 0))
  }

  /** The tree `bfs(g, s)` returns for a graph with lists `G`. */
  function BfsTree(G: Table, s: int): (T: Table)
    requires DestsInRange(G) && 0 <= s < |G|
    ensures |T| == |G|
  {
    BreadthLoop(G, Sweep(NoEdges(|G|), seq(|G|, v => v == s), [s])).tree
  }

  /** A scan that starts in the scanning state ends with `u` finished. */
  lemma {:induction false} BreadthScanKeeps(G: Table, u: int, st: Sweep, i: nat, s: int)
    requires Undirected(G) && 0 <= u < |G| && i <= |G[u]| && Sized(G, st)
    requires BfsScan(G, st.tree, s, Marked(st.visited), st.queue, u, i)
    ensures var r := BreadthScan(G, u, st, i);
      BfsState(G, r.tree, s, Marked(r.visited), r.queue)
    decreases |G[u]| - i
  {
    var V := Marked(st.visited);
    if i == |G[u]| {
      BfsDone(G, st.tree, s, V, st.queue, u);
    } else {
      var v := G[u][i].dest;
      if st.visited[v] {
        BfsPass(G, st.tree, s, V, st.queue, u, i);
        BreadthScanKeeps(G, u, st, i + 1, s);
      } else {
        BfsRoom(G, st.tree, s, V, st.queue, u, i, v);
        BfsDiscover(G, st.tree, s, V, st.queue, u, i);
        MarkedUpdate(st.visited, v);
        var st' := Sweep(Link(st.tree, u, v, WeightOf(G[u], v)), st.visited[v := true], st.queue + [v]);
        BreadthScanKeeps(G, u, st', i + 1, s);
      }
    }
  }

  /** The loop keeps the search state and ends with an empty queue. */
  lemma {:induction false} BreadthLoopKeeps(G: Table, st: Sweep, s: int)
    requires Undirected(G) && Sized(G, st)
    requires BfsState(G, st.tree, s, Marked(st.visited), st.queue)
    ensures var r := BreadthLoop(G, st);
      BfsState(G, r.tree, s, Marked(r.visited), [])
    decreases Unvisited(st.visited), |st.queue|
  {
    if st.queue != [] {
      var V := Marked(st.visited);
      BfsTake(G, st.tree, s, V, st.queue);
      var st' := st.(queue := st.queue[1..]);
      BreadthScanKeeps(G, st.queue[0], st', 0, s);
      BreadthLoopKeeps(G, BreadthScan(G, st.queue[0], st', 0), s);
    }
  }

  /** The tree `bfs` returns is a subgraph of the input that spans exactly
      the start's component: every vertex reachable from `s` is reachable
      in the tree, the others have no edges, and there is one tree edge
      fewer than reachable vertices. */
  lemma BfsTreeSpans(G: Table, s: int)
    requires Undirected(G) && 0 <= s < |G|
    ensures SubgraphOf(BfsTree(G, s), G)
    ensures SpansReach(G, BfsTree(G, s), s)
  {
    var vis := seq(|G|, v => v == s);
    assert Marked(vis) == {s};
    TreeStart(G, s);
    var st := Sweep(NoEdges(|G|), vis, [s]);
    BreadthLoopKeeps(G, st, s);
    var r := BreadthLoop(G, st);
    SubgraphInRange(G, r.tree);
    BfsEnd(G, r.tree, s, Marked(r.visited));
  }

  /** Inside `dfsHelper(u)`, entered with the discovered set `V0`: `T` is a
      search tree over `V`, `u` and everything discovered before the call
      are in `V`, the neighbors of `u` before position `i` are discovered,
      and every vertex discovered during the call other than `u` is
      finished. */
  ghost predicate DfsScan(G: Table, T: Table, s: int, V0: set<int>, V: set<int>, u: int, i: nat)
  {
    && TreeOn(G, T, s, V)
    && V0 + {u} <= V
    && 0 <= u < |G| && i <= |G[u]|
    && (forall k :: 0 <= k < i ==> G[u][k].dest in V)
    && (forall x :: x in V - V0 - {u} ==> Finished(G, V, x))
  }

  /** Line 57: marking `u` on entry. */
  lemma DfsEnter(G: Table, T: Table, s: int, V0: set<int>, u: int)
    requires TreeOn(G, T, s, V0 + {u})
    ensures DfsScan(G, T, s, V0, V0 + {u}, u, 0)
  {
  }

  /** Lines 64-65: a neighbor `v` not yet discovered is linked to `u`; the
      recursive call returns with a search tree over `V'`, `v` discovered
      and everything it discovered finished. */
  lemma DfsReturn(G: Table, T: Table, s: int, V0: set<int>, V: set<int>, u: int, i: nat,
                  T': Table, V': set<int>)
    requires DfsScan(G, T, s, V0, V, u, i) && i < |G[u]|
    requires TreeOn(G, T', s, V') && V + {G[u][i].dest} <= V'
    requires forall x :: x in V' - V ==> Finished(G, V', x)
    ensures DfsScan(G, T', s, V0, V', u, i + 1)
  {
    forall x | x in V' - V0 - {u}
      ensures Finished(G, V', x)
    {
      if x in V {
        assert Finished(G, V, x);
      }
    }
  }

  /** A neighbor already discovered is passed over. */
  lemma DfsPass(G: Table, T: Table, s: int, V0: set<int>, V: set<int>, u: int, i: nat)
    requires DfsScan(G, T, s, V0, V, u, i) && i < |G[u]| && G[u][i].dest in V
    ensures DfsScan(G, T, s, V0, V, u, i + 1)
  {
  }

  /** After the whole list `u` is finished too: every vertex discovered
      during the call is finished. */
  lemma DfsDone(G: Table, T: Table, s: int, V0: set<int>, V: set<int>, u: int)
    requires 0 <= u < |G| && DfsScan(G, T, s, V0, V, u, |G[u]|)
    ensures forall x :: x in V - V0 ==> Finished(G, V, x)
  {
    forall y | HasDest(G[u], y)
      ensures y in V
    {
      var k :| 0 <= k < |G[u]| && G[u][k].dest == y;
    }
  }

  /** A call entered with nothing discovered leaves a closed discovered
      set, so the tree spans the start's component. */
  lemma DfsEnd(G: Table, T: Table, s: int, V: set<int>)
    requires TreeOn(G, T, s, V) && forall x :: x in V ==> Finished(G, V, x)
    requires Undirected(G) && DestsInRange(T) && 0 <= s < |G|
    ensures SpansReach(G, T, s)
  {
    TreeSpans(G, T, s, V);
  }
  /** What `dfs` works on: the tree being built and the `visited` flags. */
  datatype Trail = Trail(tree: Table, visited: seq<bool>)

  /** One list and one flag per vertex. */
  ghost predicate Fits(G: Table, tr: Trail)
  {
    |tr.tree| == |G| && |tr.visited| == |G|
  }

  /** `dfsHelper(g, u, visited, tree)` (lines 56-69): mark `u`, then scan
      its list. */
  function DepthEnter(G: Table, u: int, tr: Trail): (r: Trail)
    requires DestsInRange(G) && 0 <= u < |G| && Fits(G, tr)
    ensures Fits(G, r)
    ensures Unvisited(r.visited) <= Unvisited(tr.visited[u := true])
    decreases Unvisited(tr.visited[u := true]), 2, 0
  {
    DepthScan(G, u, tr.(visited := tr.visited[u := true]), 0)
  }

  /** Lines 61-67 of `dfsHelper` from position `i` of `u`'s list. */
  function DepthScan(G: Table, u: int, tr: Trail, i: nat): (r: Trail)
    requires DestsInRange(G) && 0 <= u < |G| && i <= |G[u]| && Fits(G, tr)
    ensures Fits(G, r)
    ensures Unvisited(r.visited) <= Unvisited(tr.visited)
    decreases Unvisited(tr.visited), 1, |G[u]| - i
  {
    if i == |G[u]| then tr
    else DepthScan(G, u, DepthVisit(G, u, tr, G[u][i].dest), i + 1)
  }

  /** Lines 62-66 of `dfsHelper` for the neighbor `v` of `u`: when `v` is
      not yet visited the edge (u, v) is linked with the weight a scan of
      `u`'s list reports and the search descends into `v`; otherwise
      nothing changes. */
  function DepthVisit(G: Table, u: int, tr: Trail, v: int): (r: Trail)
    requires DestsInRange(G) && 0 <= u < |G| && 0 <= v < |G| && Fits(G, tr)
    ensures Fits(G, r)
    ensures Unvisited(r.visited) <= Unvisited(tr.visited)
    decreases Unvisited(tr.visited), 0, 0
  {
    if tr.visited[v] then tr
    else
      UnvisitedMark(tr.visited, v);
      DepthEnter(G, v, tr.(tree := Link(tr.tree, u, v, WeightOf(G[u], v))))
  }

  /** The tree `dfs(g, s)` returns for a graph with lists `G`. */
  function DfsTree(G: Table, s: int): (T: Table)
    requires DestsInRange(G) && 0 <= s < |G|
    ensures |T| == |G|
  {
    DepthEnter(G, s, Trail(NoEdges(|G|), seq(|G|, _ => false))).tree
  }

  /** A call of `dfsHelper(u)` whose tree already covers the discovered
      set and `u` returns with a search tree over a larger discovered set,
      every vertex it discovered finished. */
  lemma {:induction false} DepthEnterKeeps(G: Table, u: int, tr: Trail, s: int)
    requires Undirected(G) && 0 <= u < |G| && Fits(G, tr)
    requires TreeOn(G, tr.tree, s, Marked(tr.visited) + {u})
    ensures var r := DepthEnter(G, u, tr);
      && TreeOn(G, r.tree, s, Marked(r.visited))
      && Marked(tr.visited) + {u} <= Marked(r.visited)
      && forall x :: x in Marked(r.visited) - Marked(tr.visited) ==> Finished(G, Marked(r.visited), x)
    decreases Unvisited(tr.visited[u := true]), 2, 0
  {
    var V0 := Marked(tr.visited);
    MarkedUpdate(tr.visited, u);
    DfsEnter(G, tr.tree, s, V0, u);
    DepthScanKeeps(G, u, tr.(visited := tr.visited[u := true]), 0, s, V0);
  }

  /** The scan of `u`'s list keeps the state `DfsScan` describes and ends
      with `u` finished too. */
  lemma {:induction false} DepthScanKeeps(G: Table, u: int, tr: Trail, i: nat, s: int, V0: set<int>)
    requires Undirected(G) && 0 <= u < |G| && i <= |G[u]| && Fits(G, tr)
    requires DfsScan(G, tr.tree, s, V0, Marked(tr.visited), u, i)
    ensures var r := DepthScan(G, u, tr, i);
      && TreeOn(G, r.tree, s, Marked(r.visited))
      && Marked(tr.visited) <= Marked(r.visited)
      && forall x :: x in Marked(r.visited) - V0 ==> Finished(G, Marked(r.visited), x)
    decreases Unvisited(tr.visited), 1, |G[u]| - i
  {
    var V := Marked(tr.visited);
    if i == |G[u]| {
      DfsDone(G, tr.tree, s, V0, V, u);
    } else {
      var v := G[u][i].dest;
      var r := DepthVisit(G, u, tr, v);
      if tr.visited[v] {
        DfsPass(G, tr.tree, s, V0, V, u, i);
      } else {
        assert HasDest(G[u], v);
        TreeGrow(G, tr.tree, s, V, u, v);
        UnvisitedMark(tr.visited, v);
        DepthEnterKeeps(G, v, tr.(tree := Link(tr.tree, u, v, WeightOf(G[u], v))), s);
        DfsReturn(G, tr.tree, s, V0, V, u, i, r.tree, Marked(r.visited));
      }
      DepthScanKeeps(G, u, r, i + 1, s, V0);
    }
  }

  /** The tree `dfs` returns is a subgraph of the input that spans exactly
      the start's component, as for `bfs`. */
  lemma DfsTreeSpans(G: Table, s: int)
    requires Undirected(G) && 0 <= s < |G|
    ensures SubgraphOf(DfsTree(G, s), G)
    ensures SpansReach(G, DfsTree(G, s), s)
  {
    var vis := seq(|G|, _ => false);
    MarkedNone(vis);
    TreeStart(G, s);
    var tr := Trail(NoEdges(|G|), vis);
    DepthEnterKeeps(G, s, tr, s);
    var r := DepthEnter(G, s, tr);
    SubgraphInRange(G, r.tree);
    DfsEnd(G, r.tree, s, Marked(r.visited));
  }
}
