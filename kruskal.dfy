/** `kruskal` as methods over the graph, the edge buffer and the
    union-find: collection, bubble sort and selection, each proved to
    compute the functions of the input's lists that `Forests` defines. */
module Kruskal {
  import opened EdgeLists
  import opened Graphs
  import opened DataStructures
  import opened Reachability
  import opened Trees
  import opened Forests

  /** `kruskal` (lines 213-262) with the buffer of `n * n` edges it
      allocates at line 222: the tree built is the forest its three loops
      select, a spanning forest of `g`. */
  method Kruskal(g: Graph) returns (tree: Graph)
    requires g.Valid() && |Collected(g.Lists)| <= g.n * g.n
    ensures fresh(tree.Repr) && tree.Valid() && tree.n == g.n
    ensures tree.Lists == KruskalForest(g.Lists)
    ensures SubgraphOf(tree.Lists, g.Lists)
    ensures forall x, y :: 0 <= x < g.n && 0 <= y < g.n ==> (Reachable(tree.Lists, x, y) <==> Reachable(g.Lists, x, y))
    ensures TotalLength(tree.Lists) == 2 * (g.n - |Components(g.Lists)|)
  {
    var n := g.GetNumVertices();
    var edges := new Edge[n * n];
    tree := KruskalWith(g, edges);
  }

  /** `kruskal` with a buffer as long as all lists together, which every
      graph fits. */
  method KruskalSized(g: Graph) returns (tree: Graph)
    requires g.Valid()
    ensures fresh(tree.Repr) && tree.Valid() && tree.n == g.n
    ensures tree.Lists == KruskalForest(g.Lists)
    ensures SubgraphOf(tree.Lists, g.Lists)
    ensures forall x, y :: 0 <= x < g.n && 0 <= y < g.n ==> (Reachable(tree.Lists, x, y) <==> Reachable(g.Lists, x, y))
    ensures TotalLength(tree.Lists) == 2 * (g.n - |Components(g.Lists)|)
  {
    var total := CountEntries(g);
    CollectedWithin(g.Lists);
    var edges := new Edge[total];
    tree := KruskalWith(g, edges);
  }

  /** The number of entries over all lists, by neighbor counts. */
  method CountEntries(g: Graph) returns (total: int)
    requires g.Valid()
    ensures total == TotalLength(g.Lists)
  {
    total := 0;
    var n := g.GetNumVertices();
    for u := 0 to n
      invariant total == TotalLength(g.Lists[..u])
    {
      var count := g.GetNeighborCount(u);
      assert g.Lists[..u + 1][..u] == g.Lists[..u];
      total := total + count;
    }
    assert g.Lists[..n] == g.Lists;
  }

  /** Lines 214-261 of `kruskal` with `edges` as the buffer: collect,
      sort, then select. */
  method KruskalWith(g: Graph, edges: array<Edge>) returns (tree: Graph)
    requires g.Valid() && edges !in g.Repr && |Collected(g.Lists)| <= edges.Length
    modifies edges
    ensures fresh(tree.Repr) && tree.Valid() && tree.n == g.n
    ensures tree.Lists == KruskalForest(g.Lists)
    ensures SubgraphOf(tree.Lists, g.Lists)
    ensures forall x, y :: 0 <= x < g.n && 0 <= y < g.n ==> (Reachable(tree.Lists, x, y) <==> Reachable(g.Lists, x, y))
    ensures TotalLength(tree.Lists) == 2 * (g.n - |Components(g.Lists)|)
  {
    ghost var G := g.Lists;
    var n := g.GetNumVertices();
    var count := Gather(g, G, edges);
    SortedDrawn(G);
    tree := Build(edges, count, n, BubbleSort(Collected(G)));
    KruskalSpans(G);
  }

  /** Lines 224-248: the edges above the diagonal, sorted by weight. */
  method Gather(g: Graph, ghost G: Table, edges: array<Edge>) returns (count: int)
    requires g.Wellformed() && g.Lists == G && DestsInRange(G) && edges !in g.Repr && |Collected(G)| <= edges.Length
    modifies edges
    ensures 0 <= count <= edges.Length && edges[..count] == BubbleSort(Collected(G))
  {
    count := CollectEdges(g, G, edges);
    SortEdges(edges, count);
  }

  /** Lines 214-215 and 251-258: an edgeless tree and a union-find on
      `n` vertices, then the selection loop over the sorted edges. */
  method Build(edges: array<Edge>, count: int, n: nat, ghost S: seq<Edge>) returns (tree: Graph)
    requires 0 <= count <= edges.Length && edges[..count] == S && Joins(S, n)
    ensures fresh(tree.Repr) && tree.Valid() && tree.n == n
    ensures tree.Lists == Picks(S, |S|, n).lists
  {
    tree := new Graph(n);
    var uf := new UnionFind(n);
    assert Roots(uf.parent[..], uf.rank[..]) == Alone(n).rep;
    SelectEdges(edges, count, tree, uf, S);
    PicksLabels(S, |S|, n);
  }

  /** Lines 226-237: every entry of every list whose destination is
      above its vertex, in list order, as an edge with the weight
      `getEdgeWeight` reports. */
  method CollectEdges(g: Graph, ghost G: Table, edges: array<Edge>) returns (count: int)
    requires g.Wellformed() && g.Lists == G && DestsInRange(G) && edges !in g.Repr && |Collected(G)| <= edges.Length
    modifies edges
    ensures 0 <= count <= edges.Length && edges[..count] == Collected(G)
  {
    count := 0;
    var n := g.GetNumVertices();
    var u := 0;
    while u < n
      invariant Collecting(g, G, edges, u, count)
    {
      count := CollectVertex(g, G, u, edges, count);
      u := u + 1;
    }
  }

  /** The state of the collection loop before vertex `u`. */
  ghost predicate Collecting(g: Graph, G: Table, edges: array<Edge>, u: int, count: int)
    reads g, g.Repr, edges
  {
    && g.Wellformed() && g.Lists == G && DestsInRange(G) && edges !in g.Repr && |Collected(G)| <= edges.Length
    && 0 <= u <= g.n && 0 <= count <= edges.Length && edges[..count] == EdgesBefore(G, u)
  }

  /** Lines 226-236 for vertex `u`. */
  method CollectVertex(g: Graph, ghost G: Table, u: int, edges: array<Edge>, count: int) returns (next: int)
    requires Collecting(g, G, edges, u, count) && u < g.n
    modifies edges
    ensures Collecting(g, G, edges, u + 1, next)
  {
    CollectedBound(G, u, |G[u]|);
    next := CollectList(g, G, u, edges, count, EdgesBefore(G, u));
    EdgesBeforeNext(G, u);
  }

/** Lines 227-236: the edges from `u`'s list, appended to the `pre`
      gathered so far. */
  method CollectList(g: Graph, ghost G: Table, u: int, edges: array<Edge>, count: int, ghost pre: seq<Edge>)
    returns (next: int)
    requires g.Wellformed() && g.Lists == G && DestsInRange(G) && edges !in g.Repr && 0 <= u < g.n
    requires 0 <= count <= edges.Length && edges[..count] == pre
    requires |pre + ListEdges(G, u, |G[u]|)| <= edges.Length
    modifies edges
    ensures g.Wellformed()
    ensures 0 <= next <= edges.Length && edges[..next] == pre + ListEdges(G, u, |G[u]|)
  {
    assert pre + ListEdges(G, u, 0) == pre;
    var size := g.GetNeighborCount(u);
    var neighbors := g.GetNeighbors(u);
    next := count;
    for i := 0 to size
      invariant g.Wellformed() && g.Lists == G
      invariant neighbors != null && neighbors[..] == Dests(G[u])
      invariant 0 <= next <= edges.Length && edges[..next] == pre + ListEdges(G, u, i)
    {
      next := CollectEntry(g, G, u, i, neighbors[i], edges, next, pre);
    }
  }

  /** Lines 231-234 for the entry at `i` of `u`'s list, pointing at `v`:
      an edge appended when `v` is above `u`. */
  method CollectEntry(g: Graph, ghost G: Table, u: int, i: int, v: int, edges: array<Edge>, next: int, ghost pre: seq<Edge>)
    returns (after: int)
    requires g.Wellformed() && g.Lists == G && DestsInRange(G) && edges !in g.Repr && 0 <= u < g.n && 0 <= i < |G[u]| && v == G[u][i].dest
    requires 0 <= next <= edges.Length && edges[..next] == pre + ListEdges(G, u, i)
    requires |pre + ListEdges(G, u, |G[u]|)| <= edges.Length
    modifies edges
    ensures g.Wellformed()
    ensures 0 <= after <= edges.Length && edges[..after] == pre + ListEdges(G, u, i + 1)
  {
    after := next;
    if u < v {
      ListEdgesLength(G, u, i + 1, |G[u]|);
      var w := g.GetEdgeWeight(u, v);
      ListEdgesAbove(G, u, i, w);
      Append(g, edges, next, Edge(u, v, w));
      Regroup(pre, ListEdges(G, u, i), Edge(u, v, w));
      after := next + 1;
    } else {
      ListEdgesBelow(G, u, i);
    }
  }

  lemma Regroup(pre: seq<Edge>, L: seq<Edge>, e: Edge)
    ensures (pre + L) + [e] == pre + (L + [e])
  {
  }

  /** `edges[edgeCount++] = e` (line 233), which leaves the graph as it
      was. */
  method Append(g: Graph, edges: array<Edge>, next: int, e: Edge)
    requires g.Wellformed() && edges !in g.Repr && 0 <= next < edges.Length
    modifies edges
    ensures g.Wellformed()
    ensures edges[..next + 1] == old(edges[..next]) + [e]
  {
    edges[next] := e;
  }

  /** Lines 240-248: the bubble sort of the first `count` edges. */
  method SortEdges(edges: array<Edge>, count: int)
    requires 0 <= count <= edges.Length
    modifies edges
    ensures edges[..count] == BubbleSort(old(edges[..count]))
  {
    ghost var s := edges[..count];
    var i := 0;
    while i < count - 1
      invariant 0 <= i && (i == 0 || i <= count - 1)
      invariant edges[..count] == Passes(s, i)
    {
      BubblePass(edges, count, i, s);
      i := i + 1;
    }
  }

  /** Lines 241-247: one pass of the inner loop. */
  method BubblePass(edges: array<Edge>, count: int, i: int, ghost s: seq<Edge>)
    requires 0 <= i < count - 1 && count <= edges.Length && |s| == count
    requires edges[..count] == Passes(s, i)
    modifies edges
    ensures edges[..count] == Passes(s, i + 1)
  {
    ghost var t := Passes(s, i);
    var j := 0;
    while j < count - i - 1
      invariant 0 <= j <= count - i - 1
      invariant edges[..count] == Bubble(t, j)
    {
      BubbleStep(t, j + 1);
      Exchange(edges, count, j);
      j := j + 1;
    }
    PassesStep(s, i + 1);
  }

  /** Lines 242-246: exchange `edges[j]` and `edges[j + 1]` when the
      first is strictly heavier. */
  method Exchange(edges: array<Edge>, count: int, j: int)
    requires 0 <= j && j + 1 < count <= edges.Length
    modifies edges
    ensures edges[..count] == Swapped(old(edges[..count]), j)
  {
    if edges[j].w > edges[j + 1].w {
      var temp := edges[j];
      edges[j] := edges[j + 1];
      edges[j + 1] := temp;
    }
  }

  /** The state of the selection loop before the edge at `i`: the tree
      and the union-find hold the forest and the classes that the first
      `i` sorted edges give. */
  ghost predicate Selecting(edges: array<Edge>, S: seq<Edge>, i: int, tree: Graph, uf: UnionFind)
    reads edges, tree, tree.Repr, uf, uf.parent, uf.rank
  {
    SelectRig(edges, S, tree, uf) && Matches(S, i, tree.Lists, Roots(uf.parent[..], uf.rank[..]))
  }

  /** The heap layout of the selection loop. */
  ghost predicate SelectRig(edges: array<Edge>, S: seq<Edge>, tree: Graph, uf: UnionFind)
    reads edges, tree, tree.Repr, uf, uf.parent, uf.rank
  {
    && |S| <= edges.Length && edges[..|S|] == S
    && tree.Wellformed() && uf.Valid() && uf.size == tree.n && Joins(S, tree.n)
    && edges !in tree.Repr && uf !in tree.Repr && uf.parent !in tree.Repr && uf.rank !in tree.Repr
  }

  /** After the first `i` edges of `S`, the tree has the lists `T` and the
      union-find roots `A` group the vertices as the labels do. */
  ghost predicate Matches(S: seq<Edge>, i: int, T: Table, A: seq<int>)
  {
    && 0 <= i <= |S| && Joins(S, |T|)
    && T == Picks(S, i, |T|).lists
    && SameClasses(A, Picks(S, i, |T|).rep)
  }

  /** Lines 251-258: the selection loop over the sorted edges. */
  method SelectEdges(edges: array<Edge>, count: int, tree: Graph, uf: UnionFind, ghost S: seq<Edge>)
    requires Selecting(edges, S, 0, tree, uf) && count == |S|
    modifies tree.Repr, uf.parent, uf.rank
    ensures fresh(tree.Repr - old(tree.Repr))
    ensures Selecting(edges, S, |S|, tree, uf)
  {
    for i := 0 to count
      invariant fresh(tree.Repr - old(tree.Repr))
      invariant Selecting(edges, S, i, tree, uf)
    {
      SelectStep(edges, i, tree, uf, S);
    }
  }

  /** Lines 252-257 for the edge at `i`: when `find` separates its
      endpoints, add it to the tree and unite their classes. */
  method SelectStep(edges: array<Edge>, i: int, tree: Graph, uf: UnionFind, ghost S: seq<Edge>)
    requires Selecting(edges, S, i, tree, uf) && i < |S|
    modifies tree.Repr, uf.parent, uf.rank
    ensures fresh(tree.Repr - old(tree.Repr))
    ensures Selecting(edges, S, i + 1, tree, uf)
  {
    var apart := ProbeAt(edges, i, tree, uf, S);
    Advance(edges, i, tree, uf, S, apart);
  }

  /** Lines 255-256 when `find` separated the endpoints, nothing
      otherwise. */
  method Advance(edges: array<Edge>, i: int, tree: Graph, uf: UnionFind, ghost S: seq<Edge>, apart: bool)
    requires Selecting(edges, S, i, tree, uf) && i < |S|
    requires apart <==> Picks(S, i, tree.n).rep[S[i].u] != Picks(S, i, tree.n).rep[S[i].v]
    modifies tree.Repr, uf.parent, uf.rank
    ensures fresh(tree.Repr - old(tree.Repr))
    ensures Selecting(edges, S, i + 1, tree, uf)
  {
    if apart {
      ConnectAt(edges, i, tree, uf, S);
    } else {
      SkipJoined(edges, i, tree, uf, S);
    }
  }

  /** Line 254 for the edge at `i`: `find` separates its endpoints
      exactly when the labels do. */
  method ProbeAt(edges: array<Edge>, i: int, tree: Graph, uf: UnionFind, ghost S: seq<Edge>) returns (apart: bool)
    requires Selecting(edges, S, i, tree, uf) && i < |S|
    modifies uf.parent
    ensures Selecting(edges, S, i, tree, uf) && tree.Repr == old(tree.Repr)
    ensures apart <==> Picks(S, i, tree.n).rep[S[i].u] != Picks(S, i, tree.n).rep[S[i].v]
  {
    assert S[i] in S;
    apart := Probe(edges, S, tree, uf, edges[i].u, edges[i].v, Picks(S, i, tree.n).rep);
  }

  /** An edge whose endpoints already share a class is skipped. */
  lemma SkipJoined(edges: array<Edge>, i: int, tree: Graph, uf: UnionFind, S: seq<Edge>)
    requires Selecting(edges, S, i, tree, uf) && i < |S|
    requires Picks(S, i, tree.n).rep[S[i].u] == Picks(S, i, tree.n).rep[S[i].v]
    ensures Selecting(edges, S, i + 1, tree, uf)
  {
    PicksStep(S, i + 1, tree.n);
  }

  /** Lines 255-256 for the edge at `i`, whose endpoints the labels
      separate. */
  method ConnectAt(edges: array<Edge>, i: int, tree: Graph, uf: UnionFind, ghost S: seq<Edge>)
    requires Selecting(edges, S, i, tree, uf) && i < |S|
    requires Picks(S, i, tree.n).rep[S[i].u] != Picks(S, i, tree.n).rep[S[i].v]
    modifies tree.Repr, uf.parent, uf.rank
    ensures fresh(tree.Repr - old(tree.Repr))
    ensures Selecting(edges, S, i + 1, tree, uf)
  {
    ghost var g := Picks(S, i, tree.n);
    PicksStep(S, i + 1, tree.n);
    assert S[i] in S;
    PicksLabels(S, i, tree.n);
    var e := edges[i];
    Grow(edges, S, tree, uf, e.u, e.v, e.w);
    Unify(edges, S, tree, uf, e.u, e.v, g.rep);
  }

  /** Line 254 within the selection loop's layout. */
  method Probe(edges: array<Edge>, ghost S: seq<Edge>, tree: Graph, uf: UnionFind, u: int, v: int, ghost R: seq<int>)
    returns (apart: bool)
    requires SelectRig(edges, S, tree, uf) && SameClasses(Roots(uf.parent[..], uf.rank[..]), R)
    requires 0 <= u < |R| && 0 <= v < |R|
    modifies uf.parent
    ensures SelectRig(edges, S, tree, uf) && SameClasses(Roots(uf.parent[..], uf.rank[..]), R)
    ensures tree.Repr == old(tree.Repr) && tree.Lists == old(tree.Lists)
    ensures apart <==> R[u] != R[v]
  {
    apart := Separated(uf, u, v, R);
  }

  /** Line 255 within the selection loop's layout. */
  method Grow(edges: array<Edge>, ghost S: seq<Edge>, tree: Graph, uf: UnionFind, u: int, v: int, w: int)
    requires SelectRig(edges, S, tree, uf) && Undirected(tree.Lists) && 0 <= u < tree.n && 0 <= v < tree.n
    modifies tree.Repr
    ensures SelectRig(edges, S, tree, uf) && fresh(tree.Repr - old(tree.Repr))
    ensures tree.Lists == Graphs.Link(old(tree.Lists), u, v, w)
  {
    var _ := tree.AddEdge(u, v, w);
  }

  /** Line 256 within the selection loop's layout. */
  method Unify(edges: array<Edge>, ghost S: seq<Edge>, tree: Graph, uf: UnionFind, u: int, v: int, ghost R: seq<int>)
    requires SelectRig(edges, S, tree, uf) && SameClasses(Roots(uf.parent[..], uf.rank[..]), R)
    requires 0 <= u < |R| && 0 <= v < |R| && R[u] != R[v]
    modifies uf.parent, uf.rank
    ensures SelectRig(edges, S, tree, uf)
    ensures tree.Repr == old(tree.Repr) && tree.Lists == old(tree.Lists)
    ensures SameClasses(Roots(uf.parent[..], uf.rank[..]), Merge(R, R[u], R[v]))
  {
    Combine(uf, u, v, R);
  }

  /** Line 254: whether `find` gives `u` and `v` different roots, which
      is whether the labels `R` put them in different classes. */
  method Separated(uf: UnionFind, u: int, v: int, ghost R: seq<int>) returns (apart: bool)
    requires uf.Valid() && SameClasses(Roots(uf.parent[..], uf.rank[..]), R) && 0 <= u < |R| && 0 <= v < |R|
    modifies uf.parent
    ensures uf.Valid() && SameClasses(Roots(uf.parent[..], uf.rank[..]), R)
    ensures apart <==> R[u] != R[v]
  {
    var ru := Locate(uf, u);
    var rv := Locate(uf, v);
    apart := ru != rv;
  }

  /** `find` as seen from outside: the root of `x`, with every element
      keeping its root. */
  method Locate(uf: UnionFind, x: int) returns (r: int)
    requires uf.Valid() && 0 <= x < uf.size
    modifies uf.parent
    ensures uf.Valid() && uf.rank[..] == old(uf.rank[..])
    ensures Roots(uf.parent[..], uf.rank[..]) == old(Roots(uf.parent[..], uf.rank[..]))
    ensures r == Roots(uf.parent[..], uf.rank[..])[x]
  {
    r := uf.Find(x);
  }

  /** Line 256: `unite` of two vertices the labels `R` separate merges
      their two classes and no others. */
  method Combine(uf: UnionFind, u: int, v: int, ghost R: seq<int>)
    requires uf.Valid() && SameClasses(Roots(uf.parent[..], uf.rank[..]), R) && 0 <= u < |R| && 0 <= v < |R|
    requires R[u] != R[v]
    modifies uf.parent, uf.rank
    ensures uf.Valid() && SameClasses(Roots(uf.parent[..], uf.rank[..]), Merge(R, R[u], R[v]))
  {
    ghost var A := Roots(uf.parent[..], uf.rank[..]);
    uf.Unite(u, v);
    UniteClasses(A, Roots(uf.parent[..], uf.rank[..]), R, u, v);
  }
}
