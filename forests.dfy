/** `kruskal` as functions of the input's lists: the edges it collects,
    the order its bubble sort leaves them in, and the forest it selects
    from them. */
module Forests {
  import opened EdgeLists
  import opened Graphs
  import opened Reachability
  import opened Trees

  /** One collected edge (the `Edge` struct of `kruskal`). */
  datatype Edge = Edge(u: int, v: int, w: int)

  // ---------------------------------------------------------------------
  // Collecting the edges (lines 226-237)

  /** The edges the inner collection loop takes from the first `i`
      entries of `u`'s list: one per entry whose destination is above
      `u`, weighted as `getEdgeWeight(u, v)` reports. */
  function ListEdges(G: Table, u: int, i: nat): seq<Edge>
    requires 0 <= u < |G| && i <= |G[u]|
  {
    if i == 0 then []
    else
      var v := G[u][i - 1].dest;
      ListEdges(G, u, i - 1) + (if u < v then [Edge(u, v, WeightOf(G[u], v))] else [])
  }

  /** The edges collected from the lists of the vertices below `u`. */
  function EdgesBefore(G: Table, u: nat): seq<Edge>
    requires u <= |G|
  {
    if u == 0 then [] else EdgesBefore(G, u - 1) + ListEdges(G, u - 1, |G[u - 1]|)
  }

  /** Every edge `kruskal` collects, in collection order. */
  function Collected(G: Table): seq<Edge>
  {
    EdgesBefore(G, |G|)
  }

  /** Every edge of `E` runs from a lower to a higher vertex along a
      stored edge of `G`, with the weight a scan of `G` reports. */
  ghost predicate Drawn(G: Table, E: seq<Edge>)
  {
    forall e :: e in E ==> 0 <= e.u < e.v < |G| && HasDest(G[e.u], e.v) && e.w == WeightOf(G[e.u], e.v)
  }

  lemma DrawnAt(G: Table, E: seq<Edge>, k: int)
    requires Drawn(G, E) && 0 <= k < |E|
    ensures 0 <= E[k].u < E[k].v < |G| && HasDest(G[E[k].u], E[k].v) && E[k].w == WeightOf(G[E[k].u], E[k].v)
  {
    assert E[k] in E;
  }

  /** Drawn edges join vertices of `G`. */
  lemma DrawnJoins(G: Table, E: seq<Edge>)
    requires Drawn(G, E)
    ensures Joins(E, |G|)
  {
  }

  lemma {:induction false} ListEdgesDrawn(G: Table, u: int, i: nat)
    requires DestsInRange(G) && 0 <= u < |G| && i <= |G[u]|
    ensures Drawn(G, ListEdges(G, u, i))
  {
    if i > 0 {
      ListEdgesDrawn(G, u, i - 1);
      assert HasDest(G[u], G[u][i - 1].dest);
    }
  }

  lemma {:induction false} EdgesBeforeDrawn(G: Table, u: nat)
    requires DestsInRange(G) && u <= |G|
    ensures Drawn(G, EdgesBefore(G, u))
  {
    if u > 0 {
      EdgesBeforeDrawn(G, u - 1);
      ListEdgesDrawn(G, u - 1, |G[u - 1]|);
    }
  }

  /** `kruskal` collects only stored edges, each from its lower end. */
  lemma CollectedDrawn(G: Table)
    requires DestsInRange(G)
    ensures Drawn(G, Collected(G))
  {
    EdgesBeforeDrawn(G, |G|);
  }

  lemma {:induction false} ListEdgesHolds(G: Table, u: int, i: nat, k: nat)
    requires 0 <= u < |G| && k < i <= |G[u]| && u < G[u][k].dest
    ensures Edge(u, G[u][k].dest, WeightOf(G[u], G[u][k].dest)) in ListEdges(G, u, i)
  {
    if k < i - 1 {
      ListEdgesHolds(G, u, i - 1, k);
    }
  }

  lemma {:induction false} EdgesBeforeHolds(G: Table, u: nat, a: int, e: Edge)
    requires a < u <= |G| && 0 <= a && e in ListEdges(G, a, |G[a]|)
    ensures e in EdgesBefore(G, u)
  {
    if a < u - 1 {
      EdgesBeforeHolds(G, u - 1, a, e);
    }
  }

  /** Every stored edge from a lower to a higher vertex is collected. */
  lemma CollectedHolds(G: Table, a: int, b: int)
    requires 0 <= a < b < |G| && HasDest(G[a], b)
    ensures Edge(a, b, WeightOf(G[a], b)) in Collected(G)
  {
    var k :| 0 <= k < |G[a]| && G[a][k].dest == b;
    ListEdgesHolds(G, a, |G[a]|, k);
    EdgesBeforeHolds(G, |G|, a, Edge(a, b, WeightOf(G[a], b)));
  }

  lemma {:induction false} ListEdgesLength(G: Table, u: int, i: nat, j: nat)
    requires 0 <= u < |G| && i <= j <= |G[u]|
    ensures |ListEdges(G, u, i)| <= |ListEdges(G, u, j)| <= j
  {
    if i < j {
      ListEdgesLength(G, u, i, j - 1);
      ListEdgesStep(G, u, j);
    } else if j > 0 {
      ListEdgesLength(G, u, j - 1, j - 1);
      ListEdgesStep(G, u, j);
    }
  }

  lemma EdgesBeforeNext(G: Table, u: nat)
    requires u < |G|
    ensures EdgesBefore(G, u + 1) == EdgesBefore(G, u) + ListEdges(G, u, |G[u]|)
  {
  }

  /** An entry pointing above its vertex adds its edge. */
  lemma ListEdgesAbove(G: Table, u: int, i: nat, w: int)
    requires 0 <= u < |G| && i < |G[u]| && u < G[u][i].dest && w == WeightOf(G[u], G[u][i].dest)
    ensures ListEdges(G, u, i + 1) == ListEdges(G, u, i) + [Edge(u, G[u][i].dest, w)]
  {
  }

  /** An entry pointing at or below its vertex adds nothing. */
  lemma ListEdgesBelow(G: Table, u: int, i: nat)
    requires 0 <= u < |G| && i < |G[u]| && G[u][i].dest <= u
    ensures ListEdges(G, u, i + 1) == ListEdges(G, u, i)
  {
  }

  lemma ListEdgesStep(G: Table, u: int, i: nat)
    requires 0 <= u < |G| && 0 < i <= |G[u]|
    ensures |ListEdges(G, u, i - 1)| <= |ListEdges(G, u, i)| <= |ListEdges(G, u, i - 1)| + 1
  {
  }

  lemma {:induction false} EdgesBeforeLength(G: Table, u: nat, t: nat)
    requires u <= t <= |G|
    ensures |EdgesBefore(G, u)| <= |EdgesBefore(G, t)|
  {
    if u < t {
      EdgesBeforeLength(G, u, t - 1);
    }
  }

  /** What the collection loop has gathered part way through `u`'s list
      never exceeds what it gathers in all. */
  lemma CollectedBound(G: Table, u: int, i: nat)
    requires 0 <= u < |G| && i <= |G[u]|
    ensures |EdgesBefore(G, u) + ListEdges(G, u, i)| <= |Collected(G)|
  {
    ListEdgesLength(G, u, i, |G[u]|);
    EdgesBeforeLength(G, u + 1, |G|);
  }

  /** No list contributes more edges than it has entries. */
  lemma {:induction false} EdgesBeforeWithin(G: Table, u: nat)
    requires u <= |G|
    ensures |EdgesBefore(G, u)| <= TotalLength(G[..u])
  {
    if u > 0 {
      EdgesBeforeWithin(G, u - 1);
      ListEdgesLength(G, u - 1, |G[u - 1]|, |G[u - 1]|);
      assert G[..u][..u - 1] == G[..u - 1];
    }
  }

  /** `kruskal` collects at most as many edges as the lists hold entries. */
  lemma CollectedWithin(G: Table)
    ensures |Collected(G)| <= TotalLength(G)
  {
    EdgesBeforeWithin(G, |G|);
    assert G[..|G|] == G;
  }

  /** The lists after `addEdge(0, 1, 1)` five times on two vertices. */
  function FiveParallel(): Table
  {
    var L1 := Link(NoEdges(2), 0, 1, 1);
    var L2 := Link(L1, 0, 1, 1);
    var L3 := Link(L2, 0, 1, 1);
    var L4 := Link(L3, 0, 1, 1);
    Link(L4, 0, 1, 1)
  }

  /** The five parallel edges sit five times in each list. */
  lemma FiveParallelShape()
    ensures Undirected(FiveParallel())
    ensures FiveParallel() == [[Entry(1, 1), Entry(1, 1), Entry(1, 1), Entry(1, 1), Entry(1, 1)],
                               [Entry(0, 1), Entry(0, 1), Entry(0, 1), Entry(0, 1), Entry(0, 1)]]
  {
    var L0 := NoEdges(2);
    EmptyUndirected(2);
    var L1 := Link(L0, 0, 1, 1);
    LinkUndirected(L0, 0, 1, 1);
    var L2 := Link(L1, 0, 1, 1);
    LinkUndirected(L1, 0, 1, 1);
    var L3 := Link(L2, 0, 1, 1);
    LinkUndirected(L2, 0, 1, 1);
    var L4 := Link(L3, 0, 1, 1);
    LinkUndirected(L3, 0, 1, 1);
    var G := Link(L4, 0, 1, 1);
    LinkUndirected(L4, 0, 1, 1);
    assert FiveParallel() == G;
    var e, f := Entry(1, 1), Entry(0, 1);
    assert G[0] == [e, e, e, e, e];
    assert G[1] == [f, f, f, f, f];
  }

  /** On those lists every entry of vertex 0 is collected and none of
      vertex 1. */
  lemma FiveCollected(G: Table)
    requires G == [[Entry(1, 1), Entry(1, 1), Entry(1, 1), Entry(1, 1), Entry(1, 1)],
                   [Entry(0, 1), Entry(0, 1), Entry(0, 1), Entry(0, 1), Entry(0, 1)]]
    ensures |Collected(G)| == 5
  {
    assert WeightOf(G[0], 1) == 1;
    var d := Edge(0, 1, 1);
    assert ListEdges(G, 0, 1) == [d];
    assert ListEdges(G, 0, 3) == [d, d, d];
    assert ListEdges(G, 0, 5) == [d, d, d, d, d];
    assert ListEdges(G, 1, 1) == [];
    assert ListEdges(G, 1, 3) == [];
    assert ListEdges(G, 1, 5) == [];
    assert EdgesBefore(G, 1) == [d, d, d, d, d];
    assert Collected(G) == EdgesBefore(G, 2) == [d, d, d, d, d];
  }

  /** `addEdge` accepts parallel edges, and then the collection loop
      gathers more edges than the `n * n` slots `kruskal` allocates. */
  lemma FiveParallelOverflows()
    ensures Undirected(FiveParallel())
    ensures |Collected(FiveParallel())| == 5 > |FiveParallel()| * |FiveParallel()|
  {
    FiveParallelShape();
    FiveCollected(FiveParallel());
  }

  // ---------------------------------------------------------------------
  // The bubble sort (lines 240-248)

  /** Lines 242-246: exchange the edges at `j` and `j + 1` when the first
      is strictly heavier. */
  function Swapped(s: seq<Edge>, j: nat): seq<Edge>
    requires j + 1 < |s|
  {
    if s[j].w > s[j + 1].w then s[j := s[j + 1]][j + 1 := s[j]] else s
  }

  /** The first `j` turns of the inner loop. */
  function Bubble(s: seq<Edge>, j: nat): (r: seq<Edge>)
    requires j == 0 || j < |s|
    ensures |r| == |s|
  {
    if j == 0 then s else Swapped(Bubble(s, j - 1), j - 1)
  }

  /** The first `i` passes of the outer loop: pass `p` runs the inner
      loop |s| - p - 1 times. */
  function Passes(s: seq<Edge>, i: nat): (r: seq<Edge>)
    requires i <= |s|
    ensures |r| == |s|
  {
    if i == 0 then s else Bubble(Passes(s, i - 1), |s| - i)
  }

  /** The edges after the whole sort: |s| - 1 passes. */
  function BubbleSort(s: seq<Edge>): (r: seq<Edge>)
  {
    Passes(s, if |s| == 0 then 0 else |s| - 1)
  }

  lemma BubbleStep(s: seq<Edge>, j: nat)
    requires 0 < j < |s|
    ensures Bubble(s, j) == Swapped(Bubble(s, j - 1), j - 1)
  {
  }

  lemma PassesStep(s: seq<Edge>, i: nat)
    requires 0 < i <= |s|
    ensures Passes(s, i) == Bubble(Passes(s, i - 1), |s| - i)
  {
  }

  /** One exchange moves nothing but the pair, leaves it in weight order
      and keeps both of its edges. */
  lemma SwappedFacts(s: seq<Edge>, j: nat)
    requires j + 1 < |s|
    ensures |Swapped(s, j)| == |s|
    ensures forall k :: 0 <= k < |s| && k != j && k != j + 1 ==> Swapped(s, j)[k] == s[k]
    ensures Swapped(s, j)[j].w <= Swapped(s, j)[j + 1].w
    ensures || (Swapped(s, j)[j] == s[j] && Swapped(s, j)[j + 1] == s[j + 1])
            || (Swapped(s, j)[j] == s[j + 1] && Swapped(s, j)[j + 1] == s[j])
  {
  }

  /** Weights never decrease along `s`. */
  ghost predicate SortedByWeight(s: seq<Edge>)
  {
    forall a, b :: 0 <= a < b < |s| ==> s[a].w <= s[b].w
  }

  /** The edges of `s` with weight `x`, in order. */
  function OfWeight(s: seq<Edge>, x: int): seq<Edge>
  {
    if s == [] then [] else OfWeight(s[..|s| - 1], x) + (if s[|s| - 1].w == x then [s[|s| - 1]] else [])
  }

  /** Every element at a position from `L` on is at least as heavy as
      every element before `L`. */
  ghost predicate Split(t: seq<Edge>, L: nat)
  {
    forall a, b :: 0 <= a < L <= b < |t| ==> t[a].w <= t[b].w
  }

  /** After `m` passes the last `m` positions hold the heaviest edges in
      order. */
  ghost predicate Settled(t: seq<Edge>, m: nat)
    requires m <= |t|
  {
    && (forall a, b :: |t| - m <= a < b < |t| ==> t[a].w <= t[b].w)
    && Split(t, |t| - m)
  }

  /** The inner loop touches nothing past position `j`. */
  lemma {:induction false} BubbleTail(s: seq<Edge>, j: nat)
    requires j < |s|
    ensures forall k :: j < k < |s| ==> Bubble(s, j)[k] == s[k]
  {
    if j > 0 {
      var t := Bubble(s, j - 1);
      BubbleTail(s, j - 1);
      BubbleStep(s, j);
      SwappedFacts(t, j - 1);
    }
  }

  /** The inner loop carries a heaviest edge among the first j + 1 to
      position `j`. */
  lemma {:induction false} BubbleMax(s: seq<Edge>, j: nat)
    requires j < |s|
    ensures forall k :: 0 <= k <= j ==> Bubble(s, j)[k].w <= Bubble(s, j)[j].w
  {
    if j > 0 {
      var t := Bubble(s, j - 1);
      BubbleMax(s, j - 1);
      BubbleStep(s, j);
      SwappedFacts(t, j - 1);
    }
  }

  /** Swaps below `L` keep every element before `L` no heavier than any
      from `L` on. */
  lemma {:induction false} BubbleSplit(s: seq<Edge>, j: nat, L: nat)
    requires j < L <= |s| && Split(s, L)
    ensures Split(Bubble(s, j), L)
  {
    if j > 0 {
      var t := Bubble(s, j - 1);
      BubbleSplit(s, j - 1, L);
      BubbleStep(s, j);
      SwappedFacts(t, j - 1);
    }
  }

  lemma {:induction false} PassesSettled(s: seq<Edge>, i: nat)
    requires i < |s|
    ensures Settled(Passes(s, i), i)
  {
    if i > 0 {
      var t := Passes(s, i - 1);
      var n := |s|;
      PassesSettled(s, i - 1);
      PassesStep(s, i);
      BubbleTail(t, n - i);
      BubbleMax(t, n - i);
      BubbleSplit(t, n - i, n - i + 1);
      SettledStep(t, Bubble(t, n - i), i);
    }
  }

  /** The bookkeeping of one pass: a pass that keeps the settled tail,
      keeps every lighter edge before it and brings a heaviest of the rest
      to the front of the tail settles one more position. */
  lemma SettledStep(t: seq<Edge>, r: seq<Edge>, i: nat)
    requires 0 < i < |t| == |r| && Settled(t, i - 1)
    requires forall k :: |t| - i < k < |t| ==> r[k] == t[k]
    requires forall k :: 0 <= k <= |t| - i ==> r[k].w <= r[|t| - i].w
    requires Split(r, |t| - i + 1)
    ensures Settled(r, i)
  {
  }

  /** The bubble sort leaves weights nondecreasing. */
  lemma BubbleSortSorted(s: seq<Edge>)
    ensures SortedByWeight(BubbleSort(s))
  {
    if |s| > 0 {
      PassesSettled(s, |s| - 1);
    }
  }

  lemma {:induction false} OfWeightConcat(a: seq<Edge>, b: seq<Edge>, x: int)
    ensures OfWeight(a + b, x) == OfWeight(a, x) + OfWeight(b, x)
    decreases |b|
  {
    if b == [] {
      assert a + b == a;
    } else {
      var ab := a + b;
      assert ab[..|ab| - 1] == a + b[..|b| - 1];
      assert ab[|ab| - 1] == b[|b| - 1];
      OfWeightConcat(a, b[..|b| - 1], x);
    }
  }

  /** An exchange of two edges of different weights keeps each weight's
      edges in order. */
  lemma SwappedStable(s: seq<Edge>, j: nat, x: int)
    requires j + 1 < |s|
    ensures OfWeight(Swapped(s, j), x) == OfWeight(s, x)
  {
    if s[j].w > s[j + 1].w {
      var pre, c, d, post := s[..j], s[j], s[j + 1], s[j + 2..];
      assert s == pre + [c, d] + post;
      assert Swapped(s, j) == pre + [d, c] + post;
      OfWeightConcat(pre + [c, d], post, x);
      OfWeightConcat(pre, [c, d], x);
      OfWeightConcat(pre + [d, c], post, x);
      OfWeightConcat(pre, [d, c], x);
      OfWeightPair(c, d, x);
    }
  }

  /** Two edges of different weights: at most one has weight `x`. */
  lemma OfWeightPair(c: Edge, d: Edge, x: int)
    requires c.w != d.w
    ensures OfWeight([c, d], x) == OfWeight([d, c], x)
  {
    assert [c, d][..1] == [c] && [d, c][..1] == [d];
    assert [c][..0] == [] && [d][..0] == [];
  }

  lemma SameWeights(a: seq<Edge>, b: seq<Edge>, c: seq<Edge>, d: seq<Edge>, x: int)
    requires a == b && OfWeight(b, x) == OfWeight(c, x) && OfWeight(c, x) == OfWeight(d, x)
    ensures OfWeight(a, x) == OfWeight(d, x)
  {
  }

  lemma {:induction false} BubbleStable(s: seq<Edge>, j: nat, x: int)
    requires j == 0 || j < |s|
    ensures OfWeight(Bubble(s, j), x) == OfWeight(s, x)
  {
    if j > 0 {
      var t := Bubble(s, j - 1);
      BubbleStable(s, j - 1, x);
      BubbleStep(s, j);
      SwappedStable(t, j - 1, x);
      SameWeights(Bubble(s, j), Swapped(t, j - 1), t, s, x);
    }
  }

  lemma {:induction false} PassesStable(s: seq<Edge>, i: nat, x: int)
    requires i <= |s|
    ensures OfWeight(Passes(s, i), x) == OfWeight(s, x)
  {
    if i > 0 {
      var t := Passes(s, i - 1);
      PassesStable(s, i - 1, x);
      PassesStep(s, i);
      BubbleStable(t, |s| - i, x);
      SameWeights(Passes(s, i), Bubble(t, |s| - i), t, s, x);
    }
  }

  /** The bubble sort is stable: the edges of each weight keep their
      order. */
  lemma BubbleSortStable(s: seq<Edge>, x: int)
    ensures OfWeight(BubbleSort(s), x) == OfWeight(s, x)
  {
    PassesStable(s, if |s| == 0 then 0 else |s| - 1, x);
  }

  /** An edge occurs in `s` as often as among the edges of its weight. */
  lemma {:induction false} CountByWeight(s: seq<Edge>, e: Edge)
    ensures multiset(s)[e] == multiset(OfWeight(s, e.w))[e]
  {
    if s != [] {
      var front, last := s[..|s| - 1], s[|s| - 1];
      assert s == front + [last];
      CountByWeight(front, e);
    }
  }

  /** The bubble sort rearranges the edges: being stable, it keeps the
      edges of every weight, so it keeps every edge as often. */
  lemma BubbleSortPermutes(s: seq<Edge>)
    ensures multiset(BubbleSort(s)) == multiset(s)
  {
    var t := BubbleSort(s);
    forall e
      ensures multiset(t)[e] == multiset(s)[e]
    {
      CountByWeight(t, e);
      CountByWeight(s, e);
      BubbleSortStable(s, e.w);
    }
  }

  // ---------------------------------------------------------------------
  // Selecting the forest (lines 251-258)

  /** Both endpoints of every edge of `E` are among `n` vertices. */
  ghost predicate Joins(E: seq<Edge>, n: int)
  {
    forall e :: e in E ==> 0 <= e.u < n && 0 <= e.v < n
  }

  /** The forest built so far, with a label per vertex that two vertices
      share exactly when `uf.find` gives them the same root. */
  datatype Grove = Grove(lists: Table, rep: seq<int>)

  /** `unite` on labels: the class labelled `b` takes the label `a`. */
  function Merge(R: seq<int>, a: int, b: int): (r: seq<int>)
    ensures |r| == |R|
  {
    seq(|R|, x requires 0 <= x < |R| => if R[x] == b then a else R[x])
  }

  /** Lines 252-257 for one edge: when `find` separates its endpoints, add
      it to the tree and unite their classes. */
  function Pick(g: Grove, e: Edge): (r: Grove)
    requires |g.rep| == |g.lists| && 0 <= e.u < |g.lists| && 0 <= e.v < |g.lists|
    ensures |r.lists| == |r.rep| == |g.lists|
  {
    if g.rep[e.u] == g.rep[e.v] then g
    else Grove(Link(g.lists, e.u, e.v, e.w), Merge(g.rep, g.rep[e.u], g.rep[e.v]))
  }

  /** `Graph tree(n)` and `unionFind uf(n)`: no edges, each vertex alone. */
  function Alone(n: nat): (g: Grove)
    ensures |g.lists| == |g.rep| == n
  {
    Grove(NoEdges(n), seq(n, x => x))
  }

  lemma PicksStep(E: seq<Edge>, i: nat, n: nat)
    requires 0 < i <= |E| && Joins(E, n)
    ensures Picks(E, i, n) == Pick(Picks(E, i - 1, n), E[i - 1])
  {
  }

  /** The state after the first `i` edges of `E` on `n` vertices. */
  function Picks(E: seq<Edge>, i: nat, n: nat): (g: Grove)
    requires i <= |E| && Joins(E, n)
    ensures |g.lists| == |g.rep| == n
  {
    if i == 0 then Alone(n) else Pick(Picks(E, i - 1, n), E[i - 1])
  }

  /** The forest `kruskal(g)` returns for a graph with lists `G`. */
  ghost function KruskalForest(G: Table): (F: Table)
    requires DestsInRange(G)
    ensures |F| == |G|
  {
    var S := BubbleSort(Collected(G));
    SortedDrawn(G);
    Picks(S, |S|, |G|).lists
  }

  /** The sorted edges are the collected ones: drawn from `G`. */
  lemma SortedDrawn(G: Table)
    requires DestsInRange(G)
    ensures Drawn(G, BubbleSort(Collected(G))) && Joins(BubbleSort(Collected(G)), |G|)
  {
    var C := Collected(G);
    var S := BubbleSort(C);
    CollectedDrawn(G);
    BubbleSortPermutes(C);
    forall e | e in S
      ensures e in C
    {
      assert e in multiset(S);
    }
    DrawnJoins(G, S);
  }

  /** Every stored edge from a lower to a higher vertex is among the
      sorted edges. */
  lemma SortedHolds(G: Table, a: int, b: int)
    requires 0 <= a < b < |G| && HasDest(G[a], b)
    ensures Edge(a, b, WeightOf(G[a], b)) in BubbleSort(Collected(G))
  {
    var C := Collected(G);
    CollectedHolds(G, a, b);
    BubbleSortPermutes(C);
    assert Edge(a, b, WeightOf(G[a], b)) in multiset(BubbleSort(C));
  }

  /** `A` and `R` group the vertices alike. */
  ghost predicate SameClasses(A: seq<int>, R: seq<int>)
  {
    |A| == |R| && forall x, y :: 0 <= x < |A| && 0 <= y < |A| ==> (A[x] == A[y] <==> R[x] == R[y])
  }

  /** `unite(x, y)` on roots `A` that `find` separates puts the two
      classes under one of their roots and leaves every other root; the
      roots `B` it leaves group the vertices as `Merge` groups the labels. */
  lemma UniteClasses(A: seq<int>, B: seq<int>, R: seq<int>, x: int, y: int)
    requires SameClasses(A, R) && |B| == |A| && 0 <= x < |A| && 0 <= y < |A| && A[x] != A[y]
    requires B[x] == A[x] || B[x] == A[y]
    requires forall a :: 0 <= a < |A| ==> B[a] == if A[a] in {A[x], A[y]} then B[x] else A[a]
    ensures SameClasses(B, Merge(R, R[x], R[y]))
  {
  }

  /** Two vertices share a label exactly when `T` connects them. */
  ghost predicate Labels(R: seq<int>, T: Table)
  {
    |R| == |T| && forall x, y :: 0 <= x < |T| && 0 <= y < |T| ==> (R[x] == R[y] <==> Reachable(T, x, y))
  }

  /** The labels of the start are the classes of the empty graph. */
  lemma AloneLabels(n: nat)
    ensures Undirected(Alone(n).lists) && Labels(Alone(n).rep, Alone(n).lists)
  {
    EmptyUndirected(n);
    forall x, y | 0 <= x < n && 0 <= y < n
      ensures Alone(n).rep[x] == Alone(n).rep[y] <==> Reachable(NoEdges(n), x, y)
    {
      NoEdgesReach(n, x, y);
    }
  }

  /** Merging the labels of two classes matches adding an edge between
      them. */
  lemma PickLabels(g: Grove, e: Edge)
    requires Undirected(g.lists) && Labels(g.rep, g.lists)
    requires 0 <= e.u < |g.lists| && 0 <= e.v < |g.lists|
    ensures Undirected(Pick(g, e).lists) && Labels(Pick(g, e).rep, Pick(g, e).lists)
  {
    var T, R := g.lists, g.rep;
    if R[e.u] != R[e.v] {
      var T1 := Link(T, e.u, e.v, e.w);
      var R1 := Merge(R, R[e.u], R[e.v]);
      assert Pick(g, e) == Grove(T1, R1);
      LinkUndirected(T, e.u, e.v, e.w);
      forall x, y | 0 <= x < |T| && 0 <= y < |T|
        ensures R1[x] == R1[y] <==> Reachable(T1, x, y)
      {
        LinkReachable(T, e.u, e.v, e.w, x, y);
        assert Reachable(T, x, e.u) <==> R[x] == R[e.u];
        assert Reachable(T, e.v, y) <==> R[e.v] == R[y];
        assert Reachable(T, x, e.v) <==> R[x] == R[e.v];
        assert Reachable(T, e.u, y) <==> R[e.u] == R[y];
      }
    }
  }

  /** Every state of the loop keeps labels that are the classes of an
      undirected forest. */
  lemma {:induction false} PicksLabels(E: seq<Edge>, i: nat, n: nat)
    requires i <= |E| && Joins(E, n)
    ensures Undirected(Picks(E, i, n).lists) && Labels(Picks(E, i, n).rep, Picks(E, i, n).lists)
  {
    if i == 0 {
      AloneLabels(n);
    } else {
      PicksLabels(E, i - 1, n);
      PicksLabelsLast(E, i, n);
    }
  }

  lemma PicksLabelsLast(E: seq<Edge>, i: nat, n: nat)
    requires 0 < i <= |E| && Joins(E, n)
    requires Undirected(Picks(E, i - 1, n).lists) && Labels(Picks(E, i - 1, n).rep, Picks(E, i - 1, n).lists)
    ensures Undirected(Picks(E, i, n).lists) && Labels(Picks(E, i, n).rep, Picks(E, i, n).lists)
  {
    assert E[i - 1] in E;
    PickLabels(Picks(E, i - 1, n), E[i - 1]);
    PicksStep(E, i, n);
  }

  /** One step adds two entries exactly when it merges two classes. */
  lemma PickForest(g: Grove, e: Edge, n: nat)
    requires |g.lists| == n && Undirected(g.lists) && Labels(g.rep, g.lists)
    requires 0 <= e.u < n && 0 <= e.v < n
    requires TotalLength(g.lists) == 2 * (n - |Components(g.lists)|)
    ensures TotalLength(Pick(g, e).lists) == 2 * (n - |Components(Pick(g, e).lists)|)
  {
    var T := g.lists;
    if g.rep[e.u] != g.rep[e.v] {
      assert Pick(g, e).lists == Link(T, e.u, e.v, e.w);
      LinkTotal(T, e.u, e.v, e.w);
      LinkComponents(T, e.u, e.v, e.w);
    }
  }

  /** The entries stay twice the number of vertices less the number of
      classes: one undirected edge fewer per class than it has vertices. */
  lemma {:induction false} PicksForest(E: seq<Edge>, i: nat, n: nat)
    requires i <= |E| && Joins(E, n)
    ensures TotalLength(Picks(E, i, n).lists) == 2 * (n - |Components(Picks(E, i, n).lists)|)
  {
    if i == 0 {
      NoEdgesTotal(n);
      NoEdgesComponents(n);
    } else {
      PicksForest(E, i - 1, n);
      PicksForestLast(E, i, n);
    }
  }

  lemma PicksForestLast(E: seq<Edge>, i: nat, n: nat)
    requires 0 < i <= |E| && Joins(E, n)
    requires TotalLength(Picks(E, i - 1, n).lists) == 2 * (n - |Components(Picks(E, i - 1, n).lists)|)
    ensures TotalLength(Picks(E, i, n).lists) == 2 * (n - |Components(Picks(E, i, n).lists)|)
  {
    assert E[i - 1] in E;
    PicksLabels(E, i - 1, n);
    PickForest(Picks(E, i - 1, n), E[i - 1], n);
    PicksStep(E, i, n);
  }

  /** One step with an edge drawn from `G` keeps a subgraph of `G`. */
  lemma PickSubgraph(G: Table, g: Grove, e: Edge)
    requires Undirected(G) && SubgraphOf(g.lists, G) && |g.rep| == |G|
    requires 0 <= e.u < |G| && 0 <= e.v < |G| && HasDest(G[e.u], e.v) && e.w == WeightOf(G[e.u], e.v)
    ensures SubgraphOf(Pick(g, e).lists, G)
  {
    if g.rep[e.u] != g.rep[e.v] {
      assert Pick(g, e).lists == Link(g.lists, e.u, e.v, e.w);
      LinkSubgraph(g.lists, G, e.u, e.v);
    }
  }

  /** Edges drawn from `G` select a subgraph of `G`. */
  lemma {:induction false} PicksSubgraph(G: Table, E: seq<Edge>, i: nat)
    requires Undirected(G) && Drawn(G, E) && Joins(E, |G|) && i <= |E|
    ensures SubgraphOf(Picks(E, i, |G|).lists, G)
  {
    if i == 0 {
      EmptySubgraph(G);
    } else {
      PicksSubgraph(G, E, i - 1);
      PicksSubgraphLast(G, E, i);
    }
  }

  lemma PicksSubgraphLast(G: Table, E: seq<Edge>, i: nat)
    requires Undirected(G) && Drawn(G, E) && Joins(E, |G|) && 0 < i <= |E|
    requires SubgraphOf(Picks(E, i - 1, |G|).lists, G)
    ensures SubgraphOf(Picks(E, i, |G|).lists, G)
  {
    DrawnAt(G, E, i - 1);
    PickSubgraph(G, Picks(E, i - 1, |G|), E[i - 1]);
    PicksStep(E, i, |G|);
  }

  /** After one step the edge's endpoints are connected. */
  lemma PickJoins(g: Grove, e: Edge)
    requires Labels(g.rep, g.lists) && 0 <= e.u < |g.lists| && 0 <= e.v < |g.lists|
    ensures Reachable(Pick(g, e).lists, e.u, e.v)
  {
    if g.rep[e.u] != g.rep[e.v] {
      var F := Link(g.lists, e.u, e.v, e.w);
      assert Pick(g, e).lists == F;
      LinkQueries(g.lists, e.u, e.v, e.w);
      ReachableRefl(F, e.u);
      ReachableStep(F, e.u, e.u, e.v);
    }
  }

  /** One step keeps every connection. */
  lemma PickKeeps(g: Grove, e: Edge, x: int, y: int)
    requires |g.rep| == |g.lists| && 0 <= e.u < |g.lists| && 0 <= e.v < |g.lists|
    requires Reachable(g.lists, x, y)
    ensures Reachable(Pick(g, e).lists, x, y)
  {
    if g.rep[e.u] != g.rep[e.v] {
      assert Pick(g, e).lists == Link(g.lists, e.u, e.v, e.w);
      LinkKeepsReachable(g.lists, e.u, e.v, e.w, x, y);
    }
  }

  /** Once an edge has been considered its endpoints stay connected. */
  lemma {:induction false} PicksConnect(E: seq<Edge>, i: nat, n: nat, k: nat)
    requires i <= |E| && Joins(E, n) && k < i
    ensures Reachable(Picks(E, i, n).lists, E[k].u, E[k].v)
  {
    var j: nat := i - 1;
    var g := Picks(E, j, n);
    assert E[j] in E;
    if k == j {
      PicksLabels(E, j, n);
      PickJoins(g, E[j]);
    } else {
      PicksConnect(E, j, n, k);
      PickKeeps(g, E[j], E[k].u, E[k].v);
    }
    assert Picks(E, i, n) == Pick(g, E[j]);
  }

  /** A walk in a subgraph is a walk in the host. */
  lemma SubgraphReachable(T: Table, G: Table, x: int, y: int)
    requires SubgraphOf(T, G) && Reachable(T, x, y)
    ensures Reachable(G, x, y)
  {
    var p :| IsPath(T, p) && p[0] == x && p[|p| - 1] == y;
    forall i | 0 <= i < |p| - 1
      ensures HasDest(G[p[i]], p[i + 1])
    {
      assert HasDest(T[p[i]], p[i + 1]);
      var k :| 0 <= k < |T[p[i]]| && T[p[i]][k].dest == p[i + 1];
      assert CarriedBy(G, p[i], T[p[i]]);
    }
    assert IsPath(G, p);
  }

  /** The ends of every stored edge of `G` are connected in the forest. */
  lemma KruskalCoversEdge(G: Table, a: int, b: int)
    requires Undirected(G) && 0 <= a < |G| && 0 <= b < |G| && HasDest(G[a], b)
    ensures Reachable(KruskalForest(G), a, b)
  {
    var S := BubbleSort(Collected(G));
    var F := KruskalForest(G);
    SortedDrawn(G);
    assert F == Picks(S, |S|, |G|).lists;
    if a == b {
      ReachableRefl(F, a);
    } else if a < b {
      SortedHolds(G, a, b);
      var k :| 0 <= k < |S| && S[k] == Edge(a, b, WeightOf(G[a], b));
      PicksConnect(S, |S|, |G|, k);
    } else {
      MirrorEdge(G, a, b);
      SortedHolds(G, b, a);
      var k :| 0 <= k < |S| && S[k] == Edge(b, a, WeightOf(G[b], a));
      PicksConnect(S, |S|, |G|, k);
      PicksLabels(S, |S|, |G|);
      ReachableSymmetric(F, b, a);
    }
  }

  /** What `kruskal` returns for an undirected graph: an undirected
      subgraph of it with the same classes, holding twice as many entries
      as the number of vertices less the number of classes, i.e. one
      undirected edge fewer per class than it has vertices, which makes
      it a spanning forest. */
  lemma KruskalSpans(G: Table)
    requires Undirected(G)
    ensures Undirected(KruskalForest(G)) && SubgraphOf(KruskalForest(G), G)
    ensures forall x, y :: 0 <= x < |G| && 0 <= y < |G| ==>
      (Reachable(KruskalForest(G), x, y) <==> Reachable(G, x, y))
    ensures Components(KruskalForest(G)) == Components(G)
    ensures TotalLength(KruskalForest(G)) == 2 * (|G| - |Components(G)|)
  {
    var S := BubbleSort(Collected(G));
    var F := KruskalForest(G);
    SortedDrawn(G);
    assert F == Picks(S, |S|, |G|).lists;
    PicksLabels(S, |S|, |G|);
    PicksSubgraph(G, S, |S|);
    PicksForest(S, |S|, |G|);
    forall x | 0 <= x < |G|
      ensures ReachSet(F, x) == ReachSet(G, x)
    {
      forall y | 0 <= y < |G|
        ensures Reachable(F, x, y) <==> Reachable(G, x, y)
      {
        KruskalReach(G, x, y);
      }
    }
    forall x, y | 0 <= x < |G| && 0 <= y < |G|
      ensures Reachable(F, x, y) <==> Reachable(G, x, y)
    {
      KruskalReach(G, x, y);
    }
  }

  /** The forest connects two vertices exactly when `G` does. */
  lemma KruskalReach(G: Table, x: int, y: int)
    requires Undirected(G) && 0 <= x < |G| && 0 <= y < |G|
    ensures Reachable(KruskalForest(G), x, y) <==> Reachable(G, x, y)
  {
    var S := BubbleSort(Collected(G));
    var F := KruskalForest(G);
    SortedDrawn(G);
    assert F == Picks(S, |S|, |G|).lists;
    PicksSubgraph(G, S, |S|);
    if Reachable(F, x, y) {
      SubgraphReachable(F, G, x, y);
    }
    if Reachable(G, x, y) {
      var R := ReachSet(F, x);
      forall a, b | 0 <= a < |G| && a in R && HasDest(G[a], b)
        ensures b in R
      {
        KruskalCoversEdge(G, a, b);
        ReachableTrans(F, x, a, b);
      }
      ReachableRefl(F, x);
      ClosedHoldsReachable(G, R, x, y);
    }
  }
}
