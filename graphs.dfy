/** The undirected weighted graph: one adjacency list per vertex, each
    undirected edge stored once in each endpoint's list. */
module Graphs {
  import opened EdgeLists

  /** The weight `addEdge` uses when the caller gives none (Graph.hpp:27). */
  const DefaultWeight := 1

  /** The abstract value of a graph: the contents of each vertex's list. */
  type Table = seq<seq<Entry>>

  /** Every stored destination names a vertex. */
  ghost predicate DestsInRange(L: Table)
  {
    forall u, k :: 0 <= u < |L| && 0 <= k < |L[u]| ==> 0 <= L[u][k].dest < |L|
  }

  /** The mirror invariant: for every pair of vertices, the weights stored
      for `v` in `u`'s list are, in order, those stored for `u` in `v`'s
      list; a self-loop is stored twice in its own list, so such entries
      come in pairs. */
  ghost predicate Mirrored(L: Table)
  {
    && (forall u, v :: 0 <= u < |L| && 0 <= v < |L| ==> WeightsTo(L[u], v) == WeightsTo(L[v], u))
    && (forall u :: 0 <= u < |L| ==> |WeightsTo(L[u], u)| % 2 == 0)
  }

  /** The invariant the public operations keep. */
  ghost predicate Undirected(L: Table)
  {
    DestsInRange(L) && Mirrored(L)
  }

  /** The lists after an in-range `addEdge(u, v, w)`: (v, w) in front of
      u's list, then (u, w) in front of v's list. */
  function Link(L: Table, u: int, v: int, w: int): Table
    requires 0 <= u < |L| && 0 <= v < |L|
  {
    var L1 := L[u := [Entry(v, w)] + L[u]];
    L1[v := [Entry(u, w)] + L1[v]]
  }

  /** The lists after an in-range `removeEdge(u, v)` of a present edge:
      the first v-node of u's list goes, then the first u-node of v's list. */
  function Unlink(L: Table, u: int, v: int): Table
    requires 0 <= u < |L| && 0 <= v < |L|
  {
    var L1 := L[u := RemoveFirst(L[u], v)];
    L1[v := RemoveFirst(L1[v], u)]
  }

  /** The number of nodes over all lists. */
  function TotalLength(L: Table): nat
  {
    if L == [] then 0 else TotalLength(L[..|L| - 1]) + |L[|L| - 1]|
  }

  /** Replacing one list changes the total by the difference in lengths. */
  lemma {:induction false} TotalLengthUpdate(L: Table, i: int, s: seq<Entry>)
    requires 0 <= i < |L|
    ensures TotalLength(L[i := s]) == TotalLength(L) - |L[i]| + |s|
  {
    var n := |L|;
    if i < n - 1 {
      assert L[i := s][..n - 1] == L[..n - 1][i := s];
      TotalLengthUpdate(L[..n - 1], i, s);
    } else {
      assert L[i := s][..n - 1] == L[..n - 1];
    }
  }

  lemma WeightsToCons(e: Entry, s: seq<Entry>, d: int)
    ensures WeightsTo([e] + s, d) == (if e.dest == d then [e.weight] else []) + WeightsTo(s, d)
  {
    assert ([e] + s)[1..] == s;
  }

  lemma RemoveFirstLength(s: seq<Entry>, d: int)
    requires HasDest(s, d)
    ensures |RemoveFirst(s, d)| == |s| - 1
  {
    RemoveFirstSplices(s, d);
  }

  /** What `Link` adds in front of the weights u's list holds for `y`. */
  function Added(x: int, y: int, u: int, v: int, w: int): seq<int>
  {
    (if x == v && y == u then [w] else []) + (if x == u && y == v then [w] else [])
  }

  lemma LinkWeights(L: Table, u: int, v: int, w: int, x: int, y: int)
    requires 0 <= u < |L| && 0 <= v < |L| && 0 <= x < |L|
    ensures WeightsTo(Link(L, u, v, w)[x], y) == Added(x, y, u, v, w) + WeightsTo(L[x], y)
  {
    var L1 := L[u := [Entry(v, w)] + L[u]];
    WeightsToCons(Entry(v, w), L[u], y);
    WeightsToCons(Entry(u, w), L1[v], y);
  }

  /** Every entry of a list after `Link` is an old entry or one of the
      two new ones. */
  lemma LinkDests(L: Table, u: int, v: int, w: int)
    requires DestsInRange(L) && 0 <= u < |L| && 0 <= v < |L|
    ensures DestsInRange(Link(L, u, v, w))
  {
    var L': seq<seq<Entry>> := Link(L, u, v, w);
    forall x, k | 0 <= x < |L'| && 0 <= k < |L'[x]|
      ensures 0 <= L'[x][k].dest < |L'|
    {
      var front := (if x == v then [Entry(u, w)] else []) + (if x == u then [Entry(v, w)] else []);
      assert L'[x] == front + L[x];
      assert L'[x][k] in front || L'[x][k] in L[x];
    }
  }

  /** `addEdge` keeps the mirror invariant. */
  lemma LinkUndirected(L: Table, u: int, v: int, w: int)
    requires Undirected(L) && 0 <= u < |L| && 0 <= v < |L|
    ensures Undirected(Link(L, u, v, w))
  {
    var L': seq<seq<Entry>> := Link(L, u, v, w);
    LinkDests(L, u, v, w);
    forall x, y | 0 <= x < |L'| && 0 <= y < |L'|
      ensures WeightsTo(L'[x], y) == WeightsTo(L'[y], x)
    {
      LinkWeights(L, u, v, w, x, y);
      LinkWeights(L, u, v, w, y, x);
    }
    forall x | 0 <= x < |L'|
      ensures |WeightsTo(L'[x], x)| % 2 == 0
    {
      LinkWeights(L, u, v, w, x, x);
    }
  }

  /** After `addEdge(u, v, w)` both directions are present and both report
      `w`, whatever older entries for the pair exist. */
  lemma LinkQueries(L: Table, u: int, v: int, w: int)
    requires 0 <= u < |L| && 0 <= v < |L|
    ensures HasDest(Link(L, u, v, w)[u], v) && HasDest(Link(L, u, v, w)[v], u)
    ensures WeightOf(Link(L, u, v, w)[u], v) == w && WeightOf(Link(L, u, v, w)[v], u) == w
  {
    var L': seq<seq<Entry>> := Link(L, u, v, w);
    assert L'[v][0] == Entry(u, w);
    if u != v {
      assert L'[u][0] == Entry(v, w);
    }
  }

  /** After `Link(L, u, v, w)` a list points at a vertex exactly when it
      did before or the new edge joins the two. */
  lemma LinkHasDest(L: Table, u: int, v: int, w: int, x: int, y: int)
    requires 0 <= u < |L| && 0 <= v < |L| && 0 <= x < |L|
    ensures HasDest(Link(L, u, v, w)[x], y) <==> HasDest(L[x], y) || (x == u && y == v) || (x == v && y == u)
  {
    var front := (if x == v then [Entry(u, w)] else []) + (if x == u then [Entry(v, w)] else []);
    assert Link(L, u, v, w)[x] == front + L[x];
    HasDestConcat(front, L[x], y);
    if x == u && y == v {
      assert front[|front| - 1].dest == y;
    }
    if x == v && y == u {
      assert front[0].dest == y;
    }
  }

  /** `addEdge` adds one node to each endpoint's list. */
  lemma LinkTotal(L: Table, u: int, v: int, w: int)
    requires 0 <= u < |L| && 0 <= v < |L|
    ensures TotalLength(Link(L, u, v, w)) == TotalLength(L) + 2
  {
    var L1 := L[u := [Entry(v, w)] + L[u]];
    TotalLengthUpdate(L, u, [Entry(v, w)] + L[u]);
    TotalLengthUpdate(L1, v, [Entry(u, w)] + L1[v]);
  }

  /** A mirrored edge can be found from either endpoint, with the same
      first weight. */
  lemma MirrorEdge(L: Table, u: int, v: int)
    requires Undirected(L) && 0 <= u < |L| && 0 <= v < |L| && HasDest(L[u], v)
    ensures HasDest(L[v], u) && WeightOf(L[v], u) == WeightOf(L[u], v)
  {
    WeightsToNonEmpty(L[u], v);
    WeightsToNonEmpty(L[v], u);
  }

  /** Under the mirror invariant, once `u`'s list has lost its first
      v-node, `v`'s list still holds a u-node: the second removal in
      `removeEdge` never fails, even for a self-loop. */
  lemma SecondRemovalFinds(L: Table, u: int, v: int)
    requires Undirected(L) && 0 <= u < |L| && 0 <= v < |L| && HasDest(L[u], v)
    ensures HasDest(L[u := RemoveFirst(L[u], v)][v], u)
  {
    WeightsToNonEmpty(L[u], v);
    WeightsToRemoveFirst(L[u], v, v);
    WeightsToNonEmpty(L[v], u);
    if u == v {
      WeightsToNonEmpty(RemoveFirst(L[u], v), u);
    }
  }

  /** Removing the first b-node of a's list takes the first weight off
      a's weights for b and changes no other pair's weights. */
  lemma RemoveFirstWeights(L: Table, a: int, b: int, x: int, y: int)
    requires 0 <= a < |L| && HasDest(L[a], b) && 0 <= x < |L|
    ensures x == a && y == b ==>
      (|WeightsTo(L[x], y)| >= 1 && WeightsTo(L[a := RemoveFirst(L[a], b)][x], y) == WeightsTo(L[x], y)[1..])
    ensures !(x == a && y == b) ==> WeightsTo(L[a := RemoveFirst(L[a], b)][x], y) == WeightsTo(L[x], y)
  {
    WeightsToNonEmpty(L[a], b);
    WeightsToRemoveFirst(L[a], b, y);
  }

  /** How many of the weights for y in x's list `Unlink(L, u, v)` drops. */
  function Dropped(x: int, y: int, u: int, v: int): nat
  {
    (if x == u && y == v then 1 else 0) + (if x == v && y == u then 1 else 0)
  }

  lemma UnlinkWeights(L: Table, u: int, v: int, x: int, y: int)
    requires Undirected(L) && 0 <= u < |L| && 0 <= v < |L| && HasDest(L[u], v) && 0 <= x < |L|
    ensures Dropped(x, y, u, v) <= |WeightsTo(L[x], y)|
    ensures WeightsTo(Unlink(L, u, v)[x], y) == WeightsTo(L[x], y)[Dropped(x, y, u, v)..]
  {
    var L1 := L[u := RemoveFirst(L[u], v)];
    SecondRemovalFinds(L, u, v);
    RemoveFirstWeights(L, u, v, x, y);
    RemoveFirstWeights(L1, v, u, x, y);
  }

  lemma UnlinkMirrorPair(L: Table, u: int, v: int, x: int, y: int)
    requires Undirected(L) && 0 <= u < |L| && 0 <= v < |L| && HasDest(L[u], v)
    requires 0 <= x < |L| && 0 <= y < |L|
    ensures WeightsTo(Unlink(L, u, v)[x], y) == WeightsTo(Unlink(L, u, v)[y], x)
    ensures x == y ==> |WeightsTo(Unlink(L, u, v)[x], x)| % 2 == 0
  {
    UnlinkWeights(L, u, v, x, y);
    UnlinkWeights(L, u, v, y, x);
    assert Dropped(x, y, u, v) == Dropped(y, x, u, v);
    assert WeightsTo(L[x], y) == WeightsTo(L[y], x);
    if x == y {
      DropPairs(WeightsTo(L[x], x), Dropped(x, x, u, v));
    }
  }

  lemma DropPairs(s: seq<int>, c: nat)
    requires |s| % 2 == 0 && (c == 0 || c == 2) && c <= |s|
    ensures |s[c..]| % 2 == 0
  {
  }

  /** Every entry of a list after `Unlink` was there before. */
  lemma UnlinkDests(L: Table, u: int, v: int)
    requires DestsInRange(L) && 0 <= u < |L| && 0 <= v < |L|
    ensures DestsInRange(Unlink(L, u, v))
  {
    var L': seq<seq<Entry>> := Unlink(L, u, v);
    var L1 := L[u := RemoveFirst(L[u], v)];
    forall x, k | 0 <= x < |L'| && 0 <= k < |L'[x]|
      ensures 0 <= L'[x][k].dest < |L'|
    {
      RemoveFirstSubset(L1[v], u);
      RemoveFirstSubset(L[u], v);
      assert L'[x][k] in L1[x];
      assert L'[x][k] in L[x];
    }
  }

  lemma RemoveFirstSubset(s: seq<Entry>, d: int)
    ensures forall e :: e in RemoveFirst(s, d) ==> e in s
  {
  }

  /** `removeEdge` of a present edge keeps the mirror invariant. */
  lemma UnlinkUndirected(L: Table, u: int, v: int)
    requires Undirected(L) && 0 <= u < |L| && 0 <= v < |L| && HasDest(L[u], v)
    ensures Undirected(Unlink(L, u, v))
  {
    var L': seq<seq<Entry>> := Unlink(L, u, v);
    UnlinkDests(L, u, v);
    forall x, y | 0 <= x < |L'| && 0 <= y < |L'|
      ensures WeightsTo(L'[x], y) == WeightsTo(L'[y], x)
    {
      UnlinkMirrorPair(L, u, v, x, y);
    }
    forall x | 0 <= x < |L'|
      ensures |WeightsTo(L'[x], x)| % 2 == 0
    {
      UnlinkMirrorPair(L, u, v, x, x);
    }
  }

  /** `removeEdge` of a present edge removes one node from each endpoint's
      list, so the undirected edge count drops by exactly one. */
  lemma UnlinkTotal(L: Table, u: int, v: int)
    requires Undirected(L) && 0 <= u < |L| && 0 <= v < |L| && HasDest(L[u], v)
    ensures TotalLength(Unlink(L, u, v)) == TotalLength(L) - 2
    ensures TotalLength(Unlink(L, u, v)) / 2 == TotalLength(L) / 2 - 1
  {
    var L1 := L[u := RemoveFirst(L[u], v)];
    SecondRemovalFinds(L, u, v);
    RemoveFirstLength(L[u], v);
    RemoveFirstLength(L1[v], u);
    TotalLengthUpdate(L, u, RemoveFirst(L[u], v));
    TotalLengthUpdate(L1, v, RemoveFirst(L1[v], u));
  }

  /** `n` vertices and no edges. */
  function NoEdges(n: nat): Table
  {
    seq(n, _ => [])
  }

  /** A graph with no edges satisfies the invariant. */
  lemma EmptyUndirected(n: nat)
    ensures Undirected(NoEdges(n))
  {
  }

  lemma {:induction false} NoEdgesTotal(n: nat)
    ensures TotalLength(NoEdges(n)) == 0
  {
    if n > 0 {
      NoEdgesTotal(n - 1);
      assert NoEdges(n)[..n - 1] == NoEdges(n - 1);
    }
  }

  /** How `removeEdge` ends. */
  datatype RemoveOutcome =
    | Removed
    | InvalidEdge    // an endpoint outside [0, n): reported, nothing changes
    | EdgeNotFound   // the "edge does not exist" error: nothing changes

  class Graph {
    const n: nat
    const adj: array<AdjacencyList>
    ghost var Lists: Table
    ghost var Repr: set<object>

    /** The heap layout: one valid list per vertex, each with its own
        footprint, holding that vertex's entries. */
    ghost predicate Wellformed()
      reads this, Repr
      ensures Wellformed() ==> this in Repr
    {
      && this in Repr && adj in Repr
      && adj.Length == n && |Lists| == n
      && (forall i :: 0 <= i < n ==>
            && adj[i] in Repr && adj[i].Repr <= Repr
            && this !in adj[i].Repr && adj !in adj[i].Repr
            && adj[i].Valid() && adj[i].Contents == Lists[i])
      && (forall i, j, o :: 0 <= i < n && 0 <= j < n && o in adj[i].Repr && o in adj[j].Repr ==> i == j)
    }

    ghost predicate Valid()
      reads this, Repr
      ensures Valid() ==> this in Repr
    {
      Wellformed() && Undirected(Lists)
    }

    /** `n` vertices, each with an empty list. */
    constructor (vertices: nat)
      ensures Valid() && fresh(Repr)
      ensures n == vertices && Lists == NoEdges(vertices)
    {
      n := vertices;
      var lists: seq<AdjacencyList> := [];
      while |lists| < vertices
        invariant |lists| <= vertices
        invariant forall i :: 0 <= i < |lists| ==>
          fresh(lists[i]) && lists[i].Valid() && lists[i].Repr == {lists[i]} && lists[i].Contents == []
        invariant forall i, j :: 0 <= i < j < |lists| ==> lists[i] != lists[j]
      {
        var list := new AdjacencyList();
        lists := lists + [list];
      }
      adj := new AdjacencyList[vertices](i requires 0 <= i < vertices => lists[i]);
      Lists := NoEdges(vertices);
      new;
      Repr := {this, adj} + (set i | 0 <= i < vertices :: lists[i]);
      assert forall i :: 0 <= i < vertices ==> adj[i] == lists[i] && adj[i] in Repr;
      EmptyLayout();
      EmptyUndirected(vertices);
    }

    /** Distinct fresh empty lists, one per vertex, make a well-formed
        graph without edges. */
    lemma EmptyLayout()
      requires this in Repr && adj in Repr && adj.Length == n && Lists == NoEdges(n)
      requires forall i :: 0 <= i < n ==>
        adj[i] in Repr && adj[i].Valid() && adj[i].Repr == {adj[i]} && adj[i].Contents == []
      requires forall i, j :: 0 <= i < j < n ==> adj[i] != adj[j]
      ensures Wellformed()
    {
    }

    /** Adds (dest, weight) to src's list and (src, weight) to dest's list;
        `valid` is false (the "Invalid edge!" report) and nothing changes
        when an endpoint is out of range. A call without a weight uses
        `DefaultWeight`. */
    method AddEdge(src: int, dest: int, weight: int := DefaultWeight) returns (valid: bool)
      requires Valid()
      modifies Repr
      ensures Valid() && fresh(Repr - old(Repr))
      ensures valid <==> 0 <= src < n && 0 <= dest < n
      ensures Lists == if valid then Link(old(Lists), src, dest, weight) else old(Lists)
    {
      if src < 0 || dest < 0 || src >= n || dest >= n {
        return false;
      }
      LinkUndirected(Lists, src, dest, weight);
      Attach(src, dest, weight);
      Attach(dest, src, weight);
      valid := true;
    }

    /** Removes the undirected edge from both lists. */
    method RemoveEdge(src: int, dest: int) returns (outcome: RemoveOutcome)
      requires Valid()
      modifies Repr
      ensures Valid() && Repr == old(Repr)
      ensures outcome ==
        if !(0 <= src < n && 0 <= dest < n) then InvalidEdge
        else if !HasDest(old(Lists)[src], dest) then EdgeNotFound
        else Removed
      ensures Lists == if outcome == Removed then Unlink(old(Lists), src, dest) else old(Lists)
    {
      if src < 0 || dest < 0 || src >= n || dest >= n {
        return InvalidEdge;
      }
      var present := adj[src].Contains(dest);
      if !present {
        return EdgeNotFound;
      }
      SecondRemovalFinds(Lists, src, dest);
      UnlinkUndirected(Lists, src, dest);
      var first := Detach(src, dest);
      var second := Detach(dest, src);
      assert second;
      outcome := Removed;
    }

    /** Puts (v, w) in front of u's list, touching no other list. */
    method Attach(u: int, v: int, w: int)
      requires Wellformed() && 0 <= u < n
      modifies Repr
      ensures Wellformed() && fresh(Repr - old(Repr))
      ensures Lists == old(Lists)[u := [Entry(v, w)] + old(Lists)[u]]
    {
      var list := adj[u];
      ghost var r0 := list.Repr;
      list.AddEdge(v, w);
      Lists := Lists[u := [Entry(v, w)] + Lists[u]];
      Repr := Repr + list.Repr;
      forall i | 0 <= i < n && i != u
        ensures adj[i].Repr == old(adj[i].Repr) && adj[i].Valid() && adj[i].Contents == Lists[i]
      {
        assert adj[i] in old(adj[i].Repr) && adj[i] !in r0;
      }
    }

    /** Unlinks the first v-node of u's list, touching no other list. */
    method Detach(u: int, v: int) returns (found: bool)
      requires Wellformed() && 0 <= u < n
      modifies Repr
      ensures Wellformed() && Repr == old(Repr)
      ensures found == HasDest(old(Lists)[u], v)
      ensures Lists == old(Lists)[u := RemoveFirst(old(Lists)[u], v)]
    {
      var list := adj[u];
      found := list.RemoveEdge(v);
      Lists := Lists[u := RemoveFirst(Lists[u], v)];
    }

    method GetNumVertices() returns (count: int)
      ensures count == n
    {
      return n;
    }

    /** Length of the vertex's list, 0 for a vertex out of range. */
    method GetNeighborCount(vertex: int) returns (count: int)
      requires Wellformed()
      ensures count == if 0 <= vertex < n then |Lists[vertex]| else 0
    {
      if vertex < 0 || vertex >= n {
        return 0;
      }
      count := adj[vertex].Count();
    }

    /** A fresh array of the vertex's neighbors, newest edge first; null for
        a vertex out of range. */
    method GetNeighbors(vertex: int) returns (neighbors: array?<int>)
      requires Wellformed()
      ensures !(0 <= vertex < n) ==> neighbors == null
      ensures 0 <= vertex < n ==> neighbors != null && fresh(neighbors) && neighbors[..] == Dests(Lists[vertex])
    {
      if vertex < 0 || vertex >= n {
        return null;
      }
      neighbors := adj[vertex].GetAllNeighbors();
    }

    /** Weight of the newest src-dest edge, -1 when absent or out of range. */
    method GetEdgeWeight(src: int, dest: int) returns (w: int)
      requires Wellformed()
      ensures !(0 <= src < n && 0 <= dest < n) ==> w == -1
      ensures 0 <= src < n && 0 <= dest < n ==> w == WeightOf(Lists[src], dest)
    {
      if src < 0 || dest < 0 || src >= n || dest >= n {
        return -1;
      }
      w := adj[src].GetWeight(dest);
    }

    /** Whether src's list holds a node for dest; false out of range. */
    method ContainsEdge(src: int, dest: int) returns (b: bool)
      requires Wellformed()
      ensures b <==> 0 <= src < n && 0 <= dest < n && HasDest(Lists[src], dest)
    {
      if src < 0 || dest < 0 || src >= n || dest >= n {
        return false;
      }
      b := adj[src].Contains(dest);
    }

    /** Walks every list node by node and halves the total. */
    method CountEdges() returns (count: int)
      requires Wellformed()
      ensures count == TotalLength(Lists) / 2
    {
      var total := 0;
      for i := 0 to n
        invariant total == TotalLength(Lists[..i])
      {
        var list := adj[i];
        var current := list.head;
        ghost var k := 0;
        while current != null
          invariant 0 <= k <= |list.Spine|
          invariant Linked(current, list.Spine[k..], list.Contents[k..], list.Repr - {list})
          invariant total == TotalLength(Lists[..i]) + k
          decreases |list.Spine| - k
        {
          assert list.Spine[k..][1..] == list.Spine[k + 1..];
          assert list.Contents[k..][1..] == list.Contents[k + 1..];
          total := total + 1;
          current := current.next;
          k := k + 1;
        }
        assert Lists[..i + 1][..i] == Lists[..i];
      }
      assert Lists[..n] == Lists;
      count := total / 2;
    }
  }
}
