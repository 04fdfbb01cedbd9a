/** Reachability over the adjacency lists of a graph, in two equivalent
    forms: walks along stored edges, and sets closed under following an
    edge. The algorithms keep their invariants in the second form; their
    contracts are stated in the first. */
module Reachability {
  import opened EdgeLists
  import opened Graphs

  /** `p` is a non-empty walk of vertices, each step along a stored edge. */
  ghost predicate IsPath(L: Table, p: seq<int>)
  {
    && |p| >= 1
    && (forall i :: 0 <= i < |p| ==> 0 <= p[i] < |L|)
    && (forall i :: 0 <= i < |p| - 1 ==> HasDest(L[p[i]], p[i + 1]))
  }

  /** Some walk leads from `s` to `t`. */
  ghost predicate Reachable(L: Table, s: int, t: int)
  {
    exists p :: IsPath(L, p) && p[0] == s && p[|p| - 1] == t
  }

  /** Following any stored edge from a vertex of `S` stays in `S`. */
  ghost predicate Closed(L: Table, S: set<int>)
  {
    forall u, v :: 0 <= u < |L| && u in S && HasDest(L[u], v) ==> v in S
  }

  /** Every vertex of `V` lies in each closed set that holds `s`: in walk
      terms, every vertex of `V` is reachable from `s`. */
  ghost predicate WithinReach(L: Table, s: int, V: set<int>)
  {
    forall S :: Closed(L, S) && s in S ==> V <= S
  }

  /** The vertices reachable from `s`. */
  ghost function ReachSet(L: Table, s: int): set<int>
  {
    set t | 0 <= t < |L| && Reachable(L, s, t)
  }

  lemma ReachableRefl(L: Table, s: int)
    requires 0 <= s < |L|
    ensures Reachable(L, s, s)
  {
    assert IsPath(L, [s]);
  }

  /** A walk extends by one stored edge. */
  lemma ReachableStep(L: Table, s: int, u: int, v: int)
    requires Reachable(L, s, u) && 0 <= u < |L| && HasDest(L[u], v) && 0 <= v < |L|
    ensures Reachable(L, s, v)
  {
    var p :| IsPath(L, p) && p[0] == s && p[|p| - 1] == u;
    var q := p + [v];
    assert q[|q| - 2] == u;
    assert IsPath(L, q);
  }

  /** A closed set that holds the start of a walk holds its end. */
  lemma {:induction false} ClosedHoldsWalk(L: Table, S: set<int>, p: seq<int>, i: nat)
    requires Closed(L, S) && IsPath(L, p) && p[0] in S && i < |p|
    ensures p[i] in S
  {
    if i > 0 {
      ClosedHoldsWalk(L, S, p, i - 1);
      assert HasDest(L[p[i - 1]], p[i]);
    }
  }

  /** Closed sets are unions of reachability classes. */
  lemma ClosedHoldsReachable(L: Table, S: set<int>, s: int, t: int)
    requires Closed(L, S) && s in S && Reachable(L, s, t)
    ensures t in S
  {
    var p :| IsPath(L, p) && p[0] == s && p[|p| - 1] == t;
    ClosedHoldsWalk(L, S, p, |p| - 1);
  }

  /** The reachable vertices form a closed set. */
  lemma ReachSetClosed(L: Table, s: int)
    requires DestsInRange(L)
    ensures Closed(L, ReachSet(L, s))
  {
    forall u, v | 0 <= u < |L| && u in ReachSet(L, s) && HasDest(L[u], v)
      ensures v in ReachSet(L, s)
    {
      var k :| 0 <= k < |L[u]| && L[u][k].dest == v;
      ReachableStep(L, s, u, v);
    }
  }

  /** The closed-set form of reachability agrees with the walk form: the
      vertices of `V` are reachable from `s` exactly when `V` lies within
      reach of `s`. */
  lemma WithinReachIsReachable(L: Table, s: int, V: set<int>)
    requires DestsInRange(L) && 0 <= s < |L|
    ensures WithinReach(L, s, V) <==> forall v :: v in V ==> 0 <= v < |L| && Reachable(L, s, v)
  {
    if WithinReach(L, s, V) {
      ReachSetClosed(L, s);
      ReachableRefl(L, s);
      assert s in ReachSet(L, s);
    }
    if forall v :: v in V ==> 0 <= v < |L| && Reachable(L, s, v) {
      forall S | Closed(L, S) && s in S
        ensures V <= S
      {
        forall v | v in V
          ensures v in S
        {
          ClosedHoldsReachable(L, S, s, v);
        }
      }
    }
  }

  /** A least closed set holding `s` is exactly the reachable set. */
  lemma LeastClosedIsReachSet(L: Table, s: int, V: set<int>)
    requires DestsInRange(L) && 0 <= s < |L|
    requires s in V && Closed(L, V) && WithinReach(L, s, V)
    ensures forall v :: 0 <= v < |L| ==> (v in V <==> Reachable(L, s, v))
  {
    WithinReachIsReachable(L, s, V);
    forall v | 0 <= v < |L| && Reachable(L, s, v)
      ensures v in V
    {
      ClosedHoldsReachable(L, V, s, v);
    }
  }

  /** Walks of an undirected table can be reversed. */
  lemma ReachableSymmetric(L: Table, s: int, t: int)
    requires Undirected(L) && Reachable(L, s, t)
    ensures Reachable(L, t, s)
  {
    var p :| IsPath(L, p) && p[0] == s && p[|p| - 1] == t;
    var m := |p| - 1;
    var r := seq(|p|, i requires 0 <= i < |p| => p[m - i]);
    forall i | 0 <= i < m
      ensures HasDest(L[r[i]], r[i + 1])
    {
      var j := m - 1 - i;
      assert r[i] == p[j + 1] && r[i + 1] == p[j];
      assert HasDest(L[p[j]], p[j + 1]);
      MirrorEdge(L, p[j], p[j + 1]);
    }
    assert forall i :: 0 <= i < |r| ==> 0 <= r[i] < |L|;
    assert IsPath(L, r) && r[0] == t && r[m] == s;
  }

  /** Walks compose. */
  lemma ReachableTrans(L: Table, a: int, b: int, c: int)
    requires Reachable(L, a, b) && Reachable(L, b, c)
    ensures Reachable(L, a, c)
  {
    var p :| IsPath(L, p) && p[0] == a && p[|p| - 1] == b;
    var q :| IsPath(L, q) && q[0] == b && q[|q| - 1] == c;
    var r := p + q[1..];
    forall i | 0 <= i < |r| - 1
      ensures HasDest(L[r[i]], r[i + 1])
    {
      if i < |p| - 1 {
        assert r[i] == p[i] && r[i + 1] == p[i + 1];
      } else {
        var j := i - |p| + 1;
        assert r[i] == q[j] && r[i + 1] == q[j + 1];
      }
    }
    assert IsPath(L, r);
  }

  /** Adding an edge by `Link` keeps every closed set's edges, and a set
      closed after the addition holds both endpoints or neither. */
  lemma LinkClosed(L: Table, u: int, v: int, w: int, S: set<int>)
    requires 0 <= u < |L| && 0 <= v < |L| && Closed(Link(L, u, v, w), S)
    ensures Closed(L, S)
    ensures u in S <==> v in S
  {
    var L': seq<seq<Entry>> := Link(L, u, v, w);
    LinkQueries(L, u, v, w);
    forall x, y | 0 <= x < |L| && x in S && HasDest(L[x], y)
      ensures y in S
    {
      var k :| 0 <= k < |L[x]| && L[x][k].dest == y;
      var front := (if x == v then [Entry(u, w)] else []) + (if x == u then [Entry(v, w)] else []);
      assert L'[x] == front + L[x];
      assert L'[x][|front| + k].dest == y;
    }
  }

  /** Adding an edge keeps every walk. */
  lemma LinkKeepsReachable(L: Table, u: int, v: int, w: int, x: int, y: int)
    requires 0 <= u < |L| && 0 <= v < |L| && Reachable(L, x, y)
    ensures Reachable(Link(L, u, v, w), x, y)
  {
    var p :| IsPath(L, p) && p[0] == x && p[|p| - 1] == y;
    forall i | 0 <= i < |p| - 1
      ensures HasDest(Link(L, u, v, w)[p[i]], p[i + 1])
    {
      LinkHasDest(L, u, v, w, p[i], p[i + 1]);
    }
    assert IsPath(Link(L, u, v, w), p);
  }

  /** In an undirected table, vertices reachable from each other reach
      the same vertices. */
  lemma SameReachSet(L: Table, a: int, b: int)
    requires Undirected(L) && Reachable(L, a, b)
    ensures ReachSet(L, a) == ReachSet(L, b)
  {
    ReachableSymmetric(L, a, b);
    forall t | t in ReachSet(L, b)
      ensures t in ReachSet(L, a)
    {
      ReachableTrans(L, a, b, t);
    }
    forall t | t in ReachSet(L, a)
      ensures t in ReachSet(L, b)
    {
      ReachableTrans(L, b, a, t);
    }
  }

  /** The vertices reachable from `x`, together with the classes of `u`
      and `v` when `x` reaches either, are closed after joining `u` and
      `v`. */
  lemma LinkClassClosed(L: Table, u: int, v: int, w: int, x: int)
    requires Undirected(L) && 0 <= u < |L| && 0 <= v < |L|
    ensures var R := ReachSet(L, x);
      Closed(Link(L, u, v, w), R + (if u in R || v in R then ReachSet(L, u) + ReachSet(L, v) else {}))
  {
    var R := ReachSet(L, x);
    var S := R + (if u in R || v in R then ReachSet(L, u) + ReachSet(L, v) else {});
    var L' := Link(L, u, v, w);
    ReachSetClosed(L, x);
    ReachSetClosed(L, u);
    ReachSetClosed(L, v);
    ReachableRefl(L, u);
    ReachableRefl(L, v);
    forall a, b | 0 <= a < |L'| && a in S && HasDest(L'[a], b)
      ensures b in S
    {
      LinkHasDest(L, u, v, w, a, b);
    }
  }

  /** After joining `u` and `v`, `x` reaches `y` exactly when it did
      before or it reached one endpoint and the other reached `y`. */
  lemma LinkReachable(L: Table, u: int, v: int, w: int, x: int, y: int)
    requires Undirected(L) && 0 <= u < |L| && 0 <= v < |L| && 0 <= x < |L| && 0 <= y < |L|
    ensures Reachable(Link(L, u, v, w), x, y) <==>
      || Reachable(L, x, y)
      || (Reachable(L, x, u) && Reachable(L, v, y))
      || (Reachable(L, x, v) && Reachable(L, u, y))
  {
    var L' := Link(L, u, v, w);
    LinkQueries(L, u, v, w);
    if Reachable(L, x, y) {
      LinkKeepsReachable(L, u, v, w, x, y);
    } else if Reachable(L, x, u) && Reachable(L, v, y) {
      LinkKeepsReachable(L, u, v, w, x, u);
      LinkKeepsReachable(L, u, v, w, v, y);
      ReachableStep(L', x, u, v);
      ReachableTrans(L', x, v, y);
    } else if Reachable(L, x, v) && Reachable(L, u, y) {
      LinkKeepsReachable(L, u, v, w, x, v);
      LinkKeepsReachable(L, u, v, w, u, y);
      ReachableStep(L', x, v, u);
      ReachableTrans(L', x, u, y);
    } else if Reachable(L', x, y) {
      var R := ReachSet(L, x);
      var S := R + (if u in R || v in R then ReachSet(L, u) + ReachSet(L, v) else {});
      LinkClassClosed(L, u, v, w, x);
      ReachableRefl(L, x);
      ClosedHoldsReachable(L', S, x, y);
      if y in ReachSet(L, u) {
        ReachableTrans(L, x, u, y);
      } else {
        ReachableTrans(L, x, v, y);
      }
    }
  }

  /** The reachability classes of a table. */
  ghost function Components(L: Table): set<set<int>>
  {
    set x | 0 <= x < |L| :: ReachSet(L, x)
  }

  /** Joining two vertices of different classes merges those two classes
      and leaves the others: one class fewer. */
  lemma LinkComponents(L: Table, u: int, v: int, w: int)
    requires Undirected(L) && 0 <= u < |L| && 0 <= v < |L| && !Reachable(L, u, v)
    ensures |Components(Link(L, u, v, w))| == |Components(L)| - 1
  {
    var Cu, Cv := ReachSet(L, u), ReachSet(L, v);
    LinkComponentsMerge(L, u, v, w);
    ReachableRefl(L, u);
    ReachableRefl(L, v);
    assert Cu in Components(L) && Cv in Components(L);
    assert v !in Cu;
    assert Cu + Cv !in Components(L) by {
      if Cu + Cv in Components(L) {
        var x :| 0 <= x < |L| && Cu + Cv == ReachSet(L, x);
        ClassOf(L, u, x);
      }
    }
    MergeCount(Components(L), Cu, Cv);
  }

  /** Removing two members and adding a new one shrinks a set by one. */
  lemma MergeCount(C: set<set<int>>, a: set<int>, b: set<int>)
    requires a in C && b in C && a != b && a + b !in C
    ensures |C - {a, b} + {a + b}| == |C| - 1
  {
    assert |C - {a, b}| == |C| - 2 by {
      assert C - {a, b} == (C - {a}) - {b};
    }
  }

  /** The classes after joining `u` and `v`: theirs merged, the others
      kept. */
  lemma LinkComponentsMerge(L: Table, u: int, v: int, w: int)
    requires Undirected(L) && 0 <= u < |L| && 0 <= v < |L|
    ensures var Cu, Cv := ReachSet(L, u), ReachSet(L, v);
      Components(Link(L, u, v, w)) == Components(L) - {Cu, Cv} + {Cu + Cv}
  {
    var L' := Link(L, u, v, w);
    var Cu, Cv := ReachSet(L, u), ReachSet(L, v);
    var C := Components(L);
    ReachableRefl(L, u);
    ReachableRefl(L, v);
    forall D | D in Components(L')
      ensures D in C - {Cu, Cv} + {Cu + Cv}
    {
      var x :| 0 <= x < |L| && D == ReachSet(L', x);
      LinkClassOf(L, u, v, w, x);
      if x !in Cu + Cv {
        ClassOf(L, x, u);
        ClassOf(L, x, v);
      }
    }
    forall D | D in C - {Cu, Cv} + {Cu + Cv}
      ensures D in Components(L')
    {
      if D == Cu + Cv {
        LinkClassOf(L, u, v, w, u);
      } else {
        var x :| 0 <= x < |L| && D == ReachSet(L, x);
        ReachableRefl(L, x);
        ClassOf(L, x, u);
        ClassOf(L, x, v);
        LinkClassOf(L, u, v, w, x);
      }
    }
  }

  /** A vertex in the class of `x` has that class; otherwise the classes
      differ. */
  lemma ClassOf(L: Table, x: int, y: int)
    requires Undirected(L) && 0 <= x < |L| && 0 <= y < |L|
    ensures x in ReachSet(L, y) <==> ReachSet(L, x) == ReachSet(L, y)
  {
    ReachableRefl(L, x);
    if x in ReachSet(L, y) {
      SameReachSet(L, y, x);
    }
  }

  /** The class of `x` after joining `u` and `v` from different classes:
      the union of theirs when `x` is in either, its old class otherwise. */
  lemma LinkClassOf(L: Table, u: int, v: int, w: int, x: int)
    requires Undirected(L) && 0 <= u < |L| && 0 <= v < |L| && 0 <= x < |L|
    ensures var Cu, Cv := ReachSet(L, u), ReachSet(L, v);
      ReachSet(Link(L, u, v, w), x) == if x in Cu + Cv then Cu + Cv else ReachSet(L, x)
  {
    var Cu, Cv := ReachSet(L, u), ReachSet(L, v);
    forall y | 0 <= y < |L|
      ensures Reachable(Link(L, u, v, w), x, y) <==> y in (if x in Cu + Cv then Cu + Cv else ReachSet(L, x))
    {
      LinkReachable(L, u, v, w, x, y);
      ReachableRefl(L, u);
      ReachableRefl(L, v);
      if Reachable(L, u, x) {
        ReachableSymmetric(L, u, x);
      }
      if Reachable(L, v, x) {
        ReachableSymmetric(L, v, x);
      }
      if Reachable(L, x, u) {
        ReachableSymmetric(L, x, u);
        SameReachSet(L, x, u);
      }
      if Reachable(L, x, v) {
        ReachableSymmetric(L, x, v);
        SameReachSet(L, x, v);
      }
    }
  }

  /** Without edges a vertex reaches only itself. */
  lemma NoEdgesReach(n: nat, x: int, y: int)
    requires 0 <= x < n
    ensures Reachable(NoEdges(n), x, y) <==> x == y
  {
    var L := NoEdges(n);
    ReachableRefl(L, x);
    if Reachable(L, x, y) {
      var p :| IsPath(L, p) && p[0] == x && p[|p| - 1] == y;
      assert |p| == 1 || HasDest(L[p[0]], p[1]);
    }
  }

  /** Without edges every vertex is its own class. */
  lemma NoEdgesComponents(n: nat)
    ensures |Components(NoEdges(n))| == n
  {
    var L := NoEdges(n);
    forall x | 0 <= x < n
      ensures ReachSet(L, x) == {x}
    {
      forall y | y in ReachSet(L, x)
        ensures y == x
      {
        NoEdgesReach(n, x, y);
      }
      NoEdgesReach(n, x, x);
    }
    assert Components(L) == Singletons(n);
    SingletonsCount(n);
  }

  /** The one-vertex classes of `n` vertices. */
  ghost function Singletons(n: nat): set<set<int>>
  {
    set x | 0 <= x < n :: {x}
  }

  lemma {:induction false} SingletonsCount(n: nat)
    ensures |Singletons(n)| == n
  {
    if n > 0 {
      SingletonsCount(n - 1);
      assert Singletons(n) == Singletons(n - 1) + {{n - 1}};
      assert {n - 1} !in Singletons(n - 1);
    }
  }
}
