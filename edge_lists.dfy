/** The per-vertex edge container: a singly linked list of (dest, weight)
    nodes with insertion at the front and first-match removal. */
module EdgeLists {

  /** The payload of one list node. */
  datatype Entry = Entry(dest: int, weight: int)

  /** Destinations of `s`, in list order. */
  function Dests(s: seq<Entry>): seq<int>
  {
    seq(|s|, k requires 0 <= k < |s| => s[k].dest)
  }

  /** Some entry of `s` points at `d`. */
  predicate HasDest(s: seq<Entry>, d: int)
  {
    exists k :: 0 <= k < |s| && s[k].dest == d
  }

  /** Index of the first entry pointing at `d`, or |s| when there is none. */
  function FirstIndex(s: seq<Entry>, d: int): (i: nat)
    ensures i <= |s|
    ensures forall k :: 0 <= k < i ==> s[k].dest != d
    ensures i < |s| ==> s[i].dest == d
    ensures i < |s| <==> HasDest(s, d)
  {
    if s == [] then 0
    else if s[0].dest == d then 0
    else 1 + FirstIndex(s[1..], d)
  }

  /** What a scan from the head reports for `d`: the weight of the first
      node pointing at `d`, or the sentinel -1. */
  function WeightOf(s: seq<Entry>, d: int): (w: int)
    ensures HasDest(s, d) ==> w == s[FirstIndex(s, d)].weight
    ensures !HasDest(s, d) ==> w == -1
  {
    if s == [] then -1
    else if s[0].dest == d then s[0].weight
    else WeightOf(s[1..], d)
  }

  /** The list after unlinking the first node pointing at `d`. */
  function RemoveFirst(s: seq<Entry>, d: int): seq<Entry>
  {
    if s == [] then []
    else if s[0].dest == d then s[1..]
    else [s[0]] + RemoveFirst(s[1..], d)
  }

  /** Removing the first entry for `d` splices out the entry at
      `FirstIndex(s, d)`, and changes nothing when there is none. */
  lemma {:induction false} RemoveFirstSplices(s: seq<Entry>, d: int)
    ensures HasDest(s, d) ==> RemoveFirst(s, d) == s[..FirstIndex(s, d)] + s[FirstIndex(s, d) + 1..]
    ensures !HasDest(s, d) ==> RemoveFirst(s, d) == s
  {
    if s != [] && s[0].dest != d {
      RemoveFirstSplices(s[1..], d);
      var t := s[1..];
      var i := FirstIndex(t, d);
      if HasDest(s, d) {
        var k :| 0 <= k < |s| && s[k].dest == d;
        assert t[k - 1].dest == d;
        assert [s[0]] + (t[..i] + t[i + 1..]) == s[..i + 1] + s[i + 2..];
      }
    }
  }

  /** The weights stored for destination `d`, in list order. */
  function WeightsTo(s: seq<Entry>, d: int): seq<int>
  {
    if s == [] then []
    else (if s[0].dest == d then [s[0].weight] else []) + WeightsTo(s[1..], d)
  }

  lemma {:induction false} WeightsToNonEmpty(s: seq<Entry>, d: int)
    ensures HasDest(s, d) <==> |WeightsTo(s, d)| > 0
    ensures HasDest(s, d) ==> WeightsTo(s, d)[0] == WeightOf(s, d)
  {
    if s != [] {
      WeightsToNonEmpty(s[1..], d);
      if s[0].dest != d && HasDest(s, d) {
        var k :| 0 <= k < |s| && s[k].dest == d;
        assert s[1..][k - 1].dest == d;
      }
    }
  }

  lemma {:induction false} WeightsToRemoveFirst(s: seq<Entry>, d: int, x: int)
    requires HasDest(s, d)
    ensures x == d ==> WeightsTo(s, x) == [WeightOf(s, d)] + WeightsTo(RemoveFirst(s, d), x)
    ensures x != d ==> WeightsTo(RemoveFirst(s, d), x) == WeightsTo(s, x)
  {
    if s[0].dest != d {
      var k :| 0 <= k < |s| && s[k].dest == d;
      assert s[1..][k - 1].dest == d;
      WeightsToRemoveFirst(s[1..], d, x);
      var r := RemoveFirst(s[1..], d);
      assert RemoveFirst(s, d) == [s[0]] + r;
      assert ([s[0]] + r)[1..] == r;
    }
  }

  /** A concatenation points at `d` when either part does. */
  lemma HasDestConcat(a: seq<Entry>, b: seq<Entry>, d: int)
    ensures HasDest(a + b, d) <==> HasDest(a, d) || HasDest(b, d)
  {
    if HasDest(a + b, d) {
      var k :| 0 <= k < |a + b| && (a + b)[k].dest == d;
      if k >= |a| {
        assert b[k - |a|].dest == d;
      }
    }
    if HasDest(a, d) {
      var k :| 0 <= k < |a| && a[k].dest == d;
      assert (a + b)[k].dest == d;
    }
    if HasDest(b, d) {
      var k :| 0 <= k < |b| && b[k].dest == d;
      assert (a + b)[|a| + k].dest == d;
    }
  }

  /** No element occurs twice in `s`. */
  ghost predicate Distinct<T>(s: seq<T>)
  {
    forall j, k :: 0 <= j < k < |s| ==> s[j] != s[k]
  }

  /** Removing position `k` of `s` (giving `r`) shifts the later elements
      down by one and keeps the elements pairwise distinct. */
  lemma Splice<T>(s: seq<T>, k: nat, r: seq<T>)
    requires k < |s| && r == s[..k] + s[k + 1..]
    ensures |r| == |s| - 1
    ensures forall j :: 0 <= j < |r| ==> r[j] == s[if j < k then j else j + 1]
    ensures Distinct(s) ==> Distinct(r)
  {
    assert forall j :: 0 <= j < |r| ==> r[j] == s[if j < k then j else j + 1];
  }

  /** A list node. */
  class Node {
    var dest: int
    var weight: int
    var next: Node?

    constructor (dest: int, weight: int, next: Node?)
      ensures this.dest == dest && this.weight == weight && this.next == next
    {
      this.dest := dest;
      this.weight := weight;
      this.next := next;
    }
  }

  /** `s` is the chain of nodes reached from `h`, ending in null, and `c`
      their payloads; every node lies in `R` and none occurs twice. */
  ghost predicate Linked(h: Node?, s: seq<Node>, c: seq<Entry>, R: set<object>)
    reads R
    decreases |s|
  {
    if s == [] then h == null && c == []
    else
      && |c| == |s|
      && h == s[0]
      && s[0] in R
      && s[0] !in s[1..]
      && c[0] == Entry(s[0].dest, s[0].weight)
      && Linked(s[0].next, s[1..], c[1..], R)
  }

  /** `Linked` spelled out position by position. */
  ghost predicate Laid(h: Node?, s: seq<Node>, c: seq<Entry>, R: set<object>)
    reads R
  {
    && |c| == |s|
    && h == (if s == [] then null else s[0])
    && (forall k :: 0 <= k < |s| ==> s[k] in R && c[k] == Entry(s[k].dest, s[k].weight))
    && (forall k :: 0 <= k < |s| - 1 ==> s[k] in R && s[k].next == s[k + 1])
    && (s != [] ==> s[|s| - 1] in R && s[|s| - 1].next == null)
    && Distinct(s)
  }

  lemma {:induction false} LinkedIff(h: Node?, s: seq<Node>, c: seq<Entry>, R: set<object>)
    ensures Linked(h, s, c, R) <==> Laid(h, s, c, R)
    decreases |s|
  {
    if s != [] && c != [] {
      var t, d := s[1..], c[1..];
      LinkedIff(s[0].next, t, d, R);
      assert forall k :: 1 <= k < |s| ==> s[k] == t[k - 1];
      assert forall k :: 1 <= k < |c| ==> c[k] == d[k - 1];
      if Laid(h, s, c, R) {
        assert s[0] !in t by {
          forall k | 0 <= k < |t| ensures t[k] != s[0] {
            assert t[k] == s[k + 1];
          }
        }
        assert s[0].next == (if t == [] then null else t[0]);
        assert Laid(s[0].next, t, d, R);
      }
      if Linked(h, s, c, R) {
        forall j, k | 0 <= j < k < |s| ensures s[j] != s[k] {
          if j == 0 {
            assert s[k] == t[k - 1];
          } else {
            assert s[j] == t[j - 1] && s[k] == t[k - 1];
          }
        }
      }
    }
  }

  /** A chain stays linked within any larger footprint. */
  lemma {:induction false} LinkedGrow(h: Node?, s: seq<Node>, c: seq<Entry>, R: set<object>, R': set<object>)
    requires Linked(h, s, c, R) && R <= R'
    ensures Linked(h, s, c, R')
    decreases |s|
  {
    if s != [] {
      LinkedGrow(s[0].next, s[1..], c[1..], R, R');
    }
  }

  /** A singly linked list of nodes reached from `head`. `Spine` is the
      sequence of nodes in list order and `Contents` their payloads. */
  class AdjacencyList {
    var head: Node?
    ghost var Spine: seq<Node>
    ghost var Contents: seq<Entry>
    ghost var Repr: set<object>

    ghost predicate Valid()
      reads this, Repr
      ensures Valid() ==> this in Repr
    {
      this in Repr && Linked(head, Spine, Contents, Repr - {this})
    }

    constructor ()
      ensures Valid() && fresh(Repr) && Repr == {this}
      ensures Contents == []
    {
      head := null;
      Spine := [];
      Contents := [];
      Repr := {this};
    }

    /** Links a new node in front of the current head. */
    method AddEdge(dest: int, weight: int)
      requires Valid()
      modifies this
      ensures Valid() && fresh(Repr - old(Repr))
      ensures Contents == [Entry(dest, weight)] + old(Contents)
    {
      var node := new Node(dest, weight, head);
      LinkedGrow(head, Spine, Contents, Repr - {this}, Repr + {node} - {this});
      head := node;
      Spine := [node] + Spine;
      Contents := [Entry(dest, weight)] + Contents;
      Repr := Repr + {node};
      assert Spine[1..] == old(Spine) && Contents[1..] == old(Contents);
    }

    /** Unlinks the first node pointing at `dest`; `found` is false (the
        "Edge not found" failure) when there is none, and then nothing changes. */
    method RemoveEdge(dest: int) returns (found: bool)
      requires Valid()
      modifies Repr
      ensures Valid() && Repr == old(Repr)
      ensures found == HasDest(old(Contents), dest)
      ensures Contents == RemoveFirst(old(Contents), dest)
    {
      LinkedIff(head, Spine, Contents, Repr - {this});
      var current := head;
      var prev: Node? := null;
      ghost var k := 0;
      while current != null
        invariant 0 <= k <= |Spine|
        invariant current == (if k < |Spine| then Spine[k] else null)
        invariant prev == (if k == 0 then null else Spine[k - 1])
        invariant forall j :: 0 <= j < k ==> Contents[j].dest != dest
        invariant unchanged(Repr) && Valid() && Laid(head, Spine, Contents, Repr - {this})
        decreases |Spine| - k
      {
        if current.dest == dest {
          assert FirstIndex(Contents, dest) == k;
          RemoveFirstSplices(Contents, dest);
          Unlink(prev, current, k);
          LinkedIff(head, Spine, Contents, Repr - {this});
          return true;
        }
        prev := current;
        current := current.next;
        k := k + 1;
      }
      assert !HasDest(Contents, dest);
      RemoveFirstSplices(Contents, dest);
      return false;
    }

    /** Splices `current`, the node at position `k`, out of the list by
        redirecting `head` or the predecessor's `next` past it. */
    method Unlink(prev: Node?, current: Node, ghost k: nat)
      requires this in Repr && Laid(head, Spine, Contents, Repr - {this}) && k < |Spine|
      requires current == Spine[k] && prev == (if k == 0 then null else Spine[k - 1])
      modifies this, prev
      ensures Laid(head, Spine, Contents, Repr - {this}) && Repr == old(Repr)
      ensures Spine == old(Spine)[..k] + old(Spine)[k + 1..]
      ensures Contents == old(Contents)[..k] + old(Contents)[k + 1..]
    {
      ghost var spine := Spine;
      if prev == null {
        head := current.next;
      } else {
        prev.next := current.next;
      }
      Spine := spine[..k] + spine[k + 1..];
      Contents := Contents[..k] + Contents[k + 1..];
      Splice(spine, k, Spine);
      Splice(old(Contents), k, Contents);
      forall j | 0 <= j < |Spine|
        ensures Spine[j] in Repr - {this} && Contents[j] == Entry(Spine[j].dest, Spine[j].weight)
      {
        var i := if j < k then j else j + 1;
        assert Spine[j] == spine[i] && Contents[j] == old(Contents)[i];
      }
      forall j | 0 <= j < |Spine| - 1
        ensures Spine[j].next == Spine[j + 1]
      {
        if j + 1 < k {
          assert spine[j] != spine[k - 1];
        } else if j >= k {
          assert k == 0 || spine[j + 1] != spine[k - 1];
        }
      }
      if Spine != [] {
        var j := |Spine| - 1;
        assert k == j + 1 || k == 0 || spine[j + 1] != spine[k - 1];
      }
    }

    /** Scans for a node pointing at `dest`. */
    method Contains(dest: int) returns (b: bool)
      requires Valid()
      ensures b <==> exists k :: 0 <= k < |Contents| && Contents[k].dest == dest
    {
      var current := head;
      ghost var k := 0;
      while current != null
        invariant 0 <= k <= |Spine|
        invariant Linked(current, Spine[k..], Contents[k..], Repr - {this})
        invariant forall j :: 0 <= j < k ==> Contents[j].dest != dest
        decreases |Spine| - k
      {
        assert Spine[k..][1..] == Spine[k + 1..] && Contents[k..][1..] == Contents[k + 1..];
        if current.dest == dest {
          return true;
        }
        current := current.next;
        k := k + 1;
      }
      return false;
    }

    /** Number of nodes. */
    method Count() returns (c: int)
      requires Valid()
      ensures c == |Contents|
    {
      c := 0;
      var current := head;
      while current != null
        invariant 0 <= c <= |Spine|
        invariant Linked(current, Spine[c..], Contents[c..], Repr - {this})
        decreases |Spine| - c
      {
        assert Spine[c..][1..] == Spine[c + 1..] && Contents[c..][1..] == Contents[c + 1..];
        c := c + 1;
        current := current.next;
      }
    }

    /** A fresh array of the destinations, newest first. */
    method GetAllNeighbors() returns (neighbors: array<int>)
      requires Valid()
      ensures fresh(neighbors)
      ensures neighbors[..] == Dests(Contents)
    {
      var c := Count();
      neighbors := new int[c];
      assert neighbors !in Repr;
      var current := head;
      var i := 0;
      while current != null
        invariant 0 <= i <= |Spine| && neighbors.Length == |Contents|
        invariant Linked(current, Spine[i..], Contents[i..], Repr - {this})
        invariant forall j :: 0 <= j < i ==> neighbors[j] == Contents[j].dest
        decreases |Spine| - i
      {
        assert Spine[i..][1..] == Spine[i + 1..] && Contents[i..][1..] == Contents[i + 1..];
        neighbors[i] := current.dest;
        i := i + 1;
        current := current.next;
      }
    }

    /** Weight of the first node pointing at `dest`, or -1 if there is none. */
    method GetWeight(dest: int) returns (w: int)
      requires Valid()
      ensures HasDest(Contents, dest) ==> w == Contents[FirstIndex(Contents, dest)].weight
      ensures !HasDest(Contents, dest) ==> w == -1
    {
      var current := head;
      ghost var k := 0;
      while current != null
        invariant 0 <= k <= |Spine|
        invariant Linked(current, Spine[k..], Contents[k..], Repr - {this})
        invariant forall j :: 0 <= j < k ==> Contents[j].dest != dest
        decreases |Spine| - k
      {
        assert Spine[k..][1..] == Spine[k + 1..] && Contents[k..][1..] == Contents[k + 1..];
        if current.dest == dest {
          assert FirstIndex(Contents, dest) == k;
          return current.weight;
        }
        current := current.next;
        k := k + 1;
      }
      return -1;
    }
  }

  /** A fresh list holds no destination at all. */
  lemma EmptyListHasNoDest(d: int)
    ensures !HasDest([], d) && WeightOf([], d) == -1 && Dests([]) == []
  {
  }

  /** Inserting at the front makes `d` the first match for its own
      destination and leaves the older nodes in order behind it. */
  lemma {:induction false} FrontInsertion(s: seq<Entry>, d: int, w: int)
    ensures HasDest([Entry(d, w)] + s, d)
    ensures WeightOf([Entry(d, w)] + s, d) == w
    ensures ([Entry(d, w)] + s)[1..] == s
    ensures forall x :: x != d ==> WeightOf([Entry(d, w)] + s, x) == WeightOf(s, x)
  {
    assert ([Entry(d, w)] + s)[0].dest == d;
    assert ([Entry(d, w)] + s)[1..] == s;
  }
}
