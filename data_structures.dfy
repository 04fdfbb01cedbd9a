/** The auxiliary structures the algorithms use: a bounded circular FIFO
    queue, an unsorted array priority queue and a union-find forest. */
module DataStructures {

  /** The "infinity" the priority queue and the algorithms start from. */
  const Infinity := 1000000000

  // ---------------------------------------------------------------------
  // Queue

  /** `a` reduced once modulo `cap`: the slot index after wrapping. */
  function Wrap(a: int, cap: int): int
  {
    if a < cap then a else a - cap
  }

  /** One step of the ring index, `(a + 1) % cap`, is a wrap. */
  lemma ModStep(a: int, cap: int)
    requires 0 <= a < cap
    ensures (a + 1) % cap == Wrap(a + 1, cap)
  {
    if a + 1 == cap {
      assert (a + 1) % cap == 0;
    } else {
      assert (a + 1) % cap == a + 1;
    }
  }

  /** A bounded circular FIFO queue of ints over an array. */
  class Queue {
    const data: array<int>
    const capacity: int
    var front: int
    var rear: int
    var size: int
    /** The queued values, oldest first. */
    ghost var Contents: seq<int>

    ghost predicate Valid()
      reads this, data
    {
      && data.Length == capacity
      && 0 <= size <= capacity
      && (capacity == 0 ==> front == 0 && rear == 0)
      && (capacity > 0 ==> 0 <= front < capacity && rear == Wrap(front + size, capacity))
      && |Contents| == size
      && (forall k :: 0 <= k < size ==> Contents[k] == data[Wrap(front + k, capacity)])
    }

    constructor (cap: int)
      requires cap >= 0
      ensures Valid() && fresh(data)
      ensures capacity == cap && Contents == []
    {
      capacity := cap;
      front, rear, size := 0, 0, 0;
      data := new int[cap];
      Contents := [];
    }

    /** Appends `val` at the rear; a full queue drops it. */
    method Enqueue(val: int)
      requires Valid()
      modifies this, data
      ensures Valid()
      ensures Contents == if old(size) == capacity then old(Contents) else old(Contents) + [val]
    {
      if size == capacity {
        return;
      }
      data[rear] := val;
      ModStep(rear, capacity);
      rear := (rear + 1) % capacity;
      size := size + 1;
      Contents := Contents + [val];
    }

    /** Removes and returns the oldest value; -1 and no change when empty. */
    method Dequeue() returns (val: int)
      requires Valid()
      modifies this
      ensures Valid() && data[..] == old(data[..])
      ensures old(Contents) == [] ==> val == -1 && Contents == []
      ensures old(Contents) != [] ==> val == old(Contents)[0] && Contents == old(Contents)[1..]
    {
      if IsEmpty() {
        return -1;
      }
      val := data[front];
      ModStep(front, capacity);
      front := (front + 1) % capacity;
      size := size - 1;
      Contents := Contents[1..];
    }

    predicate IsEmpty()
      requires Valid()
      reads this, data
      ensures IsEmpty() <==> Contents == []
    {
      size == 0
    }
  }

  // ---------------------------------------------------------------------
  // PriorityQueue

  /** One stored (value, priority) pair. */
  datatype Item = Item(value: int, priority: int)

  /** The pairs after `insert` on a queue of capacity `cap`: appended,
      unless the queue is full, when the pair is dropped. */
  function Offer(s: seq<Item>, it: Item, cap: int): seq<Item>
  {
    if |s| >= cap then s else s + [it]
  }

  /** The position `extractMin` picks: a minimum priority, the lowest
      index among equal minima. */
  function MinIndex(s: seq<Item>): (m: nat)
    requires |s| > 0
    ensures m < |s|
    ensures forall k :: 0 <= k < |s| ==> s[m].priority <= s[k].priority
    ensures forall k :: 0 <= k < m ==> s[k].priority > s[m].priority
  {
    if |s| == 1 then 0
    else
      var m := MinIndex(s[..|s| - 1]);
      if s[|s| - 1].priority < s[m].priority then |s| - 1 else m
  }

  /** The pairs after the entry at `m` is overwritten by the last one and
      the size shrinks by one. */
  function SwapRemove(s: seq<Item>, m: nat): seq<Item>
    requires m < |s|
  {
    s[m := s[|s| - 1]][..|s| - 1]
  }

  /** Swap-with-last written as slices: the pairs before `m`, the last
      pair, then the pairs between `m` and the last. */
  lemma SwapRemoveSlices(s: seq<Item>, m: nat)
    requires m < |s| - 1
    ensures SwapRemove(s, m) == s[..m] + [s[|s| - 1]] + s[m + 1..|s| - 1]
  {
    var r := SwapRemove(s, m);
    var t := s[..m] + [s[|s| - 1]] + s[m + 1..|s| - 1];
    assert |r| == |t|;
    forall k | 0 <= k < |r|
      ensures r[k] == t[k]
    {
      if k < m {
        assert t[k] == s[k];
      } else if k > m {
        assert t[k] == s[k];
      }
    }
  }

  /** Swap-with-last removes exactly the one chosen pair. */
  lemma SwapRemoveMultiset(s: seq<Item>, m: nat)
    requires m < |s|
    ensures |SwapRemove(s, m)| == |s| - 1
    ensures multiset(SwapRemove(s, m)) == multiset(s) - multiset{s[m]}
  {
    var last := |s| - 1;
    var r := SwapRemove(s, m);
    if m == last {
      assert r == s[..last];
      assert s == r + [s[m]];
      assert multiset(s) == multiset(r) + multiset{s[m]};
    } else {
      SwapRemoveSlices(s, m);
      var a, b := s[..m], s[m + 1..last];
      assert s == a + [s[m]] + (b + [s[last]]);
      assert multiset(s) == multiset(a) + multiset{s[m]} + multiset(b + [s[last]]);
      assert r == a + ([s[last]] + b);
      assert multiset(r) == multiset(a) + multiset([s[last]] + b);
      assert multiset(b + [s[last]]) == multiset([s[last]] + b);
    }
    assert multiset(s) == multiset(r) + multiset{s[m]};
    MultisetCancel(multiset(s), multiset(r), s[m]);
  }

  lemma MultisetCancel<T>(A: multiset<T>, B: multiset<T>, x: T)
    requires A == B + multiset{x}
    ensures B == A - multiset{x}
  {
  }

  /** The characterisation of `MinIndex` has exactly one solution. */
  lemma MinIndexUnique(s: seq<Item>, m: nat)
    requires m < |s|
    requires forall k :: 0 <= k < |s| ==> s[m].priority <= s[k].priority
    requires forall k :: 0 <= k < m ==> s[k].priority > s[m].priority
    ensures m == MinIndex(s)
  {
  }

  /** The first entry `decreaseKey(v, p)` may lower: value `v` and a
      priority above `p`; |s| when there is none. */
  function FirstLowerable(s: seq<Item>, v: int, p: int): (i: nat)
    ensures i <= |s|
    ensures forall k :: 0 <= k < i ==> !(s[k].value == v && s[k].priority > p)
    ensures i < |s| ==> s[i].value == v && s[i].priority > p
  {
    if s == [] then 0
    else if s[0].value == v && s[0].priority > p then 0
    else 1 + FirstLowerable(s[1..], v, p)
  }

  /** An unsorted bounded array of (value, priority) pairs. */
  class PriorityQueue {
    const values: array<int>
    const priorities: array<int>
    var size: int
    const capacity: int
    /** The stored pairs in array order. */
    ghost var Contents: seq<Item>

    ghost predicate Valid()
      reads this, values, priorities
    {
      && values != priorities
      && values.Length == capacity && priorities.Length == capacity
      && 0 <= size <= capacity
      && |Contents| == size
      && (forall k :: 0 <= k < size ==> Contents[k] == Item(values[k], priorities[k]))
    }

    constructor (cap: int)
      requires cap >= 0
      ensures Valid() && fresh(values) && fresh(priorities)
      ensures capacity == cap && Contents == []
      ensures forall i :: 0 <= i < cap ==> priorities[i] == Infinity
    {
      size, capacity := 0, cap;
      values := new int[cap];
      var initial := new int[cap];
      for i := 0 to cap
        invariant forall k :: 0 <= k < i ==> initial[k] == Infinity
      {
        initial[i] := Infinity;
      }
      priorities := initial;
      Contents := [];
    }

    /** Appends the pair; a full queue drops it. */
    method Insert(value: int, priority: int)
      requires Valid()
      modifies this, values, priorities
      ensures Valid()
      ensures Contents == Offer(old(Contents), Item(value, priority), capacity)
    {
      if size == capacity {
        return;
      }
      values[size] := value;
      priorities[size] := priority;
      size := size + 1;
      Contents := Contents + [Item(value, priority)];
    }

    /** Removes the pair at `MinIndex` by moving the last pair into its
        place and returns its value; -1 and no change when empty. */
    method ExtractMin() returns (val: int)
      requires Valid()
      modifies this, values, priorities
      ensures Valid()
      ensures old(Contents) == [] ==> val == -1 && Contents == []
      ensures old(Contents) != [] ==>
        && val == old(Contents)[MinIndex(old(Contents))].value
        && Contents == SwapRemove(old(Contents), MinIndex(old(Contents)))
    {
      if size == 0 {
        return -1;
      }
      var minIndex := 0;
      for i := 1 to size
        invariant 0 <= minIndex < i
        invariant forall k :: 0 <= k < i ==> priorities[minIndex] <= priorities[k]
        invariant forall k :: 0 <= k < minIndex ==> priorities[k] > priorities[minIndex]
      {
        if priorities[i] < priorities[minIndex] {
          minIndex := i;
        }
      }
      MinIndexUnique(Contents, minIndex);
      val := values[minIndex];
      values[minIndex] := values[size - 1];
      priorities[minIndex] := priorities[size - 1];
      size := size - 1;
      Contents := SwapRemove(Contents, minIndex);
    }

    /** Lowers the priority of the first pair `FirstLowerable` names. */
    method DecreaseKey(value: int, newPriority: int)
      requires Valid()
      modifies this, priorities
      ensures Valid()
      ensures var i := FirstLowerable(old(Contents), value, newPriority);
        Contents == if i < |old(Contents)| then old(Contents)[i := Item(value, newPriority)] else old(Contents)
    {
      var i := 0;
      while i < size
        invariant 0 <= i <= size
        invariant forall k :: 0 <= k < i ==> !(values[k] == value && priorities[k] > newPriority)
        invariant priorities[..] == old(priorities[..])
      {
        if values[i] == value && priorities[i] > newPriority {
          priorities[i] := newPriority;
          Contents := Contents[i := Item(value, newPriority)];
          return;
        }
        i := i + 1;
      }
    }

    predicate IsEmpty()
      requires Valid()
      reads this, values, priorities
      ensures IsEmpty() <==> Contents == []
    {
      size == 0
    }
  }

  // ---------------------------------------------------------------------
  // unionFind

  /** The largest rank, bounding every rank. */
  function MaxRank(rk: seq<int>): (m: int)
    ensures forall i :: 0 <= i < |rk| ==> rk[i] <= m
  {
    if rk == [] then 0
    else
      var m := MaxRank(rk[..|rk| - 1]);
      if rk[|rk| - 1] > m then rk[|rk| - 1] else m
  }

  /** A union-find forest: parents in range, ranks nonnegative, and every
      non-root's rank strictly below its parent's (which bounds every
      path, so `find` terminates). */
  ghost predicate Forest(p: seq<int>, rk: seq<int>)
  {
    && |p| == |rk|
    && (forall x :: 0 <= x < |p| ==> 0 <= p[x] < |p| && rk[x] >= 0)
    && (forall x :: 0 <= x < |p| && p[x] != x ==> rk[x] < rk[p[x]])
  }

  /** The root reached from `x` by following parents. */
  ghost function Root(p: seq<int>, rk: seq<int>, x: int): (r: int)
    requires Forest(p, rk) && 0 <= x < |p|
    ensures 0 <= r < |p| && p[r] == r && rk[x] <= rk[r]
    ensures p[x] == x ==> r == x
    decreases MaxRank(rk) - rk[x]
  {
    if p[x] == x then x else Root(p, rk, p[x])
  }

  /** The root of every element, in order. */
  ghost function Roots(p: seq<int>, rk: seq<int>): (A: seq<int>)
    requires Forest(p, rk)
    ensures |A| == |p| && forall x :: 0 <= x < |p| ==> A[x] == Root(p, rk, x)
  {
    seq(|p|, x requires 0 <= x < |p| => Root(p, rk, x))
  }

  /** Roots do not depend on the ranks that bound the walk. */
  lemma {:induction false} RootRanks(p: seq<int>, rk1: seq<int>, rk2: seq<int>, x: int)
    requires Forest(p, rk1) && Forest(p, rk2) && 0 <= x < |p|
    ensures Root(p, rk1, x) == Root(p, rk2, x)
    decreases MaxRank(rk1) - rk1[x]
  {
    if p[x] != x {
      RootRanks(p, rk1, rk2, p[x]);
    }
  }

  /** Pointing `x` straight at its root keeps the forest and every root. */
  lemma {:induction false} Compress(p: seq<int>, rk: seq<int>, x: int, y: int)
    requires Forest(p, rk) && 0 <= x < |p| && 0 <= y < |p|
    ensures Forest(p[x := Root(p, rk, x)], rk)
    ensures Root(p[x := Root(p, rk, x)], rk, y) == Root(p, rk, y)
    decreases MaxRank(rk) - rk[y]
  {
    var p' := p[x := Root(p, rk, x)];
    assert Forest(p', rk);
    if p[y] != y {
      Compress(p, rk, x, p[y]);
      if y == x {
        Compress(p, rk, x, Root(p, rk, x));
      }
    }
  }

  /** Hanging root `c` under root `par` (with ranks `rk2` that keep
      `c` below `par`) merges exactly the two classes. */
  lemma {:induction false} Link(p: seq<int>, rk: seq<int>, rk2: seq<int>, c: int, par: int, y: int)
    requires Forest(p, rk) && 0 <= c < |p| && 0 <= par < |p| && c != par
    requires p[c] == c && p[par] == par
    requires |rk2| == |rk| && rk[c] < rk2[par]
    requires forall i :: 0 <= i < |rk| && i != par ==> rk2[i] == rk[i]
    requires rk[par] <= rk2[par]
    requires 0 <= y < |p|
    ensures Forest(p[c := par], rk2)
    ensures Root(p[c := par], rk2, y) == if Root(p, rk, y) == c then par else Root(p, rk, y)
    decreases MaxRank(rk) - rk[y]
  {
    if p[y] != y {
      Link(p, rk, rk2, c, par, p[y]);
    }
  }

  /** The parents after `unite` joins two distinct roots: the root of
      lower rank goes under the other; on a tie `ry` goes under `rx`. */
  function LinkedParents(p: seq<int>, rk: seq<int>, rx: int, ry: int): seq<int>
    requires 0 <= rx < |p| && 0 <= ry < |p| && |rk| == |p|
  {
    if rk[rx] < rk[ry] then p[rx := ry] else p[ry := rx]
  }

  /** The ranks after `unite` joins two distinct roots: only a tie raises
      the rank of `rx`. */
  function LinkedRanks(rk: seq<int>, rx: int, ry: int): seq<int>
    requires 0 <= rx < |rk| && 0 <= ry < |rk|
  {
    if rk[rx] == rk[ry] then rk[rx := rk[rx] + 1] else rk
  }

  /** The root that stays a root when two roots are linked. */
  function Winner(rk: seq<int>, rx: int, ry: int): int
    requires 0 <= rx < |rk| && 0 <= ry < |rk|
  {
    if rk[rx] < rk[ry] then ry else rx
  }

  /** Linking two distinct roots by rank keeps a forest. */
  lemma LinkedForest(p: seq<int>, rk: seq<int>, rx: int, ry: int)
    requires Forest(p, rk) && 0 <= rx < |p| && 0 <= ry < |p| && rx != ry
    requires p[rx] == rx && p[ry] == ry
    ensures Forest(LinkedParents(p, rk, rx, ry), LinkedRanks(rk, rx, ry))
  {
  }

  /** Linking by rank merges exactly the two classes under the winner. */
  lemma LinkRoots(p: seq<int>, rk: seq<int>, rx: int, ry: int, a: int)
    requires Forest(p, rk) && 0 <= rx < |p| && 0 <= ry < |p| && rx != ry
    requires p[rx] == rx && p[ry] == ry && 0 <= a < |p|
    ensures Forest(LinkedParents(p, rk, rx, ry), LinkedRanks(rk, rx, ry))
    ensures Root(LinkedParents(p, rk, rx, ry), LinkedRanks(rk, rx, ry), a) ==
      if Root(p, rk, a) in {rx, ry} then Winner(rk, rx, ry) else Root(p, rk, a)
  {
    var p', rk' := LinkedParents(p, rk, rx, ry), LinkedRanks(rk, rx, ry);
    if rk[rx] < rk[ry] {
      assert p' == p[rx := ry] && rk' == rk;
      Link(p, rk, rk, rx, ry, a);
    } else if rk[rx] > rk[ry] {
      assert p' == p[ry := rx] && rk' == rk;
      Link(p, rk, rk, ry, rx, a);
    } else {
      assert p' == p[ry := rx] && rk' == rk[rx := rk[rx] + 1];
      Link(p, rk, rk', ry, rx, a);
    }
  }

  /** A disjoint-set forest over `parent` and `rank`. */
  class UnionFind {
    var parent: array<int>
    var rank: array<int>
    const size: int

    ghost predicate Valid()
      reads this, parent, rank
    {
      && parent != rank
      && parent.Length == size && rank.Length == size
      && Forest(parent[..], rank[..])
    }

    /** The representative of `x` as the current arrays define it. */
    ghost function Rep(x: int): int
      requires Valid() && 0 <= x < size
      reads this, parent, rank
    {
      Root(parent[..], rank[..], x)
    }

    /** Every element its own root, with rank 0. */
    constructor (n: int)
      requires n >= 0
      ensures Valid() && fresh(parent) && fresh(rank) && size == n
      ensures forall x :: 0 <= x < n ==> parent[x] == x && rank[x] == 0 && Rep(x) == x
    {
      size := n;
      var p := new int[n];
      var rk := new int[n];
      for i := 0 to n
        invariant forall k :: 0 <= k < i ==> p[k] == k && rk[k] == 0
      {
        p[i] := i;
        rk[i] := 0;
      }
      parent, rank := p, rk;
    }

    /** The root of `x`, compressing the walked path onto it; which
        elements share a root does not change. */
    method Find(x: int) returns (r: int)
      requires Valid() && 0 <= x < size
      modifies parent
      ensures Valid() && rank[..] == old(rank[..])
      ensures r == Root(old(parent[..]), rank[..], x) && parent[r] == r
      ensures forall y :: 0 <= y < size ==> Rep(y) == Root(old(parent[..]), rank[..], y)
      decreases MaxRank(rank[..]) - rank[x]
    {
      if parent[x] != x {
        var root := Find(parent[x]);
        Hook(x, root);
      }
      r := parent[x];
    }

    /** Line 182 of `find`: point `x` straight at its root, which moves no
        element to another root. */
    method Hook(x: int, root: int)
      requires Valid() && 0 <= x < size && root == Rep(x)
      modifies parent
      ensures Valid() && rank[..] == old(rank[..]) && parent[x] == root
      ensures forall y :: 0 <= y < size ==> Rep(y) == old(Rep(y))
    {
      ghost var p := parent[..];
      Compress(p, rank[..], x, x);
      forall y | 0 <= y < size
        ensures Root(p[x := root], rank[..], y) == Root(p, rank[..], y)
      {
        Compress(p, rank[..], x, y);
      }
      parent[x] := root;
      assert parent[..] == p[x := root];
    }

    /** Merges the classes of `x` and `y` by rank. */
    method Unite(x: int, y: int)
      requires Valid() && 0 <= x < size && 0 <= y < size
      modifies parent, rank
      ensures Valid()
      ensures forall a :: 0 <= a < size ==>
        Rep(a) == if Root(old(parent[..]), old(rank[..]), a) in
                     {Root(old(parent[..]), old(rank[..]), x), Root(old(parent[..]), old(rank[..]), y)}
                  then Rep(x) else Root(old(parent[..]), old(rank[..]), a)
      ensures Rep(x) == Rep(y)
      ensures Rep(x) == Root(old(parent[..]), old(rank[..]), x) || Rep(x) == Root(old(parent[..]), old(rank[..]), y)
    {
      ghost var p0, k0 := parent[..], rank[..];
      var rx := Find(x);
      var ry := Find(y);
      if rx == ry {
        return;
      }
      ghost var p1 := parent[..];
      assert Root(p1, k0, rx) == Root(p0, k0, rx) == rx;
      assert Root(p1, k0, ry) == Root(p0, k0, ry) == ry;
      Join(rx, ry);
      forall a | 0 <= a < size
        ensures Root(parent[..], rank[..], a) ==
          if Root(p1, k0, a) in {rx, ry} then Winner(k0, rx, ry) else Root(p1, k0, a)
      {
        LinkRoots(p1, k0, rx, ry, a);
      }
    }

    /** The linking step of `unite` on two distinct roots. */
    method Join(rx: int, ry: int)
      requires Valid() && 0 <= rx < size && 0 <= ry < size && rx != ry
      requires parent[rx] == rx && parent[ry] == ry
      modifies parent, rank
      ensures Valid()
      ensures parent[..] == LinkedParents(old(parent[..]), old(rank[..]), rx, ry)
      ensures rank[..] == LinkedRanks(old(rank[..]), rx, ry)
    {
      ghost var p, rk := parent[..], rank[..];
      LinkedForest(p, rk, rx, ry);
      if rank[rx] < rank[ry] {
        parent[rx] := ry;
        assert parent[..] == p[rx := ry];
      } else if rank[rx] > rank[ry] {
        parent[ry] := rx;
        assert parent[..] == p[ry := rx];
      } else {
        parent[ry] := rx;
        assert parent[..] == p[ry := rx];
        rank[rx] := rank[rx] + 1;
        assert rank[..] == rk[rx := rk[rx] + 1];
      }
      assert parent[..] == LinkedParents(p, rk, rx, ry) && rank[..] == LinkedRanks(rk, rx, ry);
    }
  }
}
