/** The parent forest behind the transaction circles: path halving and linking under the smaller root. */
module UnionFind {

  // Map lookup under a name: the facts below are stated for this term only, which keeps their use local.
  ghost function Get<N>(m: map<N, N>, x: N): N
    requires x in m
  {
    m[x]
  }

  /**
   Every parent is a node and no later than its child in the order of names, so every chain of
   parents ends. `rank` numbers the names in their order.
   */
  ghost predicate Forest<N>(p: map<N, N>, rank: map<N, nat>) {
    && p.Keys <= rank.Keys
    && forall x {:trigger Get(p, x)} :: x in p ==> Get(p, x) in p && (Get(p, x) == x || rank[Get(p, x)] < rank[x])
  }

  /** The end of the chain of parents. */
  ghost function Root<N>(p: map<N, N>, rank: map<N, nat>, x: N): N
    requires Forest(p, rank) && x in p
    decreases rank[x]
  {
    if Get(p, x) == x then x else Root(p, rank, Get(p, x))
  }

  ghost predicate IsRoot<N>(p: map<N, N>, r: N) {
    r in p && Get(p, r) == r
  }

  /** A root is its own parent and no later than any node it stands for. */
  lemma {:induction false} RootFacts<N>(p: map<N, N>, rank: map<N, nat>, x: N)
    requires Forest(p, rank) && x in p
    ensures IsRoot(p, Root(p, rank, x))
    ensures Root(p, rank, x) == x || rank[Root(p, rank, x)] < rank[x]
    decreases rank[x]
  {
    if Get(p, x) != x {
      RootFacts(p, rank, Get(p, x));
    }
  }

  // ---------------------------------------------------------------- the three updates

  /** One halving step: x is moved up to its grandparent. */
  ghost function Halved<N>(p: map<N, N>, x: N): map<N, N>
    requires x in p && Get(p, x) in p
  {
    p[x := Get(p, Get(p, x))]
  }

  lemma HalvedForest<N>(p: map<N, N>, rank: map<N, nat>, x: N)
    requires Forest(p, rank) && x in p
    ensures Get(p, x) in p && Forest(Halved(p, x), rank)
  {
    var z := Get(p, Get(p, x));
    var q := Halved(p, x);
    forall y {:trigger Get(q, y)} | y in q ensures Get(q, y) in q && (Get(q, y) == y || rank[Get(q, y)] < rank[y]) {
      assert Get(q, y) == if y == x then z else Get(p, y);
    }
  }

  /** Path halving changes no root. */
  lemma {:induction false} HalvedRoots<N>(p: map<N, N>, rank: map<N, nat>, x: N, y: N)
    requires Forest(p, rank) && x in p && y in p
    ensures Forest(Halved(p, x), rank) && Root(Halved(p, x), rank, y) == Root(p, rank, y)
    decreases rank[y]
  {
    HalvedForest(p, rank, x);
    if Get(p, y) != y {
      var next := if y == x then Get(p, Get(p, x)) else Get(p, y);
      assert Get(Halved(p, x), y) == next && Get(p, Get(p, y)) in p;
      HalvedRoots(p, rank, x, next);
    }
  }

  lemma NewForest<N>(p: map<N, N>, rank: map<N, nat>, x: N)
    requires Forest(p, rank) && x !in p && x in rank
    ensures Forest(p[x := x], rank) && IsRoot(p[x := x], x)
  {
    var q := p[x := x];
    forall y {:trigger Get(q, y)} | y in q ensures Get(q, y) in q && (Get(q, y) == y || rank[Get(q, y)] < rank[y]) {
      assert y in p ==> Get(q, y) == Get(p, y);
    }
  }

  /** A new node is its own root and touches no other. */
  lemma {:induction false} NewRoots<N>(p: map<N, N>, rank: map<N, nat>, x: N, y: N)
    requires Forest(p, rank) && x !in p && x in rank && y in p
    ensures Forest(p[x := x], rank) && Root(p[x := x], rank, y) == Root(p, rank, y) != x
    decreases rank[y]
  {
    NewForest(p, rank, x);
    assert Get(p[x := x], y) == Get(p, y);
    if Get(p, y) != y {
      NewRoots(p, rank, x, Get(p, y));
    }
  }

  lemma LinkForest<N>(p: map<N, N>, rank: map<N, nat>, low: N, high: N)
    requires Forest(p, rank) && IsRoot(p, low) && IsRoot(p, high) && rank[low] < rank[high]
    ensures Forest(p[high := low], rank)
  {
    var q := p[high := low];
    forall y {:trigger Get(q, y)} | y in q ensures Get(q, y) in q && (Get(q, y) == y || rank[Get(q, y)] < rank[y]) {
      assert Get(q, y) == if y == high then low else Get(p, y);
    }
  }

  /** Linking moves exactly the nodes of the larger root to the smaller one. */
  lemma {:induction false} LinkRoots<N>(p: map<N, N>, rank: map<N, nat>, low: N, high: N, y: N)
    requires Forest(p, rank) && IsRoot(p, low) && IsRoot(p, high) && rank[low] < rank[high] && y in p
    ensures Forest(p[high := low], rank)
    ensures Root(p[high := low], rank, y) == if Root(p, rank, y) == high then low else Root(p, rank, y)
    decreases rank[y]
  {
    LinkForest(p, rank, low, high);
    assert Get(p[high := low], y) == if y == high then low else Get(p, y);
    assert Get(p[high := low], low) == low;
    if Get(p, y) != y {
      LinkRoots(p, rank, low, high, Get(p, y));
    }
  }

  // ---------------------------------------------------------------- all roots at once

  /** `roots` lists the root of every node. */
  ghost predicate Roots<N>(p: map<N, N>, rank: map<N, nat>, roots: map<N, N>) {
    && Forest(p, rank) && roots.Keys == p.Keys
    && forall x {:trigger Get(roots, x)} :: x in p ==> Get(roots, x) == Root(p, rank, x)
  }

  lemma RootsInPlace<N>(p: map<N, N>, rank: map<N, nat>, roots: map<N, N>, x: N)
    requires Roots(p, rank, roots) && x in p
    ensures IsRoot(p, Get(roots, x)) && (Get(roots, x) == x || rank[Get(roots, x)] < rank[x])
    ensures Get(p, x) in p && Get(roots, Get(p, x)) == Get(roots, x) && Get(roots, Get(roots, x)) == Get(roots, x)
    ensures Get(p, x) == x ==> Get(roots, x) == x
  {
    RootFacts(p, rank, x);
  }

  lemma HalvedStep<N>(p: map<N, N>, rank: map<N, nat>, roots: map<N, N>, x: N)
    requires Roots(p, rank, roots) && x in p
    ensures Roots(Halved(p, x), rank, roots)
  {
    HalvedForest(p, rank, x);
    forall y {:trigger Get(roots, y)} | y in p ensures Root(Halved(p, x), rank, y) == Get(roots, y) {
      HalvedRoots(p, rank, x, y);
    }
  }

  lemma NewStep<N>(p: map<N, N>, rank: map<N, nat>, roots: map<N, N>, x: N)
    requires Roots(p, rank, roots) && x !in p && x in rank
    ensures Roots(p[x := x], rank, roots[x := x])
    ensures forall y {:trigger Get(roots, y)} :: y in p ==> Get(roots, y) != x
  {
    NewForest(p, rank, x);
    forall y {:trigger Get(roots, y)} | y in p ensures Root(p[x := x], rank, y) == Get(roots, y) != x {
      NewRoots(p, rank, x, y);
    }
    var after := roots[x := x];
    forall y {:trigger Get(after, y)} | y in after ensures Get(after, y) == Root(p[x := x], rank, y) {
      assert y in p ==> Get(after, y) == Get(roots, y);
    }
  }

  /** The roots after the root `high` was linked under `low`. */
  ghost function Merged<N>(roots: map<N, N>, low: N, high: N): map<N, N> {
    map y | y in roots :: if Get(roots, y) == high then low else Get(roots, y)
  }

  lemma LinkStep<N>(p: map<N, N>, rank: map<N, nat>, roots: map<N, N>, low: N, high: N)
    requires Roots(p, rank, roots) && IsRoot(p, low) && IsRoot(p, high) && rank[low] < rank[high]
    ensures Roots(p[high := low], rank, Merged(roots, low, high))
  {
    LinkForest(p, rank, low, high);
    forall y {:trigger Get(roots, y)} | y in p
      ensures Root(p[high := low], rank, y) == if Get(roots, y) == high then low else Get(roots, y)
    {
      LinkRoots(p, rank, low, high, y);
    }
  }

  /** The names are the keys, each once. */
  ghost predicate Lists<N>(names: seq<N>, keys: set<N>) {
    && |names| == |keys|
    && (forall i, j :: 0 <= i < j < |names| ==> names[i] != names[j])
    && (forall i :: 0 <= i < |names| ==> names[i] in keys)
  }

  lemma ListsOne<N>(names: seq<N>, keys: set<N>, x: N)
    requires Lists(names, keys) && x !in keys
    ensures Lists(names + [x], keys + {x})
  {
  }

  lemma {:induction false} ListsAll<N>(names: seq<N>, keys: set<N>)
    requires Lists(names, keys)
    ensures forall k :: k in keys ==> k in names
  {
    if names != [] {
      var last := names[|names| - 1];
      ListsAll(names[..|names| - 1], keys - {last});
      assert names == names[..|names| - 1] + [last];
    }
  }

  // ---------------------------------------------------------------- the object

  class Partition<N(==)> {
    ghost const rank: map<N, nat>
    var parent: map<N, N>
    var names: seq<N>  // the keys of `parent`, in order of insertion
    ghost var roots: map<N, N>

    ghost predicate Valid()
      reads this
    {
      Roots(parent, rank, roots) && Lists(names, parent.Keys)
    }

    constructor (ghost rank: map<N, nat>)
      ensures Valid() && parent == map[] && names == [] && roots == map[] && this.rank == rank
    {
      this.rank := rank;
      parent, names, roots := map[], [], map[];
    }

    /** Adds `start` if it is new, halves its path, and returns its root; all other roots stay. */
    method Find(start: N) returns (root: N)
      requires Valid() && start in rank
      modifies this
      ensures Valid() && start in parent && root == Get(roots, start) && IsRoot(parent, root)
      ensures start in old(parent) ==> names == old(names) && roots == old(roots)
      ensures start !in old(parent) ==> names == old(names) + [start] && roots == old(roots)[start := start]
    {
      if start !in parent {
        Add(start);
      }
      root := Climb(start);
    }

    method Add(x: N)
      requires Valid() && x in rank && x !in parent
      modifies this
      ensures Valid() && x in parent
      ensures names == old(names) + [x] && roots == old(roots)[x := x]
    {
      NewStep(parent, rank, roots, x);
      ListsOne(names, parent.Keys, x);
      assert parent[x := x].Keys == parent.Keys + {x};
      parent, names, roots := parent[x := x], names + [x], roots[x := x];
    }

    /** The loop: every visited node is moved up to its grandparent. */
    method Climb(start: N) returns (root: N)
      requires Valid() && start in parent
      modifies this`parent
      ensures Valid() && parent.Keys == old(parent).Keys
      ensures root == Get(roots, start) && IsRoot(parent, root)
    {
      var x := start;
      while parent[x] != x
        invariant Valid() && parent.Keys == old(parent).Keys
        invariant x in parent && Get(roots, x) == Get(roots, start)
        decreases rank[x]
      {
        HalvedStep(parent, rank, roots, x);
        RootsInPlace(parent, rank, roots, x);
        RootsInPlace(parent, rank, roots, Get(parent, x));
        parent := parent[x := parent[parent[x]]];
        x := parent[x];
      }
      RootsInPlace(parent, rank, roots, x);
      assert Get(parent, x) == x;
      root := x;
    }

    /** Links the larger root under the smaller. */
    method Link(low: N, high: N)
      requires Valid() && IsRoot(parent, low) && IsRoot(parent, high) && rank[low] < rank[high]
      modifies this
      ensures Valid() && names == old(names)
      ensures roots == Merged(old(roots), low, high)
    {
      LinkStep(parent, rank, roots, low, high);
      parent, roots := parent[high := low], Merged(roots, low, high);
    }
  }
}
