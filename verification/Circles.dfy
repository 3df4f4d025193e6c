/** Transaction circles: the connected components of the edges, of at least a given size. */
module Circles {
  import opened Contracts
  import opened Ordering
  import opened Connectivity
  import opened Arrival
  import opened UnionFind

  // ---------------------------------------------------------------- the order of names as a rank

  ghost function Before(nodes: set<string>, x: string): set<string> {
    set y | y in nodes && StrLt(y, x)
  }

  ghost function NameRank(nodes: set<string>): map<string, nat> {
    map x | x in nodes :: |Before(nodes, x)|
  }

  lemma {:induction false} ProperSubsetSize<T>(a: set<T>, b: set<T>)
    requires a < b
    ensures |a| < |b|
  {
    var x :| x in b && x !in a;
    SubsetSize(a, b - {x});
  }

  lemma BeforeShrinks(nodes: set<string>, a: string, b: string)
    requires a in nodes && StrLt(a, b)
    ensures Before(nodes, a) < Before(nodes, b)
  {
    StrIrreflexive(a);
    forall y | y in Before(nodes, a) ensures y in Before(nodes, b) {
      StrTrans(y, a, b);
    }
    assert a in Before(nodes, b) && a !in Before(nodes, a);
  }

  ghost predicate Earlier(rank: map<string, nat>, a: string, b: string)
    requires a in rank && b in rank
  {
    rank[a] < rank[b]
  }

  /** The rank numbers the nodes in the order of their names. */
  ghost predicate NumbersNames(rank: map<string, nat>, nodes: set<string>) {
    && rank.Keys == nodes
    && forall a, b {:trigger Earlier(rank, a, b)} :: a in nodes && b in nodes ==> (Earlier(rank, a, b) <==> StrLt(a, b))
  }

  lemma RankFollowsName(nodes: set<string>)
    ensures NumbersNames(NameRank(nodes), nodes)
  {
    var rank := NameRank(nodes);
    forall a, b {:trigger Earlier(rank, a, b)} | a in nodes && b in nodes ensures Earlier(rank, a, b) <==> StrLt(a, b) {
      StrTotal(a, b);
      if StrLt(a, b) {
        BeforeShrinks(nodes, a, b);
        ProperSubsetSize(Before(nodes, a), Before(nodes, b));
      } else if StrLt(b, a) {
        BeforeShrinks(nodes, b, a);
        ProperSubsetSize(Before(nodes, b), Before(nodes, a));
      }
    }
  }

  // ---------------------------------------------------------------- roots against edge paths

  ghost predicate Same(roots: map<string, string>, x: string, y: string)
    requires x in roots && y in roots
  {
    Get(roots, x) == Get(roots, y)
  }

  /** Among the given nodes, two share a root exactly when an edge path joins them. */
  ghost predicate Partitioned(edges: seq<Edge>, nodes: set<string>, roots: map<string, string>) {
    && roots.Keys == nodes && Endpoints(edges) <= nodes
    && forall x, y {:trigger Same(roots, x, y)} :: x in nodes && y in nodes ==>
         (Same(roots, x, y) <==> Connected(edges, x, y))
  }

  lemma AddNode(edges: seq<Edge>, nodes: set<string>, roots: map<string, string>, x: string)
    requires Partitioned(edges, nodes, roots) && x !in nodes
    requires forall y {:trigger Get(roots, y)} :: y in nodes ==> Get(roots, y) in nodes
    ensures Partitioned(edges, nodes + {x}, roots[x := x])
  {
    var after := roots[x := x];
    forall a, b {:trigger Same(after, a, b)} | a in nodes + {x} && b in nodes + {x}
      ensures Same(after, a, b) <==> Connected(edges, a, b)
    {
      NodeAlone(edges, nodes, roots, x, a, b);
    }
  }

  lemma NodeAlone(edges: seq<Edge>, nodes: set<string>, roots: map<string, string>, x: string, a: string, b: string)
    requires Partitioned(edges, nodes, roots) && x !in nodes
    requires forall y {:trigger Get(roots, y)} :: y in nodes ==> Get(roots, y) in nodes
    requires a in nodes + {x} && b in nodes + {x}
    ensures Same(roots[x := x], a, b) <==> Connected(edges, a, b)
  {
    assert a != x ==> Get(roots[x := x], a) == Get(roots, a);
    assert b != x ==> Get(roots[x := x], b) == Get(roots, b);
    assert a != x && b != x ==> (Same(roots, a, b) <==> Connected(edges, a, b));
    if a == b {
      ConnectedRefl(edges, a);
    } else if a == x || b == x {
      if Connected(edges, a, b) {
        ConnectedSym(edges, a, b);
        Isolated(edges, x, if a == x then b else a);
      }
    }
  }

  // The two roots of an edge, in either order.
  ghost predicate RootsOf(roots: map<string, string>, e: Edge, low: string, high: string) {
    && e.user in roots && e.counterparty in roots
    && ((low == Get(roots, e.user) && high == Get(roots, e.counterparty)) ||
        (high == Get(roots, e.user) && low == Get(roots, e.counterparty)))
  }

  lemma AddEdge(edges: seq<Edge>, nodes: set<string>, roots: map<string, string>, e: Edge, low: string, high: string)
    requires Partitioned(edges, nodes, roots)
    requires RootsOf(roots, e, low, high)
    ensures Partitioned(edges + [e], nodes, Merged(roots, low, high))
  {
    var after := Merged(roots, low, high);
    assert (edges + [e])[..|edges|] == edges;
    forall a, b {:trigger Same(after, a, b)} | a in nodes && b in nodes
      ensures Same(after, a, b) <==> Connected(edges + [e], a, b)
    {
      EdgeMerges(edges, nodes, roots, e, low, high, a, b);
    }
  }

  lemma EdgeMerges(edges: seq<Edge>, nodes: set<string>, roots: map<string, string>, e: Edge, low: string, high: string,
                   a: string, b: string)
    requires Partitioned(edges, nodes, roots)
    requires RootsOf(roots, e, low, high)
    requires a in nodes && b in nodes
    ensures Same(Merged(roots, low, high), a, b) <==> Connected(edges + [e], a, b)
  {
    ConnectedOne(edges, e, a, b);
    assert Same(roots, a, b) <==> Connected(edges, a, b);
    assert Same(roots, a, e.user) <==> Connected(edges, a, e.user);
    assert Same(roots, a, e.counterparty) <==> Connected(edges, a, e.counterparty);
    assert Same(roots, e.user, b) <==> Connected(edges, e.user, b);
    assert Same(roots, e.counterparty, b) <==> Connected(edges, e.counterparty, b);
  }

  // ---------------------------------------------------------------- the edge loop

  /** Runs union-find over all edges. */
  method Partition(edges: seq<Edge>) returns (forest: UnionFind.Partition<string>)
    ensures fresh(forest) && forest.Valid()
    ensures Partitioned(edges, Endpoints(edges), forest.roots)
    ensures NumbersNames(forest.rank, Endpoints(edges)) && InOrder(edges, forest.names)
  {
    ghost var all := Endpoints(edges);
    RankFollowsName(all);
    forest := new UnionFind.Partition<string>(NameRank(all));
    for n := 0 to |edges|
      invariant fresh(forest) && forest.Valid() && NumbersNames(forest.rank, all)
      invariant Partitioned(edges[..n], Endpoints(edges[..n]), forest.roots)
      invariant InOrder(edges, forest.names) && AllBefore(edges, forest.names, n)
    {
      EndpointsGrow(edges, n);
      EdgeArrives(edges, n, forest.names);
      ProcessEdge(forest, edges[n], edges[..n], Endpoints(edges[..n]), all);
    }
    WholePrefix(edges);
  }

  lemma WholePrefix(edges: seq<Edge>)
    ensures edges[..|edges|] == edges
  {
  }

  lemma {:induction false} EndpointsGrow(edges: seq<Edge>, n: nat)
    requires n < |edges|
    ensures edges[..n + 1] == edges[..n] + [edges[n]]
    ensures Endpoints(edges[..n + 1]) == Endpoints(edges[..n]) + {edges[n].user} + {edges[n].counterparty}
    ensures edges[n].user in Endpoints(edges) && edges[n].counterparty in Endpoints(edges)
  {
    assert edges[..n + 1][..n] == edges[..n];
    assert edges[n] in edges && edges[n] == Edge(edges[n].user, edges[n].counterparty);
    assert Linked(edges, edges[n].user, edges[n].counterparty);
    LinkedEndpoints(edges, edges[n].user, edges[n].counterparty);
  }

  method FindNode(forest: UnionFind.Partition<string>, x: string, ghost edges: seq<Edge>, ghost nodes: set<string>)
    returns (root: string)
    requires forest.Valid() && x in forest.rank
    requires Partitioned(edges, nodes, forest.roots)
    modifies forest
    ensures forest.Valid() && x in forest.parent && root == Get(forest.roots, x) && IsRoot(forest.parent, root)
    ensures Partitioned(edges, nodes + {x}, forest.roots) && forest.names == Arrive(old(forest.names), nodes, x)
    ensures forall y :: y in nodes ==> y in forest.roots && Get(forest.roots, y) == Get(old(forest.roots), y)
  {
    if x in nodes {
      assert nodes + {x} == nodes;
    } else {
      ghost var p, rank, roots := forest.parent, forest.rank, forest.roots;
      forall y {:trigger Get(roots, y)} | y in nodes ensures Get(roots, y) in nodes {
        RootsInPlace(p, rank, roots, y);
      }
      AddNode(edges, nodes, forest.roots, x);
    }
    root := forest.Find(x);
  }

  method FindEnds(forest: UnionFind.Partition<string>, e: Edge, ghost edges: seq<Edge>, ghost nodes: set<string>)
    returns (ra: string, rb: string)
    requires forest.Valid() && Partitioned(edges, nodes, forest.roots)
    requires e.user in forest.rank && e.counterparty in forest.rank
    modifies forest
    ensures forest.Valid() && Partitioned(edges, nodes + {e.user} + {e.counterparty}, forest.roots)
    ensures forest.names == Arrive(Arrive(old(forest.names), nodes, e.user), nodes + {e.user}, e.counterparty)
    ensures RootsOf(forest.roots, e, ra, rb) && RootsOf(forest.roots, e, rb, ra)
    ensures IsRoot(forest.parent, ra) && IsRoot(forest.parent, rb)
  {
    ra := FindNode(forest, e.user, edges, nodes);
    rb := FindNode(forest, e.counterparty, edges, nodes + {e.user});
    RootsInPlace(forest.parent, forest.rank, forest.roots, e.user);
  }

  method ProcessEdge(forest: UnionFind.Partition<string>, e: Edge, ghost edges: seq<Edge>, ghost nodes: set<string>,
                     ghost all: set<string>)
    requires forest.Valid() && NumbersNames(forest.rank, all) && e.user in all && e.counterparty in all
    requires Partitioned(edges, nodes, forest.roots)
    modifies forest
    ensures forest.Valid()
    ensures Partitioned(edges + [e], nodes + {e.user} + {e.counterparty}, forest.roots)
    ensures forest.names == Arrive(Arrive(old(forest.names), nodes, e.user), nodes + {e.user}, e.counterparty)
  {
    var ra, rb := FindEnds(forest, e, edges, nodes);
    if ra != rb {
      StrTotal(ra, rb);
      if StrLt(ra, rb) {
        LinkEdge(forest, ra, rb, e, edges, nodes + {e.user} + {e.counterparty}, all);
      } else {
        LinkEdge(forest, rb, ra, e, edges, nodes + {e.user} + {e.counterparty}, all);
      }
    } else {
      AddEdge(edges, nodes + {e.user} + {e.counterparty}, forest.roots, e, ra, rb);
      MergeNothing(forest.roots, ra);
    }
  }

  lemma MergeNothing(roots: map<string, string>, r: string)
    ensures Merged(roots, r, r) == roots
  {
  }

  method LinkEdge(forest: UnionFind.Partition<string>, low: string, high: string, ghost e: Edge, ghost edges: seq<Edge>,
                  ghost nodes: set<string>, ghost all: set<string>)
    requires forest.Valid() && NumbersNames(forest.rank, all) && Partitioned(edges, nodes, forest.roots)
    requires IsRoot(forest.parent, low) && IsRoot(forest.parent, high) && StrLt(low, high)
    requires RootsOf(forest.roots, e, low, high)
    modifies forest
    ensures forest.Valid() && Partitioned(edges + [e], nodes, forest.roots) && forest.names == old(forest.names)
  {
    assert low in forest.rank && high in forest.rank;
    assert Earlier(forest.rank, low, high);
    AddEdge(edges, nodes, forest.roots, e, low, high);
    forest.Link(low, high);
  }

  /** Every root is the least member of its component. */
  lemma RootIsLeast(edges: seq<Edge>, p: map<string, string>, rank: map<string, nat>, roots: map<string, string>,
                    x: string, y: string)
    requires Roots(p, rank, roots) && NumbersNames(rank, Endpoints(edges))
    requires Partitioned(edges, Endpoints(edges), roots)
    requires x in Endpoints(edges) && y in Component(edges, x)
    ensures Get(roots, x) in Component(edges, x) && StrLe(Get(roots, x), y)
  {
    RootsInPlace(p, rank, roots, x);
    RootsInPlace(p, rank, roots, y);
    assert Same(roots, x, y);
    assert Get(roots, y) == y || Earlier(rank, Get(roots, y), y);
    assert Same(roots, x, Get(roots, x));
  }

  // ---------------------------------------------------------------- the promise

  predicate ById(a: Circle, b: Circle) {
    StrLe(a.id, b.id)
  }

  /** A circle lists one whole component, sorted, and is large enough; its id is a digest of its members. */
  ghost predicate IsCircle(edges: seq<Edge>, minSize: int, digest: seq<string> -> string, c: Circle, x: string) {
    && x in Endpoints(edges) && AsSet(c.members) == Component(edges, x)
    && Distinct(c.members) && SortedBy(c.members, StrLe)
    && |c.members| >= minSize && c.id == "circle-" + digest(c.members)
  }

  ghost predicate MembersDiffer(cs: seq<Circle>) {
    forall i, j :: 0 <= i < j < |cs| ==> cs[i].members != cs[j].members
  }

  /** The circles are exactly the components of at least the given size, each once, sorted by id. */
  ghost predicate AreCircles(edges: seq<Edge>, minSize: int, digest: seq<string> -> string, cs: seq<Circle>) {
    && SortedBy(cs, ById)
    && (forall c :: c in cs ==> exists x :: IsCircle(edges, minSize, digest, c, x))
    && MembersDiffer(cs)
    && CoversComponents(edges, minSize, digest, cs)
  }

  ghost predicate CoversComponents(edges: seq<Edge>, minSize: int, digest: seq<string> -> string, cs: seq<Circle>) {
    forall x :: x in Endpoints(edges) && |Component(edges, x)| >= minSize ==>
      exists c :: c in cs && IsCircle(edges, minSize, digest, c, x)
  }

  lemma CircleAt(edges: seq<Edge>, minSize: int, digest: seq<string> -> string, cs: seq<Circle>, x: string)
    returns (c: Circle)
    requires CoversComponents(edges, minSize, digest, cs) && x in Endpoints(edges) && |Component(edges, x)| >= minSize
    ensures c in cs && IsCircle(edges, minSize, digest, c, x)
  {
    c :| c in cs && IsCircle(edges, minSize, digest, c, x);
  }

  ghost predicate SeenBefore(edges: seq<Edge>, a: Circle, b: Circle) {
    Seen(edges, a.members) < Seen(edges, b.members)
  }

  /** Circles whose ids collide come in the order of the first edges that touch them. */
  ghost predicate TiesInOrder(edges: seq<Edge>, cs: seq<Circle>) {
    forall i, j :: 0 <= i < j < |cs| && cs[i].id == cs[j].id ==> SeenBefore(edges, cs[i], cs[j])
  }

  // ---------------------------------------------------------------- the grouping loops

  // The nodes with root r, in list order.
  ghost function WithRoot(names: seq<string>, roots: map<string, string>, r: string): seq<string>
    requires forall i :: 0 <= i < |names| ==> names[i] in roots
  {
    if names == [] then [] else
    var last := names[|names| - 1];
    var before := WithRoot(names[..|names| - 1], roots, r);
    if Get(roots, last) == r then before + [last] else before
  }

  lemma {:induction false} WithRootFacts(names: seq<string>, roots: map<string, string>, r: string)
    requires forall i :: 0 <= i < |names| ==> names[i] in roots
    ensures forall x :: x in WithRoot(names, roots, r) <==> x in names && Get(roots, x) == r
    ensures Distinct(names) ==> Distinct(WithRoot(names, roots, r))
  {
    if names != [] {
      assert names == names[..|names| - 1] + [names[|names| - 1]];
      WithRootFacts(names[..|names| - 1], roots, r);
    }
  }

  /** The roots in the order in which the names first reach them. */
  ghost function RootOrder(names: seq<string>, roots: map<string, string>): seq<string>
    requires forall i :: 0 <= i < |names| ==> names[i] in roots
  {
    if names == [] then [] else
    var before, r := RootOrder(names[..|names| - 1], roots), Get(roots, names[|names| - 1]);
    if r in before then before else before + [r]
  }

  ghost predicate Grouped(names: seq<string>, roots: map<string, string>, order: seq<string>,
                          groups: map<string, seq<string>>)
    requires forall i :: 0 <= i < |names| ==> names[i] in roots
  {
    && Distinct(order) && AsSet(order) == groups.Keys && order == RootOrder(names, roots)
    && forall r ::
      && (r in groups ==> groups[r] == WithRoot(names, roots, r) != [])
      && (r !in groups ==> WithRoot(names, roots, r) == [])
  }

  lemma GroupOne(names: seq<string>, x: string, roots: map<string, string>, order: seq<string>,
                 groups: map<string, seq<string>>)
    requires x in roots && forall i :: 0 <= i < |names| ==> names[i] in roots
    requires Grouped(names, roots, order, groups)
    ensures var r := Get(roots, x);
      Grouped(names + [x], roots, if r in groups then order else order + [r], FileUnder(groups, r, x))
  {
    var r := Get(roots, x);
    var all, after := names + [x], FileUnder(groups, r, x);
    assert all[..|names|] == names;
    assert r in groups <==> r in order;
    if r !in groups {
      DistinctAppend(order, r);
    }
    forall q
      ensures q in after ==> after[q] == WithRoot(all, roots, q) != []
      ensures q !in after ==> WithRoot(all, roots, q) == []
    {
      WithRootOne(names, x, roots, q);
    }
  }

  lemma WithRootOne(names: seq<string>, x: string, roots: map<string, string>, q: string)
    requires x in roots && forall i :: 0 <= i < |names| ==> names[i] in roots
    ensures WithRoot(names + [x], roots, q) ==
      if Get(roots, x) == q then WithRoot(names, roots, q) + [x] else WithRoot(names, roots, q)
  {
    assert (names + [x])[..|names|] == names;
  }

  /** Files every node under its root. The roots do not move any more. */
  method GroupNodes(forest: UnionFind.Partition<string>) returns (order: seq<string>, groups: map<string, seq<string>>)
    requires forest.Valid()
    modifies forest
    ensures forest.Valid() && forest.roots == old(forest.roots) && forest.names == old(forest.names)
    ensures forall i :: 0 <= i < |forest.names| ==> forest.names[i] in forest.roots
    ensures Grouped(forest.names, forest.roots, order, groups)
  {
    order, groups := [], map[];
    var nodes := forest.names;
    ghost var roots := forest.roots;
    assert forall i :: 0 <= i < |nodes| ==> nodes[i] in roots;
    for n := 0 to |nodes|
      invariant forest.Valid() && forest.roots == roots && forest.names == nodes
      invariant Grouped(nodes[..n], roots, order, groups)
    {
      var x := nodes[n];
      var r := forest.Find(x);
      GroupOne(nodes[..n], x, roots, order, groups);
      NextPrefix(nodes, n);
      if r !in groups {
        groups := groups[r := []];
        order := order + [r];
      }
      groups := groups[r := groups[r] + [x]];
    }
    WholeNames(nodes);
  }

  lemma NextPrefix(names: seq<string>, n: nat)
    requires n < |names|
    ensures names[..n + 1] == names[..n] + [names[n]]
  {
  }

  lemma WholeNames(names: seq<string>)
    ensures names[..|names|] == names
  {
  }

  // No two groups would give the same member list.
  ghost predicate DistinctGroups(groups: map<string, seq<string>>) {
    forall r, q :: r in groups && q in groups && r != q ==> SortBy(groups[r], StrLe) != SortBy(groups[q], StrLe)
  }

  function CircleFrom(group: seq<string>, digest: seq<string> -> string): Circle {
    var ordered := SortBy(group, StrLe);
    Circle("circle-" + digest(ordered), ordered)
  }

  ghost function CirclesFrom(order: seq<string>, groups: map<string, seq<string>>, minSize: int,
                             digest: seq<string> -> string): seq<Circle>
    requires forall i :: 0 <= i < |order| ==> order[i] in groups
  {
    if order == [] then [] else
    var group := groups[order[|order| - 1]];
    var before := CirclesFrom(order[..|order| - 1], groups, minSize, digest);
    if |group| < minSize then before else before + [CircleFrom(group, digest)]
  }

  /** Turns the large enough groups into circles. */
  method BuildCircles(order: seq<string>, groups: map<string, seq<string>>, minSize: int, digest: seq<string> -> string)
    returns (cs: seq<Circle>)
    requires forall i :: 0 <= i < |order| ==> order[i] in groups
    ensures cs == CirclesFrom(order, groups, minSize, digest)
  {
    cs := [];
    for n := 0 to |order|
      invariant cs == CirclesFrom(order[..n], groups, minSize, digest)
    {
      assert order[..n + 1][..n] == order[..n];
      var members := groups[order[n]];
      if |members| < minSize {
        continue;
      }
      cs := cs + [CircleFrom(members, digest)];
    }
    WholeNames(order);
  }

  lemma {:induction false} CirclesFromGroups(order: seq<string>, groups: map<string, seq<string>>, minSize: int,
                                             digest: seq<string> -> string)
    requires forall i :: 0 <= i < |order| ==> order[i] in groups
    ensures forall c :: c in CirclesFrom(order, groups, minSize, digest) <==>
      exists r :: MadeFrom(order, groups, minSize, digest, c, r)
  {
    if order != [] {
      var before, last := order[..|order| - 1], order[|order| - 1];
      assert order == before + [last];
      CirclesFromGroups(before, groups, minSize, digest);
      forall c
        ensures c in CirclesFrom(order, groups, minSize, digest) <==>
          exists r :: MadeFrom(order, groups, minSize, digest, c, r)
      {
        if r :| MadeFrom(before, groups, minSize, digest, c, r) {
          assert MadeFrom(order, groups, minSize, digest, c, r);
        }
        if r :| MadeFrom(order, groups, minSize, digest, c, r) {
          assert r == last || MadeFrom(before, groups, minSize, digest, c, r);
        }
        if |groups[last]| >= minSize {
          assert MadeFrom(order, groups, minSize, digest, CircleFrom(groups[last], digest), last);
        }
      }
    }
  }

  lemma {:induction false} CirclesDiffer(order: seq<string>, groups: map<string, seq<string>>, minSize: int,
                                         digest: seq<string> -> string)
    requires Distinct(order) && DistinctGroups(groups)
    requires forall i :: 0 <= i < |order| ==> order[i] in groups
    ensures MembersDiffer(CirclesFrom(order, groups, minSize, digest))
  {
    if order != [] {
      var before, last := order[..|order| - 1], order[|order| - 1];
      CirclesDiffer(before, groups, minSize, digest);
      CirclesFromGroups(before, groups, minSize, digest);
      var cs := CirclesFrom(before, groups, minSize, digest);
      forall i | 0 <= i < |cs| ensures cs[i].members != SortBy(groups[last], StrLe) {
        assert cs[i] in cs;
        var r :| MadeFrom(before, groups, minSize, digest, cs[i], r);
        assert r != last;
      }
      var all := CirclesFrom(order, groups, minSize, digest);
      forall i, j | 0 <= i < j < |all| ensures all[i].members != all[j].members {
        assert all == cs || all == cs + [CircleFrom(groups[last], digest)];
        assert all[i] == cs[i];
        if j < |cs| {
          assert all[j] == cs[j];
          assert cs[i].members != cs[j].members;
        } else {
          assert all[j].members == SortBy(groups[last], StrLe);
          assert cs[i].members != SortBy(groups[last], StrLe);
        }
      }
    }
  }

  ghost predicate MadeFrom(order: seq<string>, groups: map<string, seq<string>>, minSize: int,
                           digest: seq<string> -> string, c: Circle, r: string) {
    && r in order && r in groups && |groups[r]| >= minSize
    && c == CircleFrom(groups[r], digest)
  }

  /** The group of a root lists its component. */
  lemma GroupIsComponent(edges: seq<Edge>, names: seq<string>, roots: map<string, string>, r: string, x: string)
    requires Partitioned(edges, Endpoints(edges), roots) && Lists(names, roots.Keys)
    requires x in Endpoints(edges) && Get(roots, x) == r
    ensures forall i :: 0 <= i < |names| ==> names[i] in roots
    ensures var group := WithRoot(names, roots, r);
      AsSet(group) == Component(edges, x) && Distinct(group) && |group| == |Component(edges, x)| && group != []
  {
    assert forall i :: 0 <= i < |names| ==> names[i] in roots.Keys;
    var group := WithRoot(names, roots, r);
    WithRootFacts(names, roots, r);
    ListsAll(names, roots.Keys);
    forall y ensures y in AsSet(group) <==> y in Component(edges, x) {
      if y in Endpoints(edges) {
        assert y in names;
        assert Same(roots, x, y) <==> Connected(edges, x, y);
      }
    }
    CardinalityOfDistinct(group);
    ConnectedRefl(edges, x);
    assert x in AsSet(group);
  }

  lemma CircleOfGroup(edges: seq<Edge>, names: seq<string>, roots: map<string, string>, order: seq<string>,
                      groups: map<string, seq<string>>, minSize: int, digest: seq<string> -> string, c: Circle,
                      x: string)
    requires Partitioned(edges, Endpoints(edges), roots) && Lists(names, roots.Keys)
    requires forall i :: 0 <= i < |names| ==> names[i] in roots
    requires Grouped(names, roots, order, groups) && x in Endpoints(edges)
    requires MadeFrom(order, groups, minSize, digest, c, Get(roots, x))
    ensures IsCircle(edges, minSize, digest, c, x)
  {
    var r := Get(roots, x);
    GroupIsComponent(edges, names, roots, r, x);
    SortByMembers(groups[r], StrLe);
    SortByDistinct(groups[r], StrLe);
    StrOrder();
    SortBySorted(groups[r], StrLe);
    assert AsSet(c.members) == AsSet(groups[r]);
  }

  lemma GroupsDiffer(names: seq<string>, roots: map<string, string>, order: seq<string>,
                     groups: map<string, seq<string>>)
    requires forall i :: 0 <= i < |names| ==> names[i] in roots
    requires Grouped(names, roots, order, groups)
    ensures DistinctGroups(groups)
  {
    forall r, q | r in groups && q in groups && r != q ensures SortBy(groups[r], StrLe) != SortBy(groups[q], StrLe) {
      WithRootFacts(names, roots, r);
      WithRootFacts(names, roots, q);
      SortByMembers(groups[r], StrLe);
      SortByMembers(groups[q], StrLe);
      var x := groups[r][0];
      assert x in groups[r] && x !in groups[q];
    }
  }

  method FindCircles(edges: seq<Edge>, minSize: int, digest: seq<string> -> string) returns (circles: seq<Circle>)
    ensures AreCircles(edges, minSize, digest, circles) && TiesInOrder(edges, circles)
  {
    var forest := Partition(edges);
    var order, groups := GroupNodes(forest);
    forall i | 0 <= i < |order| ensures order[i] in groups {
      assert order[i] in AsSet(order);
    }
    var cs := BuildCircles(order, groups, minSize, digest);
    circles := SortBy(cs, ById);
    CirclesDone(edges, forest.parent, forest.rank, forest.names, forest.roots, order, groups, minSize, digest);
    TiesDone(edges, forest.names, forest.roots, order, groups, minSize, digest);
  }

  // The state when the grouping is complete.
  ghost predicate Complete(edges: seq<Edge>, names: seq<string>, roots: map<string, string>, order: seq<string>,
                           groups: map<string, seq<string>>) {
    && Partitioned(edges, Endpoints(edges), roots) && Lists(names, roots.Keys)
    && (forall i :: 0 <= i < |names| ==> names[i] in roots)
    && Grouped(names, roots, order, groups)
    && forall i :: 0 <= i < |order| ==> order[i] in groups
  }

  lemma CirclesDone(edges: seq<Edge>, p: map<string, string>, rank: map<string, nat>, names: seq<string>,
                    roots: map<string, string>, order: seq<string>, groups: map<string, seq<string>>, minSize: int,
                    digest: seq<string> -> string)
    requires Roots(p, rank, roots) && Complete(edges, names, roots, order, groups)
    ensures AreCircles(edges, minSize, digest, SortBy(CirclesFrom(order, groups, minSize, digest), ById))
  {
    var cs := CirclesFrom(order, groups, minSize, digest);
    SortByMembers(cs, ById);
    IdOrder();
    SortBySorted(cs, ById);
    CirclesComplete(edges, names, roots, order, groups, minSize, digest, SortBy(cs, ById));
    GroupsDiffer(names, roots, order, groups);
    CirclesDiffer(order, groups, minSize, digest);
    SortedMembersDiffer(cs);
  }

  lemma CirclesComplete(edges: seq<Edge>, names: seq<string>, roots: map<string, string>, order: seq<string>,
                        groups: map<string, seq<string>>, minSize: int, digest: seq<string> -> string, cs: seq<Circle>)
    requires Complete(edges, names, roots, order, groups)
    requires forall c :: c in cs <==> c in CirclesFrom(order, groups, minSize, digest)
    ensures forall c :: c in cs ==> exists x :: IsCircle(edges, minSize, digest, c, x)
    ensures forall x :: x in Endpoints(edges) && |Component(edges, x)| >= minSize ==>
      exists c :: c in cs && IsCircle(edges, minSize, digest, c, x)
  {
    forall c | c in cs ensures exists x :: IsCircle(edges, minSize, digest, c, x) {
      var x := MadeIsCircle(edges, names, roots, order, groups, minSize, digest, c);
    }
    forall x | x in Endpoints(edges) && |Component(edges, x)| >= minSize
      ensures exists c :: c in cs && IsCircle(edges, minSize, digest, c, x)
    {
      var c := ComponentIsMade(edges, names, roots, order, groups, minSize, digest, x);
      assert c in cs;
    }
  }

  lemma MadeIsCircle(edges: seq<Edge>, names: seq<string>, roots: map<string, string>, order: seq<string>,
                     groups: map<string, seq<string>>, minSize: int, digest: seq<string> -> string, c: Circle)
    returns (x: string)
    requires Complete(edges, names, roots, order, groups)
    requires c in CirclesFrom(order, groups, minSize, digest)
    ensures IsCircle(edges, minSize, digest, c, x)
  {
    CirclesFromGroups(order, groups, minSize, digest);
    var r :| MadeFrom(order, groups, minSize, digest, c, r);
    WithRootFacts(names, roots, r);
    x := groups[r][0];
    assert x in WithRoot(names, roots, r);
    CircleOfGroup(edges, names, roots, order, groups, minSize, digest, c, x);
  }

  lemma ComponentIsMade(edges: seq<Edge>, names: seq<string>, roots: map<string, string>, order: seq<string>,
                        groups: map<string, seq<string>>, minSize: int, digest: seq<string> -> string, x: string)
    returns (c: Circle)
    requires Complete(edges, names, roots, order, groups)
    requires x in Endpoints(edges) && |Component(edges, x)| >= minSize
    ensures c in CirclesFrom(order, groups, minSize, digest) && IsCircle(edges, minSize, digest, c, x)
  {
    var r := Get(roots, x);
    GroupIsComponent(edges, names, roots, r, x);
    assert r in groups && r in AsSet(order);
    c := CircleFrom(groups[r], digest);
    assert MadeFrom(order, groups, minSize, digest, c, r);
    CirclesFromGroups(order, groups, minSize, digest);
    CircleOfGroup(edges, names, roots, order, groups, minSize, digest, c, x);
  }

  lemma IdOrder()
    ensures TotalPreorder(ById)
  {
    StrOrder();
    forall a, b ensures ById(a, b) || ById(b, a) {
      assert StrLe(a.id, b.id) || StrLe(b.id, a.id);
    }
    forall a, b, c | ById(a, b) && ById(b, c) ensures ById(a, c) {
      StrLeTrans(a.id, b.id, c.id);
    }
  }

  lemma SortedMembersDiffer(cs: seq<Circle>)
    requires MembersDiffer(cs)
    ensures MembersDiffer(SortBy(cs, ById))
  {
    var sorted := SortBy(cs, ById);
    SortByMembers(cs, ById);
    SortByDistinct(cs, ById);
    forall i, j | 0 <= i < j < |sorted| ensures sorted[i].members != sorted[j].members {
      assert sorted[i] in sorted && sorted[j] in sorted && sorted[i] != sorted[j];
      var a :| 0 <= a < |cs| && cs[a] == sorted[i];
      var b :| 0 <= b < |cs| && cs[b] == sorted[j];
      assert a != b;
    }
  }

  // ---------------------------------------------------------------- the order of circles with one id

  // The group of the first root holds a name that arrived no later than any name of the second.
  ghost predicate Leads(edges: seq<Edge>, names: seq<string>, roots: map<string, string>, r: string, q: string)
    requires forall i :: 0 <= i < |names| ==> names[i] in roots
  {
    exists x :: x in WithRoot(names, roots, r) && NoLater(edges, x, WithRoot(names, roots, q))
  }

  ghost predicate NoLater(edges: seq<Edge>, x: string, others: seq<string>) {
    forall y :: y in others ==> FirstEdge(edges, x) <= FirstEdge(edges, y)
  }

  lemma {:induction false} RootsReached(names: seq<string>, roots: map<string, string>)
    requires forall i :: 0 <= i < |names| ==> names[i] in roots
    ensures forall r :: r in RootOrder(names, roots) <==> WithRoot(names, roots, r) != []
  {
    if names != [] {
      RootsReached(names[..|names| - 1], roots);
    }
  }

  // One more name arrives after all the others, so it takes the lead from no root.
  lemma LeadKept(edges: seq<Edge>, before: seq<string>, last: string, roots: map<string, string>, r: string, q: string,
                 x: string)
    requires forall k :: 0 <= k < |before| ==> before[k] in roots
    requires forall k :: 0 <= k < |before + [last]| ==> (before + [last])[k] in roots
    requires InOrder(edges, before + [last])
    requires x in WithRoot(before, roots, r) && NoLater(edges, x, WithRoot(before, roots, q))
    ensures Leads(edges, before + [last], roots, r, q)
  {
    var names := before + [last];
    assert names[..|before|] == before;
    assert forall k :: 0 <= k < |before| ==> before[k] == names[k];
    WithRootFacts(before, roots, r);
    WithRootFacts(before, roots, q);
    WithRootFacts(names, roots, r);
    WithRootFacts(names, roots, q);
    var k :| 0 <= k < |before| && before[k] == x;
    assert names[k] == x && names[|before|] == last;
    assert NoLater(edges, x, WithRoot(names, roots, q));
  }

  lemma {:induction false} OrderFollowsArrival(edges: seq<Edge>, names: seq<string>, roots: map<string, string>, i: nat,
                                               j: nat)
    requires forall k :: 0 <= k < |names| ==> names[k] in roots
    requires InOrder(edges, names) && i < j < |RootOrder(names, roots)|
    ensures Leads(edges, names, roots, RootOrder(names, roots)[i], RootOrder(names, roots)[j])
  {
    var n := |names| - 1;
    var before, last := names[..n], names[n];
    var order := RootOrder(before, roots);
    var r, q := RootOrder(names, roots)[i], RootOrder(names, roots)[j];
    assert names == before + [last];
    RootsReached(before, roots);
    assert r in order;
    var x: string;
    if j < |order| {
      OrderFollowsArrival(edges, before, roots, i, j);
      x :| x in WithRoot(before, roots, r) && NoLater(edges, x, WithRoot(before, roots, q));
    } else {
      assert q !in order && WithRoot(before, roots, q) == [];
      x := WithRoot(before, roots, r)[0];
      assert x in WithRoot(before, roots, r);
    }
    LeadKept(edges, before, last, roots, r, q, x);
  }

  /** Names of different components never arrive with the same edge. */
  lemma DifferentEdges(edges: seq<Edge>, roots: map<string, string>, x: string, y: string)
    requires Partitioned(edges, Endpoints(edges), roots) && x in Endpoints(edges) && y in Endpoints(edges)
    requires Get(roots, x) != Get(roots, y)
    ensures FirstEdge(edges, x) != FirstEdge(edges, y) && FirstEdge(edges, x) < |edges|
  {
    EndpointTouched(edges, x);
    var n := FirstEdge(edges, x);
    assert !Same(roots, x, y);
    if FirstEdge(edges, y) == n {
      var e := edges[n];
      assert e == Edge(e.user, e.counterparty) && e in edges;
      assert Linked(edges, e.user, e.counterparty);
      ConnectedRefl(edges, x);
      ConnectedLink(edges, x, y);
    }
  }

  // The circle lists the names with the given root.
  ghost predicate Holds(names: seq<string>, roots: map<string, string>, c: Circle, r: string)
    requires forall i :: 0 <= i < |names| ==> names[i] in roots
  {
    forall x :: x in c.members <==> x in WithRoot(names, roots, r)
  }

  lemma LeaderIsSeenBefore(edges: seq<Edge>, names: seq<string>, roots: map<string, string>, r: string, q: string,
                           a: Circle, b: Circle)
    requires Partitioned(edges, Endpoints(edges), roots) && Lists(names, roots.Keys)
    requires forall i :: 0 <= i < |names| ==> names[i] in roots
    requires r != q && Leads(edges, names, roots, r, q) && WithRoot(names, roots, q) != []
    requires Holds(names, roots, a, r) && Holds(names, roots, b, q)
    ensures SeenBefore(edges, a, b)
  {
    var x :| x in WithRoot(names, roots, r) && NoLater(edges, x, WithRoot(names, roots, q));
    WithRootFacts(names, roots, r);
    WithRootFacts(names, roots, q);
    ListsAll(names, roots.Keys);
    assert WithRoot(names, roots, q)[0] in b.members;
    var y := SeenIsSome(edges, b.members);
    SeenIsLeast(edges, a.members, x);
    DifferentEdges(edges, roots, x, y);
  }

  lemma GroupLists(names: seq<string>, roots: map<string, string>, order: seq<string>, groups: map<string, seq<string>>,
                   digest: seq<string> -> string, r: string)
    requires forall i :: 0 <= i < |names| ==> names[i] in roots
    requires Grouped(names, roots, order, groups) && r in groups
    ensures Holds(names, roots, CircleFrom(groups[r], digest), r) && WithRoot(names, roots, r) != []
  {
    SortByMembers(groups[r], StrLe);
  }

  ghost predicate Ordered(edges: seq<Edge>, cs: seq<Circle>) {
    forall i, j :: 0 <= i < j < |cs| ==> SeenBefore(edges, cs[i], cs[j])
  }

  lemma {:induction false} CirclesInOrder(edges: seq<Edge>, names: seq<string>, roots: map<string, string>,
                                          order: seq<string>, groups: map<string, seq<string>>, minSize: int,
                                          digest: seq<string> -> string, n: nat)
    requires Complete(edges, names, roots, order, groups) && InOrder(edges, names) && n <= |order|
    ensures Ordered(edges, CirclesFrom(order[..n], groups, minSize, digest))
  {
    if n > 0 {
      CirclesInOrder(edges, names, roots, order, groups, minSize, digest, n - 1);
      NextInOrder(edges, names, roots, order, groups, minSize, digest, n - 1);
    }
  }

  lemma NextInOrder(edges: seq<Edge>, names: seq<string>, roots: map<string, string>, order: seq<string>,
                    groups: map<string, seq<string>>, minSize: int, digest: seq<string> -> string, n: nat)
    requires Complete(edges, names, roots, order, groups) && InOrder(edges, names) && n < |order|
    requires Ordered(edges, CirclesFrom(order[..n], groups, minSize, digest))
    ensures Ordered(edges, CirclesFrom(order[..n + 1], groups, minSize, digest))
  {
    var cs, last := CirclesFrom(order[..n], groups, minSize, digest), CircleFrom(groups[order[n]], digest);
    CirclesFromOne(order, groups, minSize, digest, n);
    forall i | 0 <= i < |cs| ensures SeenBefore(edges, cs[i], last) {
      EarlierGroupFirst(edges, names, roots, order, groups, minSize, digest, n, cs[i]);
    }
    OrderedMore(edges, cs, last);
  }

  lemma CirclesFromOne(order: seq<string>, groups: map<string, seq<string>>, minSize: int,
                       digest: seq<string> -> string, n: nat)
    requires n < |order| && forall i :: 0 <= i < |order| ==> order[i] in groups
    ensures CirclesFrom(order[..n + 1], groups, minSize, digest) ==
      CirclesFrom(order[..n], groups, minSize, digest) +
      if |groups[order[n]]| >= minSize then [CircleFrom(groups[order[n]], digest)] else []
  {
    assert order[..n + 1][..n] == order[..n];
  }

  lemma OrderedMore(edges: seq<Edge>, cs: seq<Circle>, last: Circle)
    requires Ordered(edges, cs) && forall i :: 0 <= i < |cs| ==> SeenBefore(edges, cs[i], last)
    ensures Ordered(edges, cs + [last])
  {
  }

  lemma EarlierGroupFirst(edges: seq<Edge>, names: seq<string>, roots: map<string, string>, order: seq<string>,
                          groups: map<string, seq<string>>, minSize: int, digest: seq<string> -> string, n: nat,
                          c: Circle)
    requires Complete(edges, names, roots, order, groups) && InOrder(edges, names) && n < |order|
    requires c in CirclesFrom(order[..n], groups, minSize, digest) && order[n] in groups
    ensures SeenBefore(edges, c, CircleFrom(groups[order[n]], digest))
  {
    CirclesFromGroups(order[..n], groups, minSize, digest);
    var r :| MadeFrom(order[..n], groups, minSize, digest, c, r);
    var k :| 0 <= k < n && order[k] == r;
    assert r in AsSet(order) && r in groups;
    OrderFollowsArrival(edges, names, roots, k, n);
    GroupLists(names, roots, order, groups, digest, r);
    GroupLists(names, roots, order, groups, digest, order[n]);
    LeaderIsSeenBefore(edges, names, roots, r, order[n], c, CircleFrom(groups[order[n]], digest));
  }

  lemma TiesDone(edges: seq<Edge>, names: seq<string>, roots: map<string, string>, order: seq<string>,
                 groups: map<string, seq<string>>, minSize: int, digest: seq<string> -> string)
    requires Complete(edges, names, roots, order, groups) && InOrder(edges, names)
    ensures TiesInOrder(edges, SortBy(CirclesFrom(order, groups, minSize, digest), ById))
  {
    CirclesInOrder(edges, names, roots, order, groups, minSize, digest, |order|);
    WholeNames(order);
    SortedTies(edges, CirclesFrom(order, groups, minSize, digest));
  }

  lemma SortedTies(edges: seq<Edge>, cs: seq<Circle>)
    requires Ordered(edges, cs)
    ensures TiesInOrder(edges, SortBy(cs, ById))
  {
    var before := (a: Circle, b: Circle) => SeenBefore(edges, a, b);
    SortByStable(cs, ById, before);
    var sorted := SortBy(cs, ById);
    forall i, j | 0 <= i < j < |sorted| && sorted[i].id == sorted[j].id
      ensures SeenBefore(edges, sorted[i], sorted[j])
    {
      assert ById(sorted[j], sorted[i]);
    }
  }

  // ---------------------------------------------------------------- what the promise means

  /** Two names are in a common circle exactly when an edge path joins them and their component is large enough. */
  lemma SharedCircle(edges: seq<Edge>, minSize: int, digest: seq<string> -> string, cs: seq<Circle>, a: string,
                     b: string)
    requires AreCircles(edges, minSize, digest, cs) && a in Endpoints(edges) && b in Endpoints(edges)
    ensures (exists c :: c in cs && a in c.members && b in c.members) <==>
      Connected(edges, a, b) && |Component(edges, a)| >= minSize
  {
    if c :| c in cs && a in c.members && b in c.members {
      CommonMembers(edges, minSize, digest, cs, c, a, b);
    }
    if Connected(edges, a, b) && |Component(edges, a)| >= minSize {
      var c :| c in cs && IsCircle(edges, minSize, digest, c, a);
      ConnectedRefl(edges, a);
      assert a in AsSet(c.members) && b in AsSet(c.members);
    }
  }

  lemma CommonMembers(edges: seq<Edge>, minSize: int, digest: seq<string> -> string, cs: seq<Circle>, c: Circle,
                      a: string, b: string)
    requires AreCircles(edges, minSize, digest, cs) && c in cs && a in c.members && b in c.members
    ensures Connected(edges, a, b) && |Component(edges, a)| >= minSize
  {
    var x :| IsCircle(edges, minSize, digest, c, x);
    assert a in AsSet(c.members) && b in AsSet(c.members);
    ConnectedSym(edges, x, a);
    ConnectedTrans(edges, a, x, b);
    SameComponentOf(edges, x, a);
    CardinalityOfDistinct(c.members);
  }

  lemma SameComponentOf(edges: seq<Edge>, a: string, b: string)
    requires Connected(edges, a, b)
    ensures Component(edges, a) == Component(edges, b)
  {
    ConnectedSym(edges, a, b);
    forall y ensures Connected(edges, a, y) <==> Connected(edges, b, y) {
      if Connected(edges, a, y) { ConnectedTrans(edges, b, a, y); }
      if Connected(edges, b, y) { ConnectedTrans(edges, a, b, y); }
    }
  }

  /** No name is in two circles. */
  lemma CirclesDisjoint(edges: seq<Edge>, minSize: int, digest: seq<string> -> string, cs: seq<Circle>, i: nat, j: nat,
                        a: string)
    requires AreCircles(edges, minSize, digest, cs)
    requires i < |cs| && j < |cs| && a in cs[i].members && a in cs[j].members
    ensures i == j
  {
    assert cs[i] in cs && cs[j] in cs;
    var x :| IsCircle(edges, minSize, digest, cs[i], x);
    var y :| IsCircle(edges, minSize, digest, cs[j], y);
    assert a in AsSet(cs[i].members) && a in AsSet(cs[j].members);
    SameComponentOf(edges, x, a);
    SameComponentOf(edges, y, a);
    SameMembers(cs[i].members, cs[j].members);
  }

  lemma SameMembers(a: seq<string>, b: seq<string>)
    requires AsSet(a) == AsSet(b) && Distinct(a) && Distinct(b) && SortedBy(a, StrLe) && SortedBy(b, StrLe)
    ensures a == b
  {
    StrOrder();
    assert forall x :: x in a <==> x in AsSet(a);
    assert forall x :: x in b <==> x in AsSet(b);
    SortedUnique(a, b, StrLe);
  }
}
