/** Whether the circles depend on how the edges are listed: their order, repetition and direction. */
module CircleListing {
  import opened Contracts
  import opened Ordering
  import opened Connectivity
  import opened Arrival
  import opened Circles

  /** What the search returns for a list of edges. */
  ghost predicate Found(edges: seq<Edge>, minSize: int, digest: seq<string> -> string, cs: seq<Circle>) {
    AreCircles(edges, minSize, digest, cs) && TiesInOrder(edges, cs)
  }

  /** The same edges, permuted, repeated or flipped. */
  ghost predicate SameEdges(e: seq<Edge>, f: seq<Edge>) {
    && (forall x :: x in e ==> x in f || Flip(x) in f)
    && (forall x :: x in f ==> x in e || Flip(x) in e)
  }

  ghost predicate DifferentIds(cs: seq<Circle>) {
    forall i, j :: 0 <= i < j < |cs| ==> cs[i].id != cs[j].id
  }

  lemma SameCircle(e: seq<Edge>, f: seq<Edge>, minSize: int, digest: seq<string> -> string, c: Circle, x: string)
    requires SameLinks(e, f) && IsCircle(e, minSize, digest, c, x)
    ensures IsCircle(f, minSize, digest, c, x) && |Component(f, x)| >= minSize
  {
    SameComponent(e, f, x);
    SameEndpoints(e, f);
    CardinalityOfDistinct(c.members);
  }

  lemma CircleCarries(e: seq<Edge>, f: seq<Edge>, minSize: int, digest: seq<string> -> string, cs: seq<Circle>,
                      ds: seq<Circle>, c: Circle)
    requires SameLinks(e, f) && AreCircles(e, minSize, digest, cs) && AreCircles(f, minSize, digest, ds) && c in cs
    ensures c in ds
  {
    var x :| IsCircle(e, minSize, digest, c, x);
    SameCircle(e, f, minSize, digest, c, x);
    var d :| d in ds && IsCircle(f, minSize, digest, d, x);
    SameMembers(c.members, d.members);
  }

  lemma CirclesDistinct(cs: seq<Circle>)
    requires MembersDiffer(cs)
    ensures Distinct(cs)
  {
    forall i, j | 0 <= i < j < |cs| ensures cs[i] != cs[j] {
      assert cs[i].members != cs[j].members;
    }
  }

  /** However the edges are listed, the circles found are the same ones. */
  lemma SameCirclesFound(e: seq<Edge>, f: seq<Edge>, minSize: int, digest: seq<string> -> string, cs: seq<Circle>,
                         ds: seq<Circle>)
    requires SameEdges(e, f) && AreCircles(e, minSize, digest, cs) && AreCircles(f, minSize, digest, ds)
    ensures multiset(cs) == multiset(ds) && forall c :: c in cs <==> c in ds
  {
    RelistedEdges(e, f);
    forall c ensures c in cs <==> c in ds {
      if c in cs { CircleCarries(e, f, minSize, digest, cs, ds, c); }
      if c in ds { CircleCarries(f, e, minSize, digest, ds, cs, c); }
    }
    CirclesDistinct(cs);
    CirclesDistinct(ds);
    SameMembersSameMultiset(cs, ds);
  }

  /** If no two of them share an id, they also come in the same order. */
  lemma SameListFound(e: seq<Edge>, f: seq<Edge>, minSize: int, digest: seq<string> -> string, cs: seq<Circle>,
                      ds: seq<Circle>)
    requires SameEdges(e, f) && AreCircles(e, minSize, digest, cs) && AreCircles(f, minSize, digest, ds)
    requires DifferentIds(cs)
    ensures cs == ds
  {
    SameCirclesFound(e, f, minSize, digest, cs, ds);
    CirclesDistinct(cs);
    CirclesDistinct(ds);
    IdOrder();
    StrOrder();
    forall x, y | x in cs && y in cs && ById(x, y) && ById(y, x) ensures x == y {
      var i :| 0 <= i < |cs| && cs[i] == x;
      var j :| 0 <= j < |cs| && cs[j] == y;
      assert x.id == y.id;
    }
    SortedUnique(cs, ds, ById);
  }

  // ---------------------------------------------------------------- colliding ids

  lemma MemberOf(edges: seq<Edge>, minSize: int, digest: seq<string> -> string, cs: seq<Circle>, c: Circle)
    returns (x: string)
    requires AreCircles(edges, minSize, digest, cs) && c in cs
    ensures x in c.members && x in Endpoints(edges)
  {
    x :| IsCircle(edges, minSize, digest, c, x);
    ConnectedRefl(edges, x);
    assert x in AsSet(c.members);
  }

  /** The list with one of its edges moved to the front. */
  function Promoted(edges: seq<Edge>, n: nat): seq<Edge>
    requires n < |edges|
  {
    [edges[n]] + (edges[..n] + edges[n + 1..])
  }

  lemma PromotedSame(edges: seq<Edge>, n: nat)
    requires n < |edges|
    ensures SameEdges(edges, Promoted(edges, n))
  {
    AroundOne(edges, n);
    forall x ensures x in edges <==> x in Promoted(edges, n) {
      assert x in edges <==> x in edges[..n] || x == edges[n] || x in edges[n + 1..];
    }
  }

  // The second circle is listed before the first.
  ghost predicate Swapped(cs: seq<Circle>, a: Circle, b: Circle) {
    exists k, m :: 0 <= k < m < |cs| && cs[k] == b && cs[m] == a
  }

  /** Of two circles with one id, the one that the first edge of the list touches comes first. */
  lemma TouchedFirst(f: seq<Edge>, cs: seq<Circle>, a: Circle, b: Circle, x: string)
    requires TiesInOrder(f, cs) && a in cs && b in cs && a != b && a.id == b.id
    requires x in b.members && FirstEdge(f, x) == 0
    ensures Swapped(cs, a, b)
  {
    SeenIsLeast(f, b.members, x);
    var m :| 0 <= m < |cs| && cs[m] == a;
    var k :| 0 <= k < |cs| && cs[k] == b;
    assert k < m || SeenBefore(f, a, b);
  }

  /** Two circles that share an id change places when a certain edge of the later one is moved to the front. */
  lemma CollisionSwaps(e: seq<Edge>, minSize: int, digest: seq<string> -> string, cs: seq<Circle>, i: nat, j: nat)
    returns (n: nat)
    requires Found(e, minSize, digest, cs) && i < j < |cs| && cs[i].id == cs[j].id
    ensures n < |e| && SameEdges(e, Promoted(e, n))
    ensures forall ds :: Found(Promoted(e, n), minSize, digest, ds) ==> Swapped(ds, cs[i], cs[j])
  {
    var x := MemberOf(e, minSize, digest, cs, cs[j]);
    EndpointTouched(e, x);
    n := FirstEdge(e, x);
    PromotedSame(e, n);
    CirclesDistinct(cs);
    forall ds | Found(Promoted(e, n), minSize, digest, ds) ensures Swapped(ds, cs[i], cs[j]) {
      SameCirclesFound(e, Promoted(e, n), minSize, digest, cs, ds);
      assert cs[i] in cs && cs[j] in cs;
      TouchedFirst(Promoted(e, n), ds, cs[i], cs[j], x);
    }
  }

  // The circles in the order of the first edges that touch them.
  lemma BySight(e: seq<Edge>, f: seq<Edge>, minSize: int, digest: seq<string> -> string, cs: seq<Circle>)
    returns (list: seq<Circle>)
    requires SameLinks(e, f) && AreCircles(e, minSize, digest, cs)
    ensures Ordered(f, list) && Distinct(list) && forall c :: c in list <==> c in cs
  {
    var seen := (a: Circle, b: Circle) => Seen(f, a.members) <= Seen(f, b.members);
    list := SortBy(cs, seen);
    SortBySorted(cs, seen);
    SortByMembers(cs, seen);
    CirclesDistinct(cs);
    SortByDistinct(cs, seen);
    forall i, j | 0 <= i < j < |list| ensures SeenBefore(f, list[i], list[j]) {
      assert list[i] in list && list[j] in list && seen(list[i], list[j]);
      NeverTogether(e, f, minSize, digest, cs, list[i], list[j]);
    }
  }

  /** Every listing of the edges has a result. */
  lemma ResultFor(e: seq<Edge>, f: seq<Edge>, minSize: int, digest: seq<string> -> string, cs: seq<Circle>)
    returns (ds: seq<Circle>)
    requires SameEdges(e, f) && AreCircles(e, minSize, digest, cs)
    ensures Found(f, minSize, digest, ds)
  {
    RelistedEdges(e, f);
    var list := BySight(e, f, minSize, digest, cs);
    SortedTies(f, list);
    ds := SortBy(list, ById);
    IdOrder();
    SortBySorted(list, ById);
    SortByMembers(list, ById);
    SortByDistinct(list, ById);
    Rearranged(e, f, minSize, digest, cs, ds);
  }

  // Different circles are not seen at the same edge.
  lemma NeverTogether(e: seq<Edge>, f: seq<Edge>, minSize: int, digest: seq<string> -> string, cs: seq<Circle>,
                      a: Circle, b: Circle)
    requires SameLinks(e, f) && AreCircles(e, minSize, digest, cs) && a in cs && b in cs && a != b
    ensures Seen(f, a.members) != Seen(f, b.members)
  {
    var u := MemberOf(e, minSize, digest, cs, a);
    var v := MemberOf(e, minSize, digest, cs, b);
    var x := SeenIsSome(f, a.members);
    var y := SeenIsSome(f, b.members);
    var n := FirstEdge(f, x);
    SharedEnd(e, f, minSize, digest, cs, a, x);
    if FirstEdge(f, y) == n {
      var edge := f[n];
      assert edge == Edge(edge.user, edge.counterparty) && edge in f;
      assert Linked(f, edge.user, edge.counterparty);
      ConnectedRefl(f, x);
      if x != y {
        ConnectedLink(f, x, y);
      }
      SameConnected(e, f, x, y);
      OneCircle(e, minSize, digest, cs, a, b, x, y);
    }
  }

  lemma SharedEnd(e: seq<Edge>, f: seq<Edge>, minSize: int, digest: seq<string> -> string, cs: seq<Circle>, a: Circle,
                  x: string)
    requires SameLinks(e, f) && AreCircles(e, minSize, digest, cs) && a in cs && x in a.members
    ensures FirstEdge(f, x) < |f|
  {
    var u :| IsCircle(e, minSize, digest, a, u);
    assert x in AsSet(a.members);
    SameEndpoints(e, f);
    EndpointTouched(f, x);
  }

  lemma OneCircle(e: seq<Edge>, minSize: int, digest: seq<string> -> string, cs: seq<Circle>, a: Circle, b: Circle,
                  x: string, y: string)
    requires AreCircles(e, minSize, digest, cs) && a in cs && b in cs
    requires x in a.members && y in b.members && Connected(e, x, y)
    ensures a == b
  {
    var u :| IsCircle(e, minSize, digest, a, u);
    var v :| IsCircle(e, minSize, digest, b, v);
    assert x in AsSet(a.members) && y in AsSet(b.members);
    ConnectedTrans(e, u, x, y);
    SameComponentOf(e, u, y);
    SameComponentOf(e, v, y);
    SameMembers(a.members, b.members);
  }

  lemma PartDiffers(cs: seq<Circle>, ds: seq<Circle>)
    requires MembersDiffer(cs) && Distinct(ds) && forall c :: c in ds ==> c in cs
    ensures MembersDiffer(ds)
  {
    forall i, j | 0 <= i < j < |ds| ensures ds[i].members != ds[j].members {
      assert ds[i] in ds && ds[j] in ds && ds[i] != ds[j];
      var a :| 0 <= a < |cs| && cs[a] == ds[i];
      var b :| 0 <= b < |cs| && cs[b] == ds[j];
      assert a != b;
    }
  }

  lemma StillFound(e: seq<Edge>, f: seq<Edge>, minSize: int, digest: seq<string> -> string, cs: seq<Circle>, x: string)
    returns (c: Circle)
    requires SameLinks(e, f) && CoversComponents(e, minSize, digest, cs)
    requires x in Endpoints(f) && |Component(f, x)| >= minSize
    ensures c in cs && IsCircle(f, minSize, digest, c, x)
  {
    SameEndpoints(e, f);
    SameComponent(e, f, x);
    c := CircleAt(e, minSize, digest, cs, x);
    SameCircle(e, f, minSize, digest, c, x);
  }

  lemma Rearranged(e: seq<Edge>, f: seq<Edge>, minSize: int, digest: seq<string> -> string, cs: seq<Circle>,
                   ds: seq<Circle>)
    requires SameLinks(e, f) && AreCircles(e, minSize, digest, cs) && SortedBy(ds, ById) && Distinct(ds)
    requires forall c :: c in ds <==> c in cs
    ensures AreCircles(f, minSize, digest, ds)
  {
    PartDiffers(cs, ds);
    forall c | c in ds ensures exists x :: IsCircle(f, minSize, digest, c, x) {
      var x :| IsCircle(e, minSize, digest, c, x);
      SameCircle(e, f, minSize, digest, c, x);
    }
    forall x | x in Endpoints(f) && |Component(f, x)| >= minSize
      ensures exists c :: c in ds && IsCircle(f, minSize, digest, c, x)
    {
      var c := StillFound(e, f, minSize, digest, cs, x);
      assert c in ds;
    }
  }

  // ---------------------------------------------------------------- the exact condition

  /** No listing of the same edges gives another result. */
  ghost predicate ListingIrrelevant(e: seq<Edge>, minSize: int, digest: seq<string> -> string, cs: seq<Circle>) {
    forall f, ds :: SameEdges(e, f) && Found(f, minSize, digest, ds) ==> ds == cs
  }

  /**
   The returned list is the same for every listing of the edges exactly when no two of its circles share
   an id, whatever the digest is. The circles themselves never depend on the listing.
   */
  lemma ListingIrrelevantExactly(e: seq<Edge>, minSize: int, digest: seq<string> -> string, cs: seq<Circle>)
    requires Found(e, minSize, digest, cs)
    ensures ListingIrrelevant(e, minSize, digest, cs) <==> DifferentIds(cs)
  {
    if DifferentIds(cs) {
      forall f, ds | SameEdges(e, f) && Found(f, minSize, digest, ds) ensures ds == cs {
        SameListFound(e, f, minSize, digest, cs, ds);
      }
    } else {
      var i, j :| 0 <= i < j < |cs| && cs[i].id == cs[j].id;
      var n := CollisionSwaps(e, minSize, digest, cs, i, j);
      var ds := ResultFor(e, Promoted(e, n), minSize, digest, cs);
      NotSwapped(cs, i, j);
    }
  }

  lemma NotSwapped(cs: seq<Circle>, i: nat, j: nat)
    requires MembersDiffer(cs) && i < j < |cs|
    ensures !Swapped(cs, cs[i], cs[j])
  {
    CirclesDistinct(cs);
  }

  // The two edges have no end in common, and neither is a loop.
  predicate Separate(x: Edge, y: Edge) {
    && x.user != x.counterparty && y.user != y.counterparty
    && x.user !in {y.user, y.counterparty} && x.counterparty !in {y.user, y.counterparty}
  }

  lemma NotJoined(x: Edge, y: Edge)
    requires Separate(x, y)
    ensures !Connected([x, y], x.user, y.user)
  {
    var none: seq<Edge> := [];
    var one := none + [x];
    assert [x, y] == one + [y];
    ConnectedOne(one, y, x.user, y.user);
    forall z | z in {y.user, y.counterparty} ensures !Connected(one, x.user, z) {
      ConnectedOne(none, x, x.user, z);
      if Connected(none, x.user, z) { Isolated(none, x.user, z); }
      if Connected(none, x.counterparty, z) { Isolated(none, x.counterparty, z); }
    }
  }

  lemma PairIsLarge(e: seq<Edge>, x: Edge)
    requires x in e && x.user != x.counterparty
    ensures x.user in Endpoints(e) && x.user in Component(e, x.user) && |Component(e, x.user)| >= 2
  {
    var pair := {x.user, x.counterparty};
    assert x == Edge(x.user, x.counterparty);
    assert Linked(e, x.user, x.counterparty);
    LinkedEndpoints(e, x.user, x.counterparty);
    ConnectedLink(e, x.user, x.counterparty);
    ConnectedRefl(e, x.user);
    assert pair <= Component(e, x.user) && |pair| == 2;
    SubsetSize(pair, Component(e, x.user));
  }

  lemma PairIsCircle(e: seq<Edge>, digest: seq<string> -> string, cs: seq<Circle>, x: Edge) returns (c: Circle)
    requires CoversComponents(e, 2, digest, cs) && x in e && x.user != x.counterparty
    ensures c in cs && IsCircle(e, 2, digest, c, x.user) && x.user in c.members
  {
    PairIsLarge(e, x);
    c := CircleAt(e, 2, digest, cs, x.user);
    assert x.user in AsSet(c.members);
  }

  /**
   Two separate edges whose circles share an id, under whatever digest: exchanging the two edges exchanges
   the two circles, so the list returned is another one.
   */
  lemma ListingCanMatter(x: Edge, y: Edge, digest: seq<string> -> string, cs: seq<Circle>, ds: seq<Circle>)
    requires Separate(x, y) && Found([x, y], 2, digest, cs) && Found([y, x], 2, digest, ds)
    requires forall c, d :: c in cs && d in cs ==> c.id == d.id
    ensures cs != ds && exists c, d :: Swapped(cs, d, c) && Swapped(ds, c, d)
  {
    var e, f := [x, y], [y, x];
    NotJoined(x, y);
    assert e[0] in e && e[1] in e && f[0] in f && f[1] in f;
    var c := PairIsCircle(e, digest, cs, x);
    var d := PairIsCircle(e, digest, cs, y);
    assert y.user in AsSet(d.members) && y.user !in Component(e, x.user);
    SameCirclesFound(e, f, 2, digest, cs, ds);
    TouchedFirst(e, cs, d, c, x.user);
    TouchedFirst(f, ds, c, d, y.user);
    OneOrder(ds, c, d);
  }

  lemma OneOrder(cs: seq<Circle>, a: Circle, b: Circle)
    requires MembersDiffer(cs) && Swapped(cs, a, b)
    ensures !Swapped(cs, b, a)
  {
    CirclesDistinct(cs);
  }
}
