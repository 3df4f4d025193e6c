/** Undirected edges between names, and what it means for an edge path to join two of them. */
module Connectivity {

  datatype Edge = Edge(user: string, counterparty: string)

  ghost predicate Linked(edges: seq<Edge>, a: string, b: string) {
    Edge(a, b) in edges || Edge(b, a) in edges
  }

  // Consecutive names of the walk are joined by an edge, in either direction.
  ghost predicate Walk(edges: seq<Edge>, names: seq<string>) {
    forall i :: 0 < i < |names| ==> Linked(edges, names[i - 1], names[i])
  }

  ghost predicate Joins(edges: seq<Edge>, names: seq<string>, a: string, b: string) {
    names != [] && names[0] == a && names[|names| - 1] == b && Walk(edges, names)
  }

  ghost predicate Connected(edges: seq<Edge>, a: string, b: string) {
    exists names :: Joins(edges, names, a, b)
  }

  function Endpoints(edges: seq<Edge>): set<string> {
    if edges == [] then {} else
    var last := edges[|edges| - 1];
    Endpoints(edges[..|edges| - 1]) + {last.user, last.counterparty}
  }

  ghost function Component(edges: seq<Edge>, a: string): set<string> {
    set b | b in Endpoints(edges) && Connected(edges, a, b)
  }

  lemma ConnectedRefl(edges: seq<Edge>, a: string)
    ensures Connected(edges, a, a)
  {
    assert Joins(edges, [a], a, a);
  }

  lemma ConnectedLink(edges: seq<Edge>, a: string, b: string)
    requires Linked(edges, a, b)
    ensures Connected(edges, a, b)
  {
    assert Joins(edges, [a, b], a, b);
  }

  lemma ConnectedTrans(edges: seq<Edge>, a: string, b: string, c: string)
    requires Connected(edges, a, b) && Connected(edges, b, c)
    ensures Connected(edges, a, c)
  {
    var p :| Joins(edges, p, a, b);
    var q :| Joins(edges, q, b, c);
    var r := p + q[1..];
    forall i | 0 < i < |r| ensures Linked(edges, r[i - 1], r[i]) {
      if i >= |p| {
        assert r[i] == q[i - |p| + 1] && r[i - 1] == q[i - |p|];
      }
    }
    assert Joins(edges, r, a, c);
  }

  lemma ConnectedSym(edges: seq<Edge>, a: string, b: string)
    requires Connected(edges, a, b)
    ensures Connected(edges, b, a)
  {
    var p :| Joins(edges, p, a, b);
    var r := seq(|p|, i requires 0 <= i < |p| => p[|p| - 1 - i]);
    forall i | 0 < i < |r| ensures Linked(edges, r[i - 1], r[i]) {
      assert Linked(edges, p[|p| - 1 - i], p[|p| - i]);
    }
    assert Joins(edges, r, b, a);
  }

  lemma ConnectedMono(edges: seq<Edge>, more: seq<Edge>, a: string, b: string)
    requires forall x, y :: Linked(edges, x, y) ==> Linked(more, x, y)
    requires Connected(edges, a, b)
    ensures Connected(more, a, b)
  {
    var p :| Joins(edges, p, a, b);
    assert Joins(more, p, a, b);
  }

  lemma {:induction false} LinkedEndpoints(edges: seq<Edge>, a: string, b: string)
    requires Linked(edges, a, b)
    ensures a in Endpoints(edges) && b in Endpoints(edges)
  {
    var before, last := edges[..|edges| - 1], edges[|edges| - 1];
    assert edges == before + [last];
    if last != Edge(a, b) && last != Edge(b, a) {
      LinkedEndpoints(before, a, b);
    }
  }

  lemma {:induction false} EndpointsLinked(edges: seq<Edge>, a: string)
    requires a in Endpoints(edges)
    ensures exists b :: Linked(edges, a, b)
  {
    var before, last := edges[..|edges| - 1], edges[|edges| - 1];
    assert edges == before + [last];
    if a in Endpoints(before) {
      EndpointsLinked(before, a);
      var b :| Linked(before, a, b);
      assert Linked(edges, a, b);
    } else if a == last.user {
      assert Linked(edges, a, last.counterparty);
    } else {
      assert Linked(edges, a, last.user);
    }
  }

  /** A name without edges is connected to itself only. */
  lemma Isolated(edges: seq<Edge>, a: string, b: string)
    requires a !in Endpoints(edges) && Connected(edges, a, b)
    ensures a == b
  {
    var p :| Joins(edges, p, a, b);
    if |p| > 1 {
      LinkedEndpoints(edges, p[0], p[1]);
    }
  }

  // ---------------------------------------------------------------- the same links, listed differently

  ghost predicate SameLinks(e: seq<Edge>, f: seq<Edge>) {
    forall a, b :: Linked(e, a, b) <==> Linked(f, a, b)
  }

  lemma SameConnected(e: seq<Edge>, f: seq<Edge>, a: string, b: string)
    requires SameLinks(e, f)
    ensures Connected(e, a, b) <==> Connected(f, a, b)
  {
    if Connected(e, a, b) { ConnectedMono(e, f, a, b); }
    if Connected(f, a, b) { ConnectedMono(f, e, a, b); }
  }

  lemma SameEndpoints(e: seq<Edge>, f: seq<Edge>)
    requires SameLinks(e, f)
    ensures Endpoints(e) == Endpoints(f)
  {
    forall a ensures a in Endpoints(e) <==> a in Endpoints(f) {
      if a in Endpoints(e) {
        EndpointsLinked(e, a);
        var b :| Linked(e, a, b);
        LinkedEndpoints(f, a, b);
      }
      if a in Endpoints(f) {
        EndpointsLinked(f, a);
        var b :| Linked(f, a, b);
        LinkedEndpoints(e, a, b);
      }
    }
  }

  lemma SameComponent(e: seq<Edge>, f: seq<Edge>, a: string)
    requires SameLinks(e, f)
    ensures Component(e, a) == Component(f, a)
  {
    SameEndpoints(e, f);
    forall b ensures Connected(e, a, b) <==> Connected(f, a, b) {
      SameConnected(e, f, a, b);
    }
  }

  function Flip(e: Edge): Edge {
    Edge(e.counterparty, e.user)
  }

  /** Permuting, repeating or flipping edges leaves the links alone. */
  lemma RelistedEdges(e: seq<Edge>, f: seq<Edge>)
    requires forall x :: x in e ==> x in f || Flip(x) in f
    requires forall x :: x in f ==> x in e || Flip(x) in e
    ensures SameLinks(e, f)
  {
    forall a, b ensures Linked(e, a, b) <==> Linked(f, a, b) {
      assert Flip(Edge(a, b)) == Edge(b, a) && Flip(Edge(b, a)) == Edge(a, b);
    }
  }

  // ---------------------------------------------------------------- one more edge

  // Joined by the old edges, or by going once across the new edge.
  ghost predicate Across(edges: seq<Edge>, e: Edge, x: string, y: string) {
    || Connected(edges, x, y)
    || (Connected(edges, x, e.user) && Connected(edges, e.counterparty, y))
    || (Connected(edges, x, e.counterparty) && Connected(edges, e.user, y))
  }

  lemma AcrossStep(edges: seq<Edge>, e: Edge, x: string, u: string, y: string)
    requires Across(edges, e, x, u) && Linked(edges + [e], u, y)
    ensures Across(edges, e, x, y)
  {
    if Linked(edges, u, y) {
      ConnectedLink(edges, u, y);
      if Connected(edges, x, u) {
        ConnectedTrans(edges, x, u, y);
      } else if Connected(edges, e.counterparty, u) && Connected(edges, x, e.user) {
        ConnectedTrans(edges, e.counterparty, u, y);
      } else {
        ConnectedTrans(edges, e.user, u, y);
      }
    } else {
      assert e == Edge(u, y) || e == Edge(y, u);
      ConnectedRefl(edges, y);
    }
  }

  lemma {:induction false} WalkAcross(edges: seq<Edge>, e: Edge, names: seq<string>, x: string, y: string)
    requires Joins(edges + [e], names, x, y)
    ensures Across(edges, e, x, y)
  {
    if |names| == 1 {
      ConnectedRefl(edges, x);
    } else {
      var n := |names| - 1;
      assert Joins(edges + [e], names[..n], x, names[n - 1]);
      WalkAcross(edges, e, names[..n], x, names[n - 1]);
      AcrossStep(edges, e, x, names[n - 1], y);
    }
  }

  /** A new edge joins exactly the two components of its ends. */
  lemma ConnectedOne(edges: seq<Edge>, e: Edge, x: string, y: string)
    ensures Connected(edges + [e], x, y) <==> Across(edges, e, x, y)
  {
    var more := edges + [e];
    if Connected(more, x, y) {
      var names :| Joins(more, names, x, y);
      WalkAcross(edges, e, names, x, y);
    }
    if Across(edges, e, x, y) {
      AcrossConnected(edges, e, x, y);
    }
  }

  lemma AcrossConnected(edges: seq<Edge>, e: Edge, x: string, y: string)
    requires Across(edges, e, x, y)
    ensures Connected(edges + [e], x, y)
  {
    var more := edges + [e];
    assert forall a, b :: Linked(edges, a, b) ==> Linked(more, a, b);
    if Connected(edges, x, y) {
      ConnectedMono(edges, more, x, y);
    } else {
      var a := if Connected(edges, x, e.user) && Connected(edges, e.counterparty, y) then e.user else e.counterparty;
      var b := if Connected(edges, x, e.user) && Connected(edges, e.counterparty, y) then e.counterparty else e.user;
      ConnectedMono(edges, more, x, a);
      ConnectedMono(edges, more, b, y);
      ConnectedLink(more, a, b);
      ConnectedTrans(more, x, a, b);
      ConnectedTrans(more, x, b, y);
    }
  }
}
