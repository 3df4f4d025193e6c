/** When names first turn up in a list of edges. */
module Arrival {
  import opened Connectivity

  predicate Touches(e: Edge, x: string) {
    e.user == x || e.counterparty == x
  }

  /** The index of the first edge with the given end, or the number of edges. */
  function FirstEdge(edges: seq<Edge>, x: string): (n: nat)
    ensures n <= |edges| && (n < |edges| ==> Touches(edges[n], x))
    ensures forall i :: 0 <= i < n ==> !Touches(edges[i], x)
  {
    if edges == [] || Touches(edges[0], x) then 0 else 1 + FirstEdge(edges[1..], x)
  }

  lemma {:induction false} EndpointTouched(edges: seq<Edge>, x: string)
    ensures x in Endpoints(edges) <==> exists i :: 0 <= i < |edges| && Touches(edges[i], x)
  {
    if edges != [] {
      var n := |edges| - 1;
      EndpointTouched(edges[..n], x);
      assert edges == edges[..n] + [edges[n]];
    }
  }

  lemma ArrivedBefore(edges: seq<Edge>, n: nat, x: string)
    requires n <= |edges|
    ensures x in Endpoints(edges[..n]) <==> FirstEdge(edges, x) < n
  {
    EndpointTouched(edges[..n], x);
    var k := FirstEdge(edges, x);
    if k < n {
      assert edges[..n][k] == edges[k];
    }
  }

  /** The index of the first edge with an end among the given names. */
  function Seen(edges: seq<Edge>, names: seq<string>): nat {
    if names == [] then |edges| else
    var rest := Seen(edges, names[1..]);
    if FirstEdge(edges, names[0]) < rest then FirstEdge(edges, names[0]) else rest
  }

  lemma {:induction false} SeenIsLeast(edges: seq<Edge>, names: seq<string>, x: string)
    requires x in names
    ensures Seen(edges, names) <= FirstEdge(edges, x)
  {
    if x != names[0] {
      SeenIsLeast(edges, names[1..], x);
    }
  }

  lemma {:induction false} SeenIsSome(edges: seq<Edge>, names: seq<string>) returns (x: string)
    requires names != []
    ensures x in names && Seen(edges, names) == FirstEdge(edges, x)
  {
    if |names| == 1 {
      x := names[0];
    } else {
      var y := SeenIsSome(edges, names[1..]);
      x := if FirstEdge(edges, names[0]) < Seen(edges, names[1..]) then names[0] else y;
    }
  }

  // Names in the order of the edges that brought them.
  ghost predicate InOrder(edges: seq<Edge>, names: seq<string>) {
    forall i, j :: 0 <= i < j < |names| ==> FirstEdge(edges, names[i]) <= FirstEdge(edges, names[j])
  }

  // The list with a name added unless it is there already.
  function Arrive(names: seq<string>, nodes: set<string>, x: string): seq<string> {
    if x in nodes then names else names + [x]
  }

  ghost predicate AllBefore(edges: seq<Edge>, names: seq<string>, n: nat) {
    forall i :: 0 <= i < |names| ==> FirstEdge(edges, names[i]) < n
  }

  lemma NameArrives(edges: seq<Edge>, n: nat, names: seq<string>, nodes: set<string>, x: string)
    requires n < |edges| && InOrder(edges, names) && AllBefore(edges, names, n + 1)
    requires x !in nodes ==> FirstEdge(edges, x) == n
    ensures InOrder(edges, Arrive(names, nodes, x)) && AllBefore(edges, Arrive(names, nodes, x), n + 1)
  {
  }

  /** An edge brings its ends after all names that earlier edges brought. */
  lemma EdgeArrives(edges: seq<Edge>, n: nat, names: seq<string>)
    requires n < |edges| && InOrder(edges, names) && AllBefore(edges, names, n)
    ensures var nodes, e := Endpoints(edges[..n]), edges[n];
      var after := Arrive(Arrive(names, nodes, e.user), nodes + {e.user}, e.counterparty);
      InOrder(edges, after) && AllBefore(edges, after, n + 1)
  {
    var nodes, e := Endpoints(edges[..n]), edges[n];
    ArrivedBefore(edges, n, e.user);
    ArrivedBefore(edges, n, e.counterparty);
    assert Touches(edges[n], e.user) && Touches(edges[n], e.counterparty);
    NameArrives(edges, n, names, nodes, e.user);
    NameArrives(edges, n, Arrive(names, nodes, e.user), nodes + {e.user}, e.counterparty);
  }
}
