/** The allocator's tolerance is really lost: the bound of one tolerance per choice key cannot be improved. */
module Tolerance {
  import opened Ordering
  import opened Items
  import opened Knapsack

  // Every key has two items that weigh the same, the second one better by exactly the tolerance.
  ghost predicate Twins(p: Problem, w: nat, v: real) {
    p.Valid() && v > p.eps && forall g :: 0 <= g < |p.groups| ==> TwinGroup(p, p.groups[g], w, v)
  }

  ghost predicate TwinGroup(p: Problem, group: seq<Item>, w: nat, v: real)
    requires p.Valid()
  {
    && |group| == 2 && Units(group[0].cost, p.scale) == w && Units(group[1].cost, p.scale) == w
    && group[0].value == v && group[1].value == v + p.eps
  }

  // n tries of the same amount.
  function Times(n: nat, w: nat): nat {
    if n == 0 then 0 else Times(n - 1, w) + w
  }

  function Sum(n: nat, v: real): real {
    if n == 0 then 0.0 else Sum(n - 1, v) + v
  }

  lemma {:induction false} SumSplit(n: nat, v: real, eps: real)
    ensures Sum(n, v + eps) == Sum(n, v) + Slack(n, eps)
  {
    if n > 0 {
      SumSplit(n - 1, v, eps);
    }
  }

  /** The table never takes the better twin. */
  lemma {:induction false} TwinTable(p: Problem, w: nat, v: real, g: nat, c: nat)
    requires Twins(p, w, v) && g <= |p.groups| && c >= Times(g, w)
    ensures Best(p, g, c) == Sum(g, v)
  {
    if g > 0 {
      assert TwinGroup(p, p.groups[g - 1], w, v);
      TwinTable(p, w, v, g - 1, c);
      TwinTable(p, w, v, g - 1, c - w);
      TwinCell(p, w, v, g - 1, c);
    }
  }

  lemma TwinCell(p: Problem, w: nat, v: real, g: nat, c: nat)
    requires p.Valid() && v > p.eps && g < |p.groups| && TwinGroup(p, p.groups[g], w, v) && c >= w
    requires Best(p, g, c) == Best(p, g, c - w)
    ensures Try(p, g, 2, c).value == Best(p, g, c) + v
  {
    assert Try(p, g, 0, c) == Cell(Best(p, g, c), -1);
    assert Try(p, g, 1, c) == Cell(Best(p, g, c - w) + v, 0);
  }

  /** Taking the better twin of every key fits the same capacity. */
  lemma {:induction false} BetterTwins(p: Problem, items: seq<Item>, keys: seq<string>, w: nat, v: real, g: nat)
    returns (ids: seq<string>)
    requires Twins(p, w, v) && DistinctIds(items) && Groups(items, keys, p.groups) && g <= |keys|
    ensures Delivers(items, keys[..g], p.scale, Times(g, w), Sum(g, v + p.eps), ids)
  {
    if g == 0 {
      ids := [];
      DeliverNothing(items, keys[..g], p.scale, 0);
    } else {
      var before := BetterTwins(p, items, keys, w, v, g - 1);
      var n := BetterTwin(p, items, keys, w, v, g - 1);
      LastKey(keys, g);
      ids := OneMore(items, keys[..g - 1], keys[g - 1], n, p.scale, Times(g - 1, w), Sum(g - 1, v + p.eps), before);
    }
  }

  lemma BetterTwin(p: Problem, items: seq<Item>, keys: seq<string>, w: nat, v: real, g: nat) returns (n: nat)
    requires Twins(p, w, v) && Groups(items, keys, p.groups) && g < |keys|
    ensures n < |items| && items[n].key == keys[g]
    ensures Units(items[n].cost, p.scale) == w && items[n].value == v + p.eps
  {
    assert TwinGroup(p, p.groups[g], w, v);
    n := GroupMember(items, keys, p.groups, g, 1);
  }

  lemma OneMore(items: seq<Item>, keys: seq<string>, key: string, n: nat, scale: int, c: nat, value: real,
                before: seq<string>) returns (ids: seq<string>)
    requires scale >= 1 && DistinctIds(items) && n < |items| && key !in keys && items[n].key == key
    requires Delivers(items, keys, scale, c, value, before)
    ensures Delivers(items, keys + [key], scale, c + Units(items[n].cost, scale), value + items[n].value, ids)
  {
    ids := [items[n].id] + before;
    DeliverStep(items, keys, key, keys + [key], n, scale, c, value, before,
                c + Units(items[n].cost, scale), value + items[n].value, ids);
  }

  /**
   The bound is attained for every number of keys: the ids read off the table are worth exactly one tolerance per
   key less than another selection that fits the same capacity.
   */
  lemma BoundAttained(p: Problem, items: seq<Item>, keys: seq<string>, w: nat, v: real, c: nat)
    returns (ids: seq<string>)
    requires Twins(p, w, v) && DistinctIds(items) && Groups(items, keys, p.groups) && c >= Times(|keys|, w)
    ensures Selection(items, AsSet(ids), keys) && Weight(items, AsSet(ids), p.scale) <= c
    ensures Value(items, AsSet(Trace(p, |keys|, c))) == Value(items, AsSet(ids)) - Slack(|keys|, p.eps)
  {
    ids := BetterTotals(p, items, keys, w, v);
    TableAndSum(p, w, v, c);
    TracedValue(p, items, keys, c);
  }

  lemma TracedValue(p: Problem, items: seq<Item>, keys: seq<string>, c: nat)
    requires p.Valid() && DistinctIds(items) && Groups(items, keys, p.groups)
    ensures Value(items, AsSet(Trace(p, |keys|, c))) == Best(p, |keys|, c)
  {
    TraceDelivers(p, items, keys, |keys|, c);
    assert keys[..|keys|] == keys;
  }

  lemma BetterTotals(p: Problem, items: seq<Item>, keys: seq<string>, w: nat, v: real) returns (ids: seq<string>)
    requires Twins(p, w, v) && DistinctIds(items) && Groups(items, keys, p.groups)
    ensures Selection(items, AsSet(ids), keys) && Weight(items, AsSet(ids), p.scale) <= Times(|keys|, w)
    ensures Value(items, AsSet(ids)) == Sum(|keys|, v + p.eps)
  {
    ids := BetterTwins(p, items, keys, w, v, |keys|);
    assert keys[..|keys|] == keys;
    DeliversMeans(items, keys, p.scale, Times(|keys|, w), Sum(|keys|, v + p.eps), ids);
  }

  lemma TableAndSum(p: Problem, w: nat, v: real, c: nat)
    requires Twins(p, w, v) && c >= Times(|p.groups|, w)
    ensures Sum(|p.groups|, v + p.eps) == Best(p, |p.groups|, c) + Slack(|p.groups|, p.eps)
  {
    TwinTable(p, w, v, |p.groups|, c);
    SumSplit(|p.groups|, v, p.eps);
  }

  lemma DeliversMeans(items: seq<Item>, keys: seq<string>, scale: int, c: nat, value: real, ids: seq<string>)
    requires scale >= 1 && Delivers(items, keys, scale, c, value, ids)
    ensures Selection(items, AsSet(ids), keys) && Weight(items, AsSet(ids), scale) <= c
    ensures Value(items, AsSet(ids)) == value
  {
  }

  /** Such an input with one key: two offers of one rupiah to one user, worth one and a tolerance more than one. */
  lemma TwinsExist() returns (p: Problem, items: seq<Item>, keys: seq<string>)
    ensures Twins(p, 1, 1.0) && DistinctIds(items) && Groups(items, keys, p.groups) && keys == ["u"]
    ensures p.scale == 1 && p.eps == TOLERANCE && p.groups == [items]
  {
    items := [Item("a", "u", 1, 1.0, ["a"]), Item("b", "u", 1, 1.0 + TOLERANCE, ["b"])];
    keys := ["u"];
    p := Problem([items], 1, TOLERANCE);
    assert TwinGroup(p, items, 1, 1.0);
    forall x | x in items ensures exists g :: Holds(x, keys, p.groups, g) {
      assert Holds(x, keys, p.groups, 0);
    }
  }
}
