/**
 The exact allocator: a multiple-choice 0-1 knapsack solved by dynamic programming over
 ceiling-scaled costs, with an improvement tolerance and a walk back through the choice tables.
 */
module Knapsack {
  import opened Ordering
  import opened Items

  // One improvement below this margin is ignored. The results below hold for every margin.
  const TOLERANCE: real := 0.000000001

  datatype Outcome = Chosen(ids: seq<string>) | TooLarge(rows: nat, cells: int)

  // The table being filled: one group of items per choice key, in key order.
  datatype Problem = Problem(groups: seq<seq<Item>>, scale: int, eps: real) {
    ghost predicate Valid() {
      scale >= 1 && eps >= 0.0
    }

    ghost function At(g: nat): seq<Item>
      requires g < |groups|
    {
      groups[g]
    }
  }

  datatype Cell = Cell(value: real, choice: int)

  // ---------------------------------------------------------------- specification of the table

  /** The best value of the first g keys within capacity c. */
  ghost function Best(p: Problem, g: nat, c: nat): real
    requires p.Valid() && g <= |p.groups|
    decreases g, 0
  {
    if g == 0 then 0.0 else Try(p, g - 1, |p.At(g - 1)|, c).value
  }

  /** The cell of key g at capacity c after its first n items were tried. */
  ghost function Try(p: Problem, g: nat, n: nat, c: nat): Cell
    requires p.Valid() && g < |p.groups| && n <= |p.At(g)|
    decreases g, n + 1
  {
    if n == 0 then Cell(Best(p, g, c), -1) else
    var before := Try(p, g, n - 1, c);
    var item := p.At(g)[n - 1];
    var w := Units(item.cost, p.scale);
    if w <= c && Best(p, g, c - w) + item.value > before.value + p.eps
    then Cell(Best(p, g, c - w) + item.value, n - 1)
    else before
  }

  /** The item ids that the choices of the first g keys stand for, starting from capacity c. */
  ghost function Trace(p: Problem, g: nat, c: nat): seq<string>
    requires p.Valid() && g <= |p.groups|
  {
    if g == 0 then [] else
    var idx := Try(p, g - 1, |p.At(g - 1)|, c).choice;
    ChoiceMeaning(p, g - 1, |p.At(g - 1)|, c);
    if idx >= 0
    then [p.At(g - 1)[idx].id] + Trace(p, g - 1, c - Units(p.At(g - 1)[idx].cost, p.scale))
    else Trace(p, g - 1, c)
  }

  /** A cell's choice explains its value exactly. */
  lemma {:induction false} ChoiceMeaning(p: Problem, g: nat, n: nat, c: nat)
    requires p.Valid() && g < |p.groups| && n <= |p.At(g)|
    ensures var cell := Try(p, g, n, c);
      && -1 <= cell.choice < n
      && (cell.choice == -1 ==> cell.value == Best(p, g, c))
      && (cell.choice >= 0 ==>
            var item := p.At(g)[cell.choice];
            && Units(item.cost, p.scale) <= c
            && cell.value == Best(p, g, c - Units(item.cost, p.scale)) + item.value)
  {
    if n > 0 {
      ChoiceMeaning(p, g, n - 1, c);
    }
  }

  lemma {:induction false} CellKeeps(p: Problem, g: nat, n: nat, c: nat)
    requires p.Valid() && g < |p.groups| && n <= |p.At(g)|
    ensures Try(p, g, n, c).value >= Best(p, g, c)
  {
    if n > 0 {
      CellKeeps(p, g, n - 1, c);
    }
  }

  /** No item of the key beats the finished cell by more than the tolerance. */
  lemma {:induction false} CellDominates(p: Problem, g: nat, n: nat, j: nat, c: nat)
    requires p.Valid() && g < |p.groups| && j < n <= |p.At(g)|
    requires Units(p.At(g)[j].cost, p.scale) <= c
    ensures Try(p, g, n, c).value >= Best(p, g, c - Units(p.At(g)[j].cost, p.scale)) + p.At(g)[j].value - p.eps
  {
    if j < n - 1 {
      CellDominates(p, g, n - 1, j, c);
    }
  }

  // ---------------------------------------------------------------- the table against the items

  /** The groups list the given items, one group per key, in the order of `keys`. */
  ghost predicate Groups(items: seq<Item>, keys: seq<string>, groups: seq<seq<Item>>) {
    && |keys| == |groups|
    && Distinct(keys)
    && (forall g, j :: 0 <= g < |groups| && 0 <= j < |groups[g]| ==>
          groups[g][j] in items && groups[g][j].key == keys[g])
    && (forall x :: x in items ==> exists g :: Holds(x, keys, groups, g))
  }

  ghost predicate Holds(item: Item, keys: seq<string>, groups: seq<seq<Item>>, g: int) {
    0 <= g < |keys| && g < |groups| && keys[g] == item.key && item in groups[g]
  }

  // The selected items all belong to the first g keys.
  ghost predicate InKeys(items: seq<Item>, sel: set<string>, keys: seq<string>) {
    forall i :: 0 <= i < |items| && items[i].id in sel ==> items[i].key in keys
  }

  /** A selection from the first g keys: existing ids, at most one per key. */
  ghost predicate Selection(items: seq<Item>, sel: set<string>, keys: seq<string>) {
    sel <= IdSet(items) && OnePerKey(items, sel) && InKeys(items, sel, keys)
  }

  lemma SelectionAdd(items: seq<Item>, sel: set<string>, keys: seq<string>, n: nat)
    requires DistinctIds(items) && Selection(items, sel, keys)
    requires n < |items| && items[n].key !in keys
    ensures items[n].id !in sel
    ensures Selection(items, sel + {items[n].id}, keys + [items[n].key])
  {
    forall i | 0 <= i < |items| && items[i].id in sel ensures items[i].key != items[n].key {
    }
    forall i | 0 <= i < |items| && items[i].id == items[n].id ensures i == n {
    }
    assert items[n].id in IdSet(items);
  }

  lemma SelectionDrop(items: seq<Item>, sel: set<string>, keys: seq<string>, n: nat)
    requires n < |items| && items[n].id in sel
    requires OnePerKey(items, sel) && InKeys(items, sel, keys + [items[n].key])
    requires DistinctIds(items)
    ensures OnePerKey(items, sel - {items[n].id}) && InKeys(items, sel - {items[n].id}, keys)
  {
    forall i | 0 <= i < |items| && items[i].id in sel - {items[n].id} ensures items[i].key in keys {
      assert items[i].key in keys + [items[n].key];
      assert items[i].key != items[n].key;
    }
  }

  lemma GroupMember(items: seq<Item>, keys: seq<string>, groups: seq<seq<Item>>, g: nat, j: nat) returns (n: nat)
    requires Groups(items, keys, groups) && g < |groups| && j < |groups[g]|
    ensures n < |items| && items[n] == groups[g][j] && items[n].key == keys[g]
  {
    assert groups[g][j] in items;
    n :| 0 <= n < |items| && items[n] == groups[g][j];
  }

  lemma MemberGroup(items: seq<Item>, keys: seq<string>, groups: seq<seq<Item>>, g: nat, n: nat) returns (j: nat)
    requires Groups(items, keys, groups) && g < |groups| && n < |items| && items[n].key == keys[g]
    ensures j < |groups[g]| && groups[g][j] == items[n]
  {
    assert items[n] in items;
    var h :| Holds(items[n], keys, groups, h);
    assert h == g;
    j :| 0 <= j < |groups[g]| && groups[g][j] == items[n];
  }

  /** The ids are a selection from the given keys with the given value, within the given weight. */
  ghost predicate Delivers(items: seq<Item>, keys: seq<string>, scale: int, c: int, value: real, ids: seq<string>)
    requires scale >= 1
  {
    && Distinct(ids)
    && Selection(items, AsSet(ids), keys)
    && Weight(items, AsSet(ids), scale) <= c
    && Value(items, AsSet(ids)) == value
  }

  /** The walk back yields a real selection whose value is the cell and whose weight fits. */
  lemma {:induction false} TraceDelivers(p: Problem, items: seq<Item>, keys: seq<string>, g: nat, c: nat)
    requires p.Valid() && DistinctIds(items) && Groups(items, keys, p.groups) && g <= |keys|
    ensures Delivers(items, keys[..g], p.scale, c, Best(p, g, c), Trace(p, g, c))
  {
    if g == 0 {
      DeliverNothing(items, keys[..g], p.scale, c);
    } else {
      var n, before := TraceUnfolds(p, items, keys, g, c);
      TraceDelivers(p, items, keys, g - 1, before);
      DeliverMore(p, items, keys, g, c, n, before);
    }
  }

  lemma DeliverMore(p: Problem, items: seq<Item>, keys: seq<string>, g: nat, c: nat, n: int, before: nat)
    requires p.Valid() && DistinctIds(items) && Distinct(keys) && |p.groups| == |keys| && 0 < g <= |keys|
    requires Unfolds(p, items, keys, g, c, n, before)
    requires Delivers(items, keys[..g - 1], p.scale, before, Best(p, g - 1, before), Trace(p, g - 1, before))
    ensures Delivers(items, keys[..g], p.scale, c, Best(p, g, c), Trace(p, g, c))
  {
    LastKey(keys, g);
    DeliverStep(items, keys[..g - 1], keys[g - 1], keys[..g], n, p.scale,
                before, Best(p, g - 1, before), Trace(p, g - 1, before), c, Best(p, g, c), Trace(p, g, c));
  }

  lemma LastKey(keys: seq<string>, g: nat)
    requires Distinct(keys) && 0 < g <= |keys|
    ensures keys[..g] == keys[..g - 1] + [keys[g - 1]] && keys[g - 1] !in keys[..g - 1]
  {
  }

  lemma DeliverNothing(items: seq<Item>, keys: seq<string>, scale: int, c: nat)
    requires scale >= 1
    ensures Delivers(items, keys, scale, c, 0.0, [])
  {
    var none: seq<string> := [];
    SumsNone(items, AsSet(none), scale);
  }

  lemma DeliverStep(items: seq<Item>, keys: seq<string>, key: string, allKeys: seq<string>, n: int, scale: int, c: int,
                    value: real, ids: seq<string>, c': int, value': real, ids': seq<string>)
    requires scale >= 1 && DistinctIds(items) && -1 <= n < |items| && key !in keys
    requires Delivers(items, keys, scale, c, value, ids) && allKeys == keys + [key]
    requires n == -1 ==> c' == c && value' == value && ids' == ids
    requires n >= 0 ==> (items[n].key == key && ids' == [items[n].id] + ids
                         && c' == c + Units(items[n].cost, scale) && value' == value + items[n].value)
    ensures Delivers(items, allKeys, scale, c', value', ids')
  {
    if n >= 0 {
      SelectionAdd(items, AsSet(ids), keys, n);
      assert items[n].id !in ids;
      SumsAdd(items, AsSet(ids), n, scale);
      assert AsSet(ids') == AsSet(ids) + {items[n].id};
    }
  }

  // The walk back takes item n of the last key, or none, and goes on with the capacity before it.
  ghost predicate Unfolds(p: Problem, items: seq<Item>, keys: seq<string>, g: nat, c: nat, n: int, before: nat)
    requires p.Valid() && |p.groups| == |keys| && 0 < g <= |keys|
  {
    && -1 <= n < |items|
    && (n == -1 ==> before == c && Trace(p, g, c) == Trace(p, g - 1, c) && Best(p, g, c) == Best(p, g - 1, c))
    && (n >= 0 ==>
          && items[n].key == keys[g - 1] && c == before + Units(items[n].cost, p.scale)
          && Trace(p, g, c) == [items[n].id] + Trace(p, g - 1, before)
          && Best(p, g, c) == Best(p, g - 1, before) + items[n].value)
  }

  lemma TraceUnfolds(p: Problem, items: seq<Item>, keys: seq<string>, g: nat, c: nat) returns (n: int, before: nat)
    requires p.Valid() && Groups(items, keys, p.groups) && 0 < g <= |keys|
    ensures Unfolds(p, items, keys, g, c, n, before)
  {
    var idx := Try(p, g - 1, |p.At(g - 1)|, c).choice;
    ChoiceMeaning(p, g - 1, |p.At(g - 1)|, c);
    if idx < 0 {
      n, before := -1, c;
    } else {
      n := GroupMember(items, keys, p.groups, g - 1, idx);
      before := c - Units(items[n].cost, p.scale);
    }
  }

  /** One tolerance per key. */
  ghost function Slack(keys: nat, eps: real): real {
    if keys == 0 then 0.0 else Slack(keys - 1, eps) + eps
  }

  lemma {:induction false} SlackIsProduct(keys: nat, eps: real)
    ensures Slack(keys, eps) == (keys as real) * eps
  {
    if keys > 0 {
      SlackIsProduct(keys - 1, eps);
      assert ((keys - 1) as real) * eps + eps == (keys as real) * eps;
    }
  }

  lemma WithItem(items: seq<Item>, keys: seq<string>, sel: set<string>, n: nat, scale: int)
    returns (without: set<string>)
    requires scale >= 1 && DistinctIds(items) && n < |items| && items[n].id in sel
    requires OnePerKey(items, sel) && InKeys(items, sel, keys + [items[n].key])
    ensures OnePerKey(items, without) && InKeys(items, without, keys)
    ensures Weight(items, sel, scale) == Weight(items, without, scale) + Units(items[n].cost, scale)
    ensures Value(items, sel) == Value(items, without) + items[n].value
  {
    without := sel - {items[n].id};
    assert sel == without + {items[n].id};
    SumsAdd(items, without, n, scale);
    SelectionDrop(items, sel, keys, n);
  }

  /** The finished row is within one tolerance of taking any given item of its key. */
  lemma RowDominates(p: Problem, items: seq<Item>, keys: seq<string>, g: nat, c: nat, n: nat)
    requires p.Valid() && Groups(items, keys, p.groups) && g < |keys|
    requires n < |items| && items[n].key == keys[g] && Units(items[n].cost, p.scale) <= c
    ensures Best(p, g + 1, c) >= Best(p, g, c - Units(items[n].cost, p.scale)) + items[n].value - p.eps
  {
    var j := MemberGroup(items, keys, p.groups, g, n);
    CellDominates(p, g, |p.At(g)|, j, c);
  }

  /** Every admissible selection is worth at most the cell, up to one tolerance per key. */
  lemma {:induction false} NearOptimal(p: Problem, items: seq<Item>, keys: seq<string>, g: nat, c: nat,
                                       sel: set<string>)
    requires p.Valid() && DistinctIds(items) && Groups(items, keys, p.groups) && g <= |keys|
    requires OnePerKey(items, sel) && InKeys(items, sel, keys[..g])
    requires Weight(items, sel, p.scale) <= c
    ensures Best(p, g, c) >= Value(items, sel) - Slack(g, p.eps)
  {
    if g == 0 {
      SumsNone(items, sel, p.scale);
    } else {
      assert keys[..g] == keys[..g - 1] + [keys[g - 1]];
      if n :| 0 <= n < |items| && items[n].id in sel && items[n].key == keys[g - 1] {
        var without := WithItem(items, keys[..g - 1], sel, n, p.scale);
        NearOptimal(p, items, keys, g - 1, c - Units(items[n].cost, p.scale), without);
        RowDominates(p, items, keys, g - 1, c, n);
      } else {
        assert InKeys(items, sel, keys[..g - 1]);
        NearOptimal(p, items, keys, g - 1, c, sel);
        CellKeeps(p, g - 1, |p.At(g - 1)|, c);
      }
    }
  }

  // ---------------------------------------------------------------- the promise

  /**
   What the solver promises about the ids it returns: usable items, one per key, within the scaled
   capacity and within the real budget, and worth at least every selection that fits the scaled
   capacity, less one tolerance per key.
   */
  ghost predicate ExactChoice(items: seq<Item>, budget: nat, scale: int, eps: real, ids: seq<string>)
    requires scale >= 1
  {
    var usable := Keep(items, GainfulWithin(budget));
    && Distinct(ids) && SortedBy(ids, StrLe)
    && AsSet(ids) <= IdSet(usable)
    && OnePerKey(items, AsSet(ids))
    && Weight(items, AsSet(ids), scale) <= budget / scale
    && Cost(items, AsSet(ids)) <= budget
    && forall other :: OnePerKey(items, other) && Weight(items, other, scale) <= budget / scale ==>
         Value(items, AsSet(ids)) >= Value(items, other) - Slack(|Keys(usable)|, eps)
  }

  /** A selection that fits the scaled capacity only uses affordable items. */
  lemma FitsMeansAffordable(items: seq<Item>, budget: nat, scale: int, sel: set<string>, n: nat)
    requires scale >= 1 && Weight(items, sel, scale) <= budget / scale
    requires n < |items| && items[n].id in sel
    ensures items[n].cost <= budget
  {
    SumsMonotone(items, sel, n, scale);
    UnitsBounds(items[n].cost, scale);
    WithinCapacity(Units(items[n].cost, scale), budget, scale);
  }

  /** The totals over all items, transferred from the totals over the usable ones. */
  lemma ExactFromUsable(items: seq<Item>, budget: nat, scale: int, eps: real, ids: seq<string>)
    requires scale >= 1 && DistinctIds(items)
    requires var usable := Keep(items, GainfulWithin(budget));
      && Distinct(ids) && SortedBy(ids, StrLe)
      && AsSet(ids) <= IdSet(usable) && OnePerKey(usable, AsSet(ids))
      && Weight(usable, AsSet(ids), scale) <= budget / scale
      && forall other :: OnePerKey(usable, other) && Weight(usable, other, scale) <= budget / scale ==>
           Value(usable, AsSet(ids)) >= Value(usable, other) - Slack(|Keys(usable)|, eps)
    ensures ExactChoice(items, budget, scale, eps, ids)
  {
    var keep := GainfulWithin(budget);
    var usable := Keep(items, keep);
    var sel := AsSet(ids);
    forall n | 0 <= n < |items| && items[n].id in sel ensures keep(items[n]) {
      KeptById(items, keep, sel, n);
    }
    KeepSame(items, keep, sel, scale);
    KeptOnePerKey(items, keep, sel);
    assert Cost(items, sel) <= budget by {
      CostWithinWeight(items, sel, scale);
      WithinCapacity(Weight(items, sel, scale), budget, scale);
    }
    forall other | OnePerKey(items, other) && Weight(items, other, scale) <= budget / scale
      ensures Value(items, sel) >= Value(items, other) - Slack(|Keys(usable)|, eps)
    {
      OtherWithinUsable(items, budget, scale, other);
    }
  }

  lemma OtherWithinUsable(items: seq<Item>, budget: nat, scale: int, other: set<string>)
    requires scale >= 1 && OnePerKey(items, other) && Weight(items, other, scale) <= budget / scale
    ensures var usable := Keep(items, GainfulWithin(budget));
      && OnePerKey(usable, other) && Weight(usable, other, scale) <= budget / scale
      && Value(items, other) <= Value(usable, other)
  {
    var keep := GainfulWithin(budget);
    forall n | 0 <= n < |items| && items[n].id in other && !keep(items[n]) ensures items[n].value <= 0.0 {
      FitsMeansAffordable(items, budget, scale, other, n);
    }
    KeepSums(items, keep, other, scale);
    KeepOnePerKey(items, keep, other);
  }

  // ---------------------------------------------------------------- the solver

  /** The items of one choice key, in list order. */
  ghost function Having(items: seq<Item>, key: string): (r: seq<Item>)
    ensures forall x :: x in r <==> x in items && x.key == key
  {
    if items == [] then [] else
    var last := items[|items| - 1];
    var before := Having(items[..|items| - 1], key);
    assert items == items[..|items| - 1] + [last];
    if last.key == key then before + [last] else before
  }

  ghost predicate Filed(items: seq<Item>, groups: map<string, seq<Item>>) {
    && (forall k :: k in groups ==> groups[k] == Having(items, k) && groups[k] != [])
    && (forall x :: x in items ==> x.key in groups)
  }

  lemma HavingOne(items: seq<Item>, item: Item, key: string)
    ensures Having(items + [item], key) == if item.key == key then Having(items, key) + [item] else Having(items, key)
  {
    assert (items + [item])[..|items|] == items;
  }

  lemma FileOne(items: seq<Item>, item: Item, groups: map<string, seq<Item>>)
    requires Filed(items, groups)
    ensures Filed(items + [item], FileUnder(groups, item.key, item))
  {
    var after := FileUnder(groups, item.key, item);
    assert item.key !in groups ==> Having(items, item.key) == [] by {
      assert forall x :: x in Having(items, item.key) ==> x.key in groups;
      assert |Having(items, item.key)| > 0 ==> Having(items, item.key)[0] in Having(items, item.key);
    }
    forall k | k in after ensures after[k] == Having(items + [item], k) && after[k] != [] {
      HavingOne(items, item, k);
    }
  }

  /** Collects the items of each choice key; `order` lists the keys as first seen. */
  method GroupByKey(items: seq<Item>) returns (order: seq<string>, groups: map<string, seq<Item>>)
    ensures Distinct(order) && AsSet(order) == groups.Keys
    ensures Filed(items, groups)
  {
    order, groups := [], map[];
    for n := 0 to |items|
      invariant Distinct(order) && AsSet(order) == groups.Keys
      invariant Filed(items[..n], groups)
    {
      var item := items[n];
      FileOne(items[..n], item, groups);
      assert items[..n + 1] == items[..n] + [item];
      if item.key !in groups {
        DistinctAppend(order, item.key);
        order := order + [item.key];
        groups := groups[item.key := []];
      }
      groups := groups[item.key := groups[item.key] + [item]];
    }
    assert items[..|items|] == items;
  }

  /** Tries every item of one key in every cell, reading the previous row and writing a new one. */
  method FillKey(best: array<real>, group: seq<Item>, scale: int, eps: real, ghost p: Problem, ghost g: nat)
    returns (next: array<real>, choice: array<int>)
    requires p.Valid() && p.scale == scale && p.eps == eps
    requires g < |p.groups| && p.groups[g] == group
    requires forall c :: 0 <= c < best.Length ==> best[c] == Best(p, g, c)
    ensures fresh(next) && fresh(choice) && next.Length == choice.Length == best.Length
    ensures forall c :: 0 <= c < best.Length ==> next[c] == Best(p, g + 1, c)
    ensures forall c :: 0 <= c < best.Length ==> choice[c] == Try(p, g, |group|, c).choice
  {
    next := new real[best.Length](i requires 0 <= i < best.Length reads best => best[i]);
    choice := new int[best.Length](_ => -1);
    for idx := 0 to |group|
      invariant forall c :: 0 <= c < best.Length ==> best[c] == Best(p, g, c)
      invariant forall c :: 0 <= c < best.Length ==> Cell(next[c], choice[c]) == Try(p, g, idx, c)
    {
      var item := group[idx];
      var w := Units(item.cost, scale);
      var c := w;
      while c < best.Length
        invariant w <= c
        invariant forall k :: 0 <= k < best.Length ==> best[k] == Best(p, g, k)
        invariant forall k :: 0 <= k < best.Length ==>
          Cell(next[k], choice[k]) == if k < c then Try(p, g, idx + 1, k) else Try(p, g, idx, k)
      {
        var candidate := best[c - w] + item.value;
        if candidate > next[c] + eps {
          next[c] := candidate;
          choice[c] := idx;
        }
        c := c + 1;
      }
    }
  }

  /** The leftmost cell holding the largest value. */
  method ArgMax(best: array<real>) returns (c: nat)
    requires best.Length > 0
    ensures c < best.Length
    ensures forall k :: 0 <= k < best.Length ==> best[k] <= best[c]
    ensures forall k :: 0 <= k < c ==> best[k] < best[c]
  {
    c := 0;
    for k := 1 to best.Length
      invariant c < k
      invariant forall j :: 0 <= j < k ==> best[j] <= best[c]
      invariant forall j :: 0 <= j < c ==> best[j] < best[c]
    {
      if best[k] > best[c] {
        c := k;
      }
    }
  }

  lemma TraceStep(p: Problem, g: nat, c: nat)
    requires p.Valid() && g < |p.groups|
    ensures var idx := Try(p, g, |p.At(g)|, c).choice;
      && -1 <= idx < |p.At(g)|
      && (idx >= 0 ==> Units(p.At(g)[idx].cost, p.scale) <= c)
      && (idx >= 0 ==> Trace(p, g + 1, c) == [p.At(g)[idx].id] + Trace(p, g, c - Units(p.At(g)[idx].cost, p.scale)))
      && (idx < 0 ==> Trace(p, g + 1, c) == Trace(p, g, c))
  {
    ChoiceMeaning(p, g, |p.At(g)|, c);
  }

  /** Follows the choices from the last key back to the first. */
  method WalkBack(choices: seq<seq<int>>, groups: seq<seq<Item>>, capacity: nat, start: nat, scale: int,
                  ghost p: Problem)
    returns (selected: seq<string>)
    requires p.Valid() && p.scale == scale && p.groups == groups
    requires |choices| == |groups| && start <= capacity
    requires forall g :: 0 <= g < |groups| ==> |choices[g]| == capacity + 1
    requires forall g, c :: 0 <= g < |groups| && 0 <= c <= capacity ==>
      choices[g][c] == Try(p, g, |groups[g]|, c).choice
    ensures selected == Trace(p, |groups|, start)
  {
    selected := [];
    var c := start;
    var g := |groups|;
    while g > 0
      invariant 0 <= g <= |groups| && 0 <= c <= start
      invariant selected + Trace(p, g, c) == Trace(p, |groups|, start)
    {
      g := g - 1;
      var idx := choices[g][c];
      TraceStep(p, g, c);
      if idx >= 0 {
        var item := groups[g][idx];
        selected := selected + [item.id];
        c := c - Units(item.cost, scale);
      }
    }
  }

  /** The choice keys in sorted order, and the items of each. */
  method SortedGroups(usable: seq<Item>) returns (keys: seq<string>, groups: seq<seq<Item>>)
    ensures Groups(usable, keys, groups) && AsSet(keys) == Keys(usable)
    ensures SortedBy(keys, StrLe) && forall g :: 0 <= g < |groups| ==> InIdOrder(groups[g])
  {
    var sorted := SortBy(usable, ByKeyThenId);
    var order, byKey := GroupByKey(sorted);
    keys := SortBy(order, StrLe);
    SortByMembers(order, StrLe);
    SortByDistinct(order, StrLe);
    groups := seq(|keys|, g requires 0 <= g < |keys| => byKey[keys[g]]);
    SortByMembers(usable, ByKeyThenId);
    GroupsListed(usable, sorted, byKey, keys, groups);
    StrOrder();
    SortBySorted(order, StrLe);
    forall g | 0 <= g < |groups| ensures InIdOrder(groups[g]) {
      assert keys[g] in AsSet(keys);
      GroupInOrder(usable, keys[g]);
    }
  }

  ghost predicate InIdOrder(group: seq<Item>) {
    forall i, j :: 0 <= i < j < |group| ==> StrLe(group[i].id, group[j].id)
  }

  lemma KeyIdOrder()
    ensures TotalPreorder(ByKeyThenId)
  {
    forall a, b ensures ByKeyThenId(a, b) || ByKeyThenId(b, a) {
      StrTotal(a.key, b.key);
      StrTotal(a.id, b.id);
    }
    forall a, b, c | ByKeyThenId(a, b) && ByKeyThenId(b, c) ensures ByKeyThenId(a, c) {
      StrIrreflexive(a.key);
      if a.key == b.key && b.key == c.key {
        StrLeTrans(a.id, b.id, c.id);
      } else {
        StrLeTrans(a.key, b.key, c.key);
        if a.key == c.key && StrLt(a.key, b.key) { StrAsym(a.key, b.key); }
      }
    }
  }

  lemma {:induction false} HavingSorted(sorted: seq<Item>, key: string)
    requires SortedBy(sorted, ByKeyThenId)
    ensures SortedBy(Having(sorted, key), ByKeyThenId)
  {
    if sorted != [] {
      var last, front := sorted[|sorted| - 1], sorted[..|sorted| - 1];
      HavingSorted(front, key);
      forall i | 0 <= i < |Having(front, key)| ensures ByKeyThenId(Having(front, key)[i], last) {
        assert Having(front, key)[i] in front;
        var j :| 0 <= j < |front| && front[j] == Having(front, key)[i];
        assert sorted[j] == front[j];
      }
    }
  }

  lemma GroupInOrder(usable: seq<Item>, key: string)
    ensures InIdOrder(Having(SortBy(usable, ByKeyThenId), key))
  {
    var sorted := SortBy(usable, ByKeyThenId);
    var group := Having(sorted, key);
    KeyIdOrder();
    SortBySorted(usable, ByKeyThenId);
    HavingSorted(sorted, key);
    forall i, j | 0 <= i < j < |group| ensures StrLe(group[i].id, group[j].id) {
      assert group[i] in group && group[j] in group;
      StrIrreflexive(key);
    }
  }

  lemma GroupsListed(items: seq<Item>, sorted: seq<Item>, byKey: map<string, seq<Item>>, keys: seq<string>,
                     groups: seq<seq<Item>>)
    requires forall x :: x in sorted <==> x in items
    requires Filed(sorted, byKey) && Distinct(keys) && AsSet(keys) == byKey.Keys
    requires |groups| == |keys| && forall g :: 0 <= g < |keys| ==> groups[g] == byKey[keys[g]]
    ensures Groups(items, keys, groups) && AsSet(keys) == Keys(items)
  {
    forall x | x in items
      ensures x.key in keys && exists g :: Holds(x, keys, groups, g)
    {
      assert x in sorted && x in Having(sorted, x.key);
      assert x.key in AsSet(keys);
      var g :| 0 <= g < |keys| && keys[g] == x.key;
      assert Holds(x, keys, groups, g);
    }
    forall g, j | 0 <= g < |groups| && 0 <= j < |groups[g]|
      ensures groups[g][j] in items && groups[g][j].key == keys[g]
    {
      assert keys[g] in AsSet(keys);
      assert groups[g][j] in Having(sorted, keys[g]);
    }
    forall k | k in keys ensures k in Keys(items) {
      assert k in AsSet(keys);
      var x := byKey[k][0];
      assert x in Having(sorted, k) && x in items;
    }
  }

  method FillTable(groups: seq<seq<Item>>, capacity: nat, scale: int, eps: real, ghost p: Problem)
    returns (best: array<real>, choices: seq<seq<int>>)
    requires p.Valid() && p == Problem(groups, scale, eps)
    ensures best.Length == capacity + 1 && |choices| == |groups|
    ensures forall c :: 0 <= c <= capacity ==> best[c] == Best(p, |groups|, c)
    ensures forall g :: 0 <= g < |groups| ==> |choices[g]| == capacity + 1
    ensures forall g, c :: 0 <= g < |groups| && 0 <= c <= capacity ==> choices[g][c] == Try(p, g, |groups[g]|, c).choice
  {
    best := new real[capacity + 1](_ => 0.0);
    choices := [];
    for g := 0 to |groups|
      invariant best.Length == capacity + 1 && |choices| == g
      invariant forall c :: 0 <= c <= capacity ==> best[c] == Best(p, g, c)
      invariant forall h :: 0 <= h < g ==> |choices[h]| == capacity + 1
      invariant forall h, c :: 0 <= h < g && 0 <= c <= capacity ==> choices[h][c] == Try(p, h, |groups[h]|, c).choice
    {
      var next, choice := FillKey(best, groups[g], scale, eps, p, g);
      best := next;
      choices := choices + [choice[..]];
    }
  }

  method Solve(items: seq<Item>, budget: nat, scale: int, maxCells: int, eps: real) returns (r: Outcome)
    requires DistinctIds(items) && scale >= 1 && eps >= 0.0
    ensures r.TooLarge? <==>
      var usable := Keep(items, GainfulWithin(budget));
      usable != [] && |Keys(usable)| * (budget / scale + 1) > maxCells
    ensures r.Chosen? ==> ExactChoice(items, budget, scale, eps, r.ids)
  {
    var usable := Keep(items, GainfulWithin(budget));
    KeepDistinct(items, GainfulWithin(budget));
    if usable == [] {
      EmptyChoice(items, budget, scale, eps);
      return Chosen([]);
    }
    var capacity := budget / scale;
    var keys, groups := SortedGroups(usable);
    CardinalityOfDistinct(keys);
    var cells := |keys| * (capacity + 1);
    if cells > maxCells {
      return TooLarge(|keys|, cells);
    }
    ghost var p := Problem(groups, scale, eps);
    var best, choices := FillTable(groups, capacity, scale, eps, p);
    var c := ArgMax(best);
    var selected := WalkBack(choices, groups, capacity, c, scale, p);
    Deliver(p, items, usable, keys, budget, c, selected);
    r := Chosen(SortBy(selected, StrLe));
  }

  /** The keys that count for the refusal are those of the items with a positive value that the budget can pay for. */
  lemma UsableKeys(items: seq<Item>, budget: nat)
    ensures Keys(Keep(items, GainfulWithin(budget))) == set x | x in items && x.value > 0.0 && x.cost <= budget :: x.key
    ensures Keep(items, GainfulWithin(budget)) == [] <==> !exists x :: x in items && x.value > 0.0 && x.cost <= budget
  {
    var usable := Keep(items, GainfulWithin(budget));
    forall k ensures k in Keys(usable) <==> exists x :: x in items && x.value > 0.0 && x.cost <= budget && x.key == k {
      if k in Keys(usable) {
        var i :| 0 <= i < |usable| && usable[i].key == k;
        assert usable[i] in usable;
      }
      if x :| x in items && x.value > 0.0 && x.cost <= budget && x.key == k {
        assert x in usable;
      }
    }
    assert usable != [] ==> usable[0] in usable;
  }

  lemma EmptyChoice(items: seq<Item>, budget: nat, scale: int, eps: real)
    requires scale >= 1 && eps >= 0.0 && DistinctIds(items)
    requires Keep(items, GainfulWithin(budget)) == []
    ensures ExactChoice(items, budget, scale, eps, [])
  {
    var none: seq<string> := [];
    SumsNone([], AsSet(none), scale);
    ExactFromUsable(items, budget, scale, eps, none);
  }

  lemma AllInKeys(items: seq<Item>, sel: set<string>, keys: seq<string>)
    requires AsSet(keys) == Keys(items)
    ensures InKeys(items, sel, keys)
  {
    assert forall i :: 0 <= i < |items| ==> items[i].key in AsSet(keys);
  }

  lemma Deliver(p: Problem, items: seq<Item>, usable: seq<Item>, keys: seq<string>, budget: nat, c: nat,
                selected: seq<string>)
    requires p.Valid() && DistinctIds(items) && DistinctIds(usable)
    requires usable == Keep(items, GainfulWithin(budget)) && Groups(usable, keys, p.groups)
    requires AsSet(keys) == Keys(usable)
    requires c <= budget / p.scale && selected == Trace(p, |keys|, c)
    requires Best(p, |keys|, budget / p.scale) <= Best(p, |keys|, c)
    ensures ExactChoice(items, budget, p.scale, p.eps, SortBy(selected, StrLe))
  {
    var ids := SortBy(selected, StrLe);
    TraceDelivers(p, usable, keys, |keys|, c);
    SortByMembers(selected, StrLe);
    assert AsSet(ids) == AsSet(selected);
    SortByDistinct(selected, StrLe);
    StrOrder();
    SortBySorted(selected, StrLe);
    CardinalityOfDistinct(keys);
    assert keys[..|keys|] == keys;
    forall other | OnePerKey(usable, other) && Weight(usable, other, p.scale) <= budget / p.scale
      ensures Value(usable, AsSet(ids)) >= Value(usable, other) - Slack(|Keys(usable)|, p.eps)
    {
      AllInKeys(usable, other, keys);
      NearOptimal(p, usable, keys, |keys|, budget / p.scale, other);
    }
    ExactFromUsable(items, budget, p.scale, p.eps, ids);
  }

  // ---------------------------------------------------------------- what the promise means in rupiah

  lemma UsablePart(items: seq<Item>, budget: nat, scale: int, other: set<string>)
    requires scale >= 1 && OnePerKey(items, other) && Cost(items, other) <= budget
    ensures var usable := Keep(items, GainfulWithin(budget));
      && OnePerKey(usable, other) && Value(items, other) <= Value(usable, other)
      && Cost(usable, other) <= Cost(items, other)
  {
    var keep := GainfulWithin(budget);
    forall n | 0 <= n < |items| && items[n].id in other && !keep(items[n]) ensures items[n].value <= 0.0 {
      SumsMonotone(items, other, n, scale);
    }
    KeepSums(items, keep, other, scale);
    KeepOnePerKey(items, keep, other);
  }

  /** A selection whose usable part fits the scaled capacity is not worth more than the answer. */
  lemma BeatsUsablePart(items: seq<Item>, budget: nat, scale: int, eps: real, ids: seq<string>, other: set<string>)
    requires scale >= 1 && DistinctIds(items) && ExactChoice(items, budget, scale, eps, ids)
    requires OnePerKey(items, other) && Cost(items, other) <= budget
    requires Weight(Keep(items, GainfulWithin(budget)), other, scale) <= budget / scale
    ensures Value(items, AsSet(ids)) >= Value(items, other) - Slack(|Keys(Keep(items, GainfulWithin(budget)))|, eps)
  {
    var keep := GainfulWithin(budget);
    var usable := Keep(items, keep);
    UsablePart(items, budget, scale, other);
    var part := other * IdSet(usable);
    forall i | 0 <= i < |usable| ensures usable[i].id in other <==> usable[i].id in part {
      assert usable[i].id in IdSet(usable);
    }
    SumsRestrict(usable, other, part, scale);
    forall n | 0 <= n < |items| && items[n].id in part ensures keep(items[n]) {
      KeptById(items, keep, part, n);
    }
    KeepSame(items, keep, part, scale);
    assert OnePerKey(items, part);
  }

  lemma ScaledFits(w: int, cost: int, loss: int, budget: nat, scale: int)
    requires scale >= 1 && scale * w <= cost + loss <= budget
    ensures w <= budget / scale
  {
    if w >= budget / scale + 1 {
      MulMono(scale, budget / scale + 1, w);
      MulAdd(scale, budget / scale, 1);
    }
  }

  /**
   Rounding bound: the answer is worth at least every selection that fits the real budget reduced by
   (number of usable keys) * (scale - 1) rupiah, less one tolerance per key.
   */
  lemma RoundingBound(items: seq<Item>, budget: nat, scale: int, eps: real, ids: seq<string>, other: set<string>)
    requires scale >= 1 && DistinctIds(items) && ExactChoice(items, budget, scale, eps, ids)
    requires OnePerKey(items, other)
    requires Cost(items, other) + (scale - 1) * |Keys(Keep(items, GainfulWithin(budget)))| <= budget
    ensures Value(items, AsSet(ids)) >= Value(items, other) - Slack(|Keys(Keep(items, GainfulWithin(budget)))|, eps)
  {
    UsableFits(items, budget, scale, other);
    BeatsUsablePart(items, budget, scale, eps, ids, other);
  }

  lemma UsableFits(items: seq<Item>, budget: nat, scale: int, other: set<string>)
    requires scale >= 1 && OnePerKey(items, other)
    requires Cost(items, other) + (scale - 1) * |Keys(Keep(items, GainfulWithin(budget)))| <= budget
    ensures Cost(items, other) <= budget
    ensures Weight(Keep(items, GainfulWithin(budget)), other, scale) <= budget / scale
  {
    var usable := Keep(items, GainfulWithin(budget));
    var keys := |Keys(usable)|;
    MulMono(scale - 1, 0, keys);
    UsablePart(items, budget, scale, other);
    CountWithinKeys(usable, other);
    WeightWithinCost(usable, other, scale);
    MulMono(scale - 1, Count(usable, other), keys);
    ScaledFits(Weight(usable, other, scale), Cost(usable, other), (scale - 1) * keys, budget, scale);
  }

  /**
   When every cost is a multiple of the scale (in particular when the scale is 1), the answer is the
   optimum of the real budget, less one tolerance per key.
   */
  lemma ExactInRupiah(items: seq<Item>, budget: nat, scale: int, eps: real, ids: seq<string>, other: set<string>)
    requires scale >= 1 && DistinctIds(items) && ExactChoice(items, budget, scale, eps, ids)
    requires forall i :: 0 <= i < |items| ==> items[i].cost % scale == 0
    requires OnePerKey(items, other) && Cost(items, other) <= budget
    ensures Value(items, AsSet(ids)) >= Value(items, other) - Slack(|Keys(Keep(items, GainfulWithin(budget)))|, eps)
  {
    WeightExact(items, other, scale);
    ScaledFits(Weight(items, other, scale), Cost(items, other), 0, budget, scale);
  }

  /** With no tolerance the answer is exactly optimal among the selections that fit. */
  lemma ExactWithoutTolerance(items: seq<Item>, budget: nat, scale: int, ids: seq<string>, other: set<string>)
    requires scale >= 1 && ExactChoice(items, budget, scale, 0.0, ids)
    requires OnePerKey(items, other) && Weight(items, other, scale) <= budget / scale
    ensures Value(items, AsSet(ids)) >= Value(items, other)
  {
    SlackIsProduct(|Keys(Keep(items, GainfulWithin(budget)))|, 0.0);
  }

  /** Rounding can cost everything: an affordable item is refused because its rounded cost is not. */
  lemma RoundingCanLose(ids: seq<string>)
    requires ExactChoice([Item("a", "u", 1001, 1.0, ["a"])], 1001, 1000, TOLERANCE, ids)
    ensures var items := [Item("a", "u", 1001, 1.0, ["a"])];
      && Cost(items, {"a"}) <= 1001 && OnePerKey(items, {"a"})
      && Value(items, {"a"}) == 1.0 && Value(items, AsSet(ids)) == 0.0
  {
    var items := [Item("a", "u", 1001, 1.0, ["a"])];
    assert Units(1001, 1000) == 2;
    assert Weight(items[1..], AsSet(ids), 1000) == 0;
    assert Weight(items, AsSet(ids), 1000) == if "a" in AsSet(ids) then 2 else 0;
  }

  /**
   BUDGET_EXHAUSTED is truthful: an unselected item of an unpicked key that is worth more than the
   tolerances would overflow the scaled capacity on top of the answer.
   */
  lemma ExhaustedMeansFull(items: seq<Item>, budget: nat, scale: int, eps: real, ids: seq<string>, n: nat)
    requires scale >= 1 && DistinctIds(items) && ExactChoice(items, budget, scale, eps, ids)
    requires n < |items| && forall i :: 0 <= i < |items| && items[i].id in AsSet(ids) ==> items[i].key != items[n].key
    requires items[n].value > Slack(|Keys(Keep(items, GainfulWithin(budget)))|, eps)
    ensures Weight(items, AsSet(ids), scale) + Units(items[n].cost, scale) > budget / scale
  {
    var sel := AsSet(ids);
    assert items[n].id !in sel;
    SumsAdd(items, sel, n, scale);
    var more := sel + {items[n].id};
    forall i, j | 0 <= i < j < |items| && items[i].id in more && items[j].id in more
      ensures items[i].key != items[j].key
    {
      assert items[i].id == items[n].id ==> i == n;
      assert items[j].id == items[n].id ==> j == n;
    }
    assert OnePerKey(items, more);
  }
}
