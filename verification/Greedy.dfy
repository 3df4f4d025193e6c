/** The density-greedy fallback: best value per rupiah first, one pick per choice key. */
module Greedy {
  import opened Ordering
  import opened Items

  function Density(i: Item): real {
    i.value / (if i.cost > 1 then i.cost else 1) as real
  }

  predicate ByDensity(a: Item, b: Item) {
    Density(a) > Density(b) || (Density(a) == Density(b) && StrLe(a.id, b.id))
  }

  lemma DensityOrder()
    ensures TotalPreorder(ByDensity)
  {
    StrOrder();
    forall a, b ensures ByDensity(a, b) || ByDensity(b, a) {
      assert StrLe(a.id, b.id) || StrLe(b.id, a.id);
    }
    forall a, b, c | ByDensity(a, b) && ByDensity(b, c) ensures ByDensity(a, c) {
      if Density(a) == Density(c) {
        StrLeTrans(a.id, b.id, c.id);
      }
    }
  }

  function Ranked(items: seq<Item>): seq<Item> {
    SortBy(Keep(items, Gainful()), ByDensity)
  }

  // ---------------------------------------------------------------- the run, as a function

  predicate Fits(item: Item, remaining: int, taken: set<string>) {
    item.key !in taken && item.cost <= remaining
  }

  /** The ids picked from the list, given the money left and the keys already served. */
  function Picked(list: seq<Item>, remaining: int, taken: set<string>): set<string> {
    if list == [] then {}
    else if Fits(list[0], remaining, taken)
    then {list[0].id} + Picked(list[1..], remaining - list[0].cost, taken + {list[0].key})
    else Picked(list[1..], remaining, taken)
  }

  /** The same ids in the order they were picked. */
  ghost function PickOrder(list: seq<Item>, remaining: int, taken: set<string>): seq<string> {
    if list == [] then []
    else if Fits(list[0], remaining, taken)
    then [list[0].id] + PickOrder(list[1..], remaining - list[0].cost, taken + {list[0].key})
    else PickOrder(list[1..], remaining, taken)
  }

  lemma {:induction false} PickOrderMeaning(list: seq<Item>, remaining: int, taken: set<string>)
    requires DistinctIds(list)
    ensures AsSet(PickOrder(list, remaining, taken)) == Picked(list, remaining, taken) <= IdSet(list)
    ensures Distinct(PickOrder(list, remaining, taken))
  {
    if list != [] {
      IdSetHead(list);
      if Fits(list[0], remaining, taken) {
        var rest := PickOrder(list[1..], remaining - list[0].cost, taken + {list[0].key});
        PickOrderMeaning(list[1..], remaining - list[0].cost, taken + {list[0].key});
        assert list[0].id !in AsSet(rest);
        assert AsSet([list[0].id] + rest) == {list[0].id} + AsSet(rest);
      } else {
        PickOrderMeaning(list[1..], remaining, taken);
      }
    }
  }

  lemma IdSetHead(list: seq<Item>)
    requires list != [] && DistinctIds(list)
    ensures IdSet(list) == {list[0].id} + IdSet(list[1..]) && list[0].id !in IdSet(list[1..])
  {
    assert forall i :: 0 < i < |list| ==> list[i] == list[1..][i - 1];
    assert forall i :: 0 <= i < |list[1..]| ==> list[1..][i] == list[i + 1];
  }

  lemma PickOrderStep(list: seq<Item>, n: nat, remaining: int, taken: set<string>)
    requires n < |list|
    ensures PickOrder(list[n..], remaining, taken) ==
      if Fits(list[n], remaining, taken)
      then [list[n].id] + PickOrder(list[n + 1..], remaining - list[n].cost, taken + {list[n].key})
      else PickOrder(list[n + 1..], remaining, taken)
  {
    assert list[n..][0] == list[n] && list[n..][1..] == list[n + 1..];
  }

  /** The loop over the sorted list. */
  method Pick(list: seq<Item>, budget: int) returns (selected: seq<string>)
    ensures selected == PickOrder(list, budget, {})
  {
    selected := [];
    var remaining, taken: set<string> := budget, {};
    assert list[0..] == list;
    for n := 0 to |list|
      invariant selected + PickOrder(list[n..], remaining, taken) == PickOrder(list, budget, {})
    {
      PickOrderStep(list, n, remaining, taken);
      var item := list[n];
      if item.key in taken || item.cost > remaining {
        continue;
      }
      selected := selected + [item.id];
      taken := taken + {item.key};
      remaining := remaining - item.cost;
    }
  }

  /** The ids are the greedy run's picks, sorted. */
  ghost predicate GreedyChoice(items: seq<Item>, budget: nat, ids: seq<string>) {
    Distinct(ids) && SortedBy(ids, StrLe) && AsSet(ids) == Picked(Ranked(items), budget, {})
  }

  method Solve(items: seq<Item>, budget: nat) returns (ids: seq<string>)
    requires DistinctIds(items)
    ensures GreedyChoice(items, budget, ids)
  {
    var list := Ranked(items);
    var selected := Pick(list, budget);
    SortedPicks(items, budget, selected);
    ids := SortBy(selected, StrLe);
  }

  lemma SortedPicks(items: seq<Item>, budget: nat, selected: seq<string>)
    requires DistinctIds(items) && selected == PickOrder(Ranked(items), budget, {})
    ensures GreedyChoice(items, budget, SortBy(selected, StrLe))
  {
    RankedList(items);
    PickOrderMeaning(Ranked(items), budget, {});
    SortByMembers(selected, StrLe);
    SortByDistinct(selected, StrLe);
    StrOrder();
    SortBySorted(selected, StrLe);
  }

  lemma RankedList(items: seq<Item>)
    requires DistinctIds(items)
    ensures DistinctIds(Ranked(items)) && SortedBy(Ranked(items), ByDensity)
    ensures forall x :: x in Ranked(items) <==> x in items && x.value > 0.0
  {
    var gainful := Keep(items, Gainful());
    KeepDistinct(items, Gainful());
    DistinctIdsFromMultiset(gainful, Ranked(items));
    DensityOrder();
    SortBySorted(gainful, ByDensity);
    SortByMembers(gainful, ByDensity);
  }

  // ---------------------------------------------------------------- what every run keeps

  // The picked ids exist, serve new keys only and one per key, and stay within the money.
  ghost predicate Sound(list: seq<Item>, remaining: nat, taken: set<string>, sel: set<string>) {
    && sel <= IdSet(list)
    && OnePerKey(list, sel)
    && (forall i :: 0 <= i < |list| && list[i].id in sel ==> list[i].key !in taken)
    && Cost(list, sel) <= remaining
  }

  lemma {:induction false} PickedSound(list: seq<Item>, remaining: nat, taken: set<string>)
    requires DistinctIds(list)
    ensures Sound(list, remaining, taken, Picked(list, remaining, taken))
  {
    if list != [] {
      var rest := list[1..];
      IdSetHead(list);
      if Fits(list[0], remaining, taken) {
        var money, keys := remaining - list[0].cost, taken + {list[0].key};
        PickedSound(rest, money, keys);
        PickFirst(list, Picked(rest, money, keys));
      } else {
        PickedSound(rest, remaining, taken);
        SkipFirst(list, Picked(rest, remaining, taken));
      }
    }
  }

  lemma PickFirst(list: seq<Item>, sel: set<string>)
    requires list != [] && DistinctIds(list) && sel <= IdSet(list[1..])
    ensures list[0].id !in sel
    ensures Cost(list, {list[0].id} + sel) == list[0].cost + Cost(list[1..], sel)
    ensures Value(list, {list[0].id} + sel) == list[0].value + Value(list[1..], sel)
    ensures forall i :: 0 < i < |list| ==> list[i] == list[1..][i - 1]
    ensures forall i :: 0 < i < |list| ==> (list[i].id in {list[0].id} + sel <==> list[1..][i - 1].id in sel)
  {
    assert {list[0].id} + sel == sel + {list[0].id};
    SumsOutside(list[1..], sel, list[0].id, 1);
  }

  lemma SkipFirst(list: seq<Item>, sel: set<string>)
    requires list != [] && DistinctIds(list) && sel <= IdSet(list[1..])
    ensures list[0].id !in sel
    ensures Cost(list, sel) == Cost(list[1..], sel) && Value(list, sel) == Value(list[1..], sel)
    ensures forall i :: 0 < i < |list| ==> list[i] == list[1..][i - 1]
  {
  }

  /** An item that was not picked has a served key, or costs more than what is left at the end. */
  lemma {:induction false} PassedOver(list: seq<Item>, remaining: nat, taken: set<string>, n: nat)
    requires DistinctIds(list) && n < |list|
    ensures var sel := Picked(list, remaining, taken);
      || list[n].id in sel
      || list[n].key in taken
      || (exists i :: 0 <= i < |list| && list[i].id in sel && list[i].key == list[n].key)
      || list[n].cost > remaining - Cost(list, sel)
  {
    PickedSound(list, remaining, taken);
    if Fits(list[0], remaining, taken) {
      var money, keys := remaining - list[0].cost, taken + {list[0].key};
      PickedSound(list[1..], money, keys);
      PickFirst(list, Picked(list[1..], money, keys));
      assert list[0].id in Picked(list, remaining, taken);
      if n > 0 {
        PassedOver(list[1..], money, keys, n - 1);
      }
    } else {
      PickedSound(list[1..], remaining, taken);
      SkipFirst(list, Picked(list[1..], remaining, taken));
      if n > 0 {
        PassedOver(list[1..], remaining, taken, n - 1);
      }
    }
  }

  // ---------------------------------------------------------------- the promise

  /** Totals over all items and over the ranked ones agree for a selection of ranked items. */
  lemma RankedSums(items: seq<Item>, sel: set<string>)
    requires DistinctIds(items) && sel <= IdSet(Ranked(items))
    ensures sel <= IdSet(Keep(items, Gainful()))
    ensures Value(items, sel) == Value(Ranked(items), sel) && Cost(items, sel) == Cost(Ranked(items), sel)
  {
    var gainful := Keep(items, Gainful());
    SameIds(Ranked(items), gainful);
    SumsPermuted(gainful, Ranked(items), sel);
    forall n | 0 <= n < |items| && items[n].id in sel ensures items[n].value > 0.0 {
      KeptById(items, Gainful(), sel, n);
    }
    KeepSame(items, Gainful(), sel, 1);
  }

  lemma SameIds(a: seq<Item>, b: seq<Item>)
    requires multiset(a) == multiset(b)
    ensures IdSet(a) <= IdSet(b)
  {
    MembersFromMultiset(a, b);
    forall id | id in IdSet(a) ensures id in IdSet(b) {
      var i :| 0 <= i < |a| && a[i].id == id;
      assert a[i] in a;
      var j := SelectedItem(b, a[i]);
    }
  }

  lemma GreedyIsSound(items: seq<Item>, budget: nat, ids: seq<string>)
    requires DistinctIds(items) && GreedyChoice(items, budget, ids)
    ensures SoundChoice(items, budget, ids)
  {
    var list := Ranked(items);
    RankedList(items);
    PickedSound(list, budget, {});
    RankedSums(items, AsSet(ids));
    forall i, j | 0 <= i < j < |items| && items[i].id in AsSet(ids) && items[j].id in AsSet(ids)
      ensures items[i].key != items[j].key
    {
      KeptById(items, Gainful(), AsSet(ids), i);
      KeptById(items, Gainful(), AsSet(ids), j);
      assert items[i] in items && items[j] in items;
      var a := SelectedItem(list, items[i]);
      var b := SelectedItem(list, items[j]);
      assert a != b;
    }
  }

  /** BUDGET_EXHAUSTED is truthful: such an item costs more than the money left over. */
  lemma ExhaustedMeansTooDear(items: seq<Item>, budget: nat, ids: seq<string>, n: nat)
    requires DistinctIds(items) && GreedyChoice(items, budget, ids)
    requires n < |items| && items[n].value > 0.0 && KeyUnpicked(items, ids, n)
    ensures items[n].cost > budget - Cost(items, AsSet(ids))
  {
    var list := Ranked(items);
    RankedList(items);
    PickedSound(list, budget, {});
    RankedSums(items, AsSet(ids));
    assert items[n] in items;
    var m := SelectedItem(list, items[n]);
    PassedOver(list, budget, {}, m);
    forall i | 0 <= i < |list| && list[i].id in AsSet(ids) ensures list[i].key != items[n].key {
      assert list[i] in list;
      var j := SelectedItem(items, list[i]);
    }
  }

  lemma {:induction false} CostMonotone(items: seq<Item>, a: set<string>, b: set<string>)
    requires a <= b
    ensures Cost(items, a) <= Cost(items, b)
  {
    if items != [] {
      CostMonotone(items[1..], a, b);
    }
  }

  // What is picked beside a gainful item that is not picked, if gainful items never share a key.
  lemma UnpickedAlone(items: seq<Item>, budget: nat, ids: seq<string>, wanted: seq<Item>, n: nat)
    requires DistinctIds(items) && SoundChoice(items, budget, ids) && OneItemPerKey(wanted)
    requires forall x :: x in wanted <==> x in items && x.value > 0.0
    requires n < |items| && items[n] in wanted && items[n].id !in AsSet(ids)
    ensures KeyUnpicked(items, ids, n) && AsSet(ids) + {items[n].id} <= IdSet(wanted)
  {
    forall i | 0 <= i < |items| && items[i].id in AsSet(ids) ensures items[i].key != items[n].key {
      KeptById(items, Gainful(), AsSet(ids), i);
      assert items[i] in items;
      var a := SelectedItem(wanted, items[i]);
      var b := SelectedItem(wanted, items[n]);
    }
    forall id | id in AsSet(ids) + {items[n].id} ensures id in IdSet(wanted) {
      if id == items[n].id {
        var b := SelectedItem(wanted, items[n]);
      } else {
        PickedIsWanted(items, ids, wanted, id);
      }
    }
  }

  lemma PickedIsWanted(items: seq<Item>, ids: seq<string>, wanted: seq<Item>, id: string)
    requires AsSet(ids) <= IdSet(Keep(items, Gainful())) && id in AsSet(ids)
    requires forall x :: x in wanted <==> x in items && x.value > 0.0
    ensures id in IdSet(wanted)
  {
    var gainful := Keep(items, Gainful());
    var i :| 0 <= i < |gainful| && gainful[i].id == id;
    assert gainful[i] in gainful;
    var a := SelectedItem(wanted, gainful[i]);
  }

  /** If the gainful items have different keys and together fit the budget, greedy picks them all. */
  lemma TakesAllThatFit(items: seq<Item>, budget: nat, ids: seq<string>, wanted: seq<Item>, x: Item)
    requires DistinctIds(items) && GreedyChoice(items, budget, ids) && x in wanted
    requires DistinctIds(wanted) && OneItemPerKey(wanted) && CostOf(wanted) <= budget
    requires forall y :: y in wanted <==> y in items && y.value > 0.0
    ensures x.id in ids
  {
    GreedyIsSound(items, budget, ids);
    var n := SelectedItem(items, x);
    if x.id !in AsSet(ids) {
      UnpickedAlone(items, budget, ids, wanted, n);
      ExhaustedMeansTooDear(items, budget, ids, n);
      SumsAdd(items, AsSet(ids), n, 1);
      WantedCost(items, wanted);
      CostMonotone(items, AsSet(ids) + {x.id}, IdSet(wanted));
      assert false;
    }
  }

  lemma WantedCost(items: seq<Item>, wanted: seq<Item>)
    requires DistinctIds(items) && DistinctIds(wanted) && forall x :: x in wanted ==> x in items
    ensures Cost(items, IdSet(wanted)) == CostOf(wanted)
  {
    forall x ensures x in wanted <==> x in items && x.id in IdSet(wanted) {
      if x in wanted {
        var i := SelectedItem(wanted, x);
      }
      if x in items && x.id in IdSet(wanted) {
        var i :| 0 <= i < |wanted| && wanted[i].id == x.id;
        assert wanted[i] in wanted;
        var a := SelectedItem(items, x);
        var b := SelectedItem(items, wanted[i]);
        assert a == b;
      }
    }
    PickedTotals(items, IdSet(wanted), wanted);
  }

  // ---------------------------------------------------------------- how good greedy is

  /** The first item of the list whose cost exceeds what is left after taking all before it. */
  function FirstSkipped(list: seq<Item>, remaining: int): (k: nat)
    ensures k <= |list|
    ensures k < |list| ==> list[k].cost > remaining - CostOf(list[..k])
  {
    if list == [] || list[0].cost > remaining then 0
    else
      var k := FirstSkipped(list[1..], remaining - list[0].cost);
      assert k < |list[1..]| ==> list[..k + 1] == [list[0]] + list[1..][..k];
      k + 1
  }

  /** Everything before it still fits when its turn comes. */
  lemma {:induction false} BeforeSkippedFits(list: seq<Item>, remaining: int, j: nat)
    requires j < FirstSkipped(list, remaining)
    ensures list[j].cost <= remaining - CostOf(list[..j])
  {
    if j > 0 {
      BeforeSkippedFits(list[1..], remaining - list[0].cost, j - 1);
      assert list[..j] == [list[0]] + list[1..][..j - 1];
    }
  }

  function Times(d: real, n: int): real {
    d * n as real
  }

  // What a cost is worth at a given density.
  function Price(i: Item, d: real): real {
    Times(d, i.cost)
  }

  function Priced(list: seq<Item>, sel: set<string>, d: real): real {
    if list == [] then 0.0
    else (if list[0].id in sel then Price(list[0], d) else 0.0) + Priced(list[1..], sel, d)
  }

  function PricedAll(list: seq<Item>, d: real): real {
    if list == [] then 0.0 else Price(list[0], d) + PricedAll(list[1..], d)
  }

  lemma RealAdd(d: real, a: int, b: int)
    ensures Times(d, a + b) == Times(d, a) + Times(d, b)
  {
  }

  lemma {:induction false} PricedIsProduct(list: seq<Item>, sel: set<string>, d: real)
    ensures Priced(list, sel, d) == Times(d, Cost(list, sel))
  {
    if list != [] {
      PricedIsProduct(list[1..], sel, d);
      if list[0].id in sel {
        RealAdd(d, list[0].cost, Cost(list[1..], sel));
      }
    }
  }

  lemma {:induction false} PricedAllIsProduct(list: seq<Item>, d: real)
    ensures PricedAll(list, d) == Times(d, CostOf(list))
  {
    if list != [] {
      PricedAllIsProduct(list[1..], d);
      RealAdd(d, list[0].cost, CostOf(list[1..]));
    }
  }

  lemma DivMul(v: real, c: real)
    requires c > 0.0
    ensures v / c * c == v
  {
  }

  lemma PriceAtMost(i: Item, d: real)
    requires i.cost >= 1 && Density(i) <= d
    ensures i.value <= Price(i, d)
  {
    var c := i.cost as real;
    DivMul(i.value, c);
    assert (d - Density(i)) * c >= 0.0;
  }

  lemma PriceAtLeast(i: Item, d: real)
    requires Density(i) >= d >= 0.0
    ensures i.value >= Price(i, d)
  {
    var c := (if i.cost > 1 then i.cost else 1) as real;
    DivMul(i.value, c);
    assert (Density(i) - d) * c >= 0.0;
    assert d * (c - i.cost as real) >= 0.0;
  }

  lemma PriceSign(i: Item, d: real)
    requires d >= 0.0
    ensures Price(i, d) >= 0.0
  {
  }

  ghost predicate FreshKeys(list: seq<Item>, taken: set<string>) {
    OneItemPerKey(list) && forall i :: 0 <= i < |list| ==> list[i].key !in taken
  }

  lemma FreshTail(list: seq<Item>, taken: set<string>)
    requires list != [] && FreshKeys(list, taken)
    ensures FreshKeys(list[1..], taken) && FreshKeys(list[1..], taken + {list[0].key})
    ensures list[0].key !in taken
  {
    assert forall i :: 0 <= i < |list[1..]| ==> list[1..][i] == list[i + 1];
  }

  // One step of the run: what the head adds to the picks.
  lemma PickedStep(list: seq<Item>, remaining: nat, taken: set<string>) returns (money: nat, keys: set<string>)
    requires list != [] && DistinctIds(list) && FreshKeys(list, taken)
    ensures FreshKeys(list[1..], keys)
    ensures list[0].cost <= remaining ==> (money == remaining - list[0].cost &&
      Value(list, Picked(list, remaining, taken)) == list[0].value + Value(list[1..], Picked(list[1..], money, keys)))
    ensures list[0].cost > remaining ==> (money == remaining &&
      Value(list, Picked(list, remaining, taken)) == Value(list[1..], Picked(list[1..], money, keys)))
  {
    FreshTail(list, taken);
    if list[0].cost <= remaining {
      money, keys := remaining - list[0].cost, taken + {list[0].key};
      PickedSound(list[1..], money, keys);
      PickFirst(list, Picked(list[1..], money, keys));
    } else {
      money, keys := remaining, taken;
      PickedSound(list[1..], money, keys);
      SkipFirst(list, Picked(list[1..], money, keys));
    }
  }

  /** After the first skip, greedy loses at most the priced cost of the rival selection. */
  lemma {:induction false} TailBound(list: seq<Item>, remaining: nat, taken: set<string>, d: real, other: set<string>)
    requires DistinctIds(list) && FreshKeys(list, taken) && d >= 0.0
    requires forall x :: x in list ==> x.value > 0.0 && Density(x) <= d
    ensures Value(list, other) <= Value(list, Picked(list, remaining, taken)) + Priced(list, other, d)
  {
    if list != [] {
      var money, keys := PickedStep(list, remaining, taken);
      TailBound(list[1..], money, keys, d, other);
      PriceSign(list[0], d);
      if list[0].cost > remaining {
        PriceAtMost(list[0], d);
      }
    }
  }

  /** Up to the first skip greedy holds the densest items, so the rival's extra cost is worth little. */
  lemma {:induction false} PrefixBound(list: seq<Item>, remaining: nat, taken: set<string>, k: nat, d: real,
                                       other: set<string>)
    requires DistinctIds(list) && FreshKeys(list, taken)
    requires forall x :: x in list ==> x.value > 0.0
    requires k == FirstSkipped(list, remaining) < |list| && d >= 0.0
    requires forall i :: 0 <= i < k ==> Density(list[i]) >= d
    requires forall i :: k <= i < |list| ==> Density(list[i]) <= d
    ensures Value(list, other) <= Value(list, Picked(list, remaining, taken)) +
      Priced(list, other, d) - PricedAll(list[..k], d)
  {
    if k == 0 {
      TailBound(list, remaining, taken, d, other);
    } else {
      var money, keys := PickedStep(list, remaining, taken);
      PrefixBound(list[1..], money, keys, k - 1, d, other);
      PriceAtLeast(list[0], d);
      assert list[..k] == [list[0]] + list[1..][..k - 1];
    }
  }

  lemma {:induction false} NothingSkipped(list: seq<Item>, remaining: nat, taken: set<string>, other: set<string>)
    requires DistinctIds(list) && FreshKeys(list, taken)
    requires forall x :: x in list ==> x.value > 0.0
    requires FirstSkipped(list, remaining) == |list|
    ensures Value(list, other) <= Value(list, Picked(list, remaining, taken))
  {
    if list != [] {
      var money, keys := PickedStep(list, remaining, taken);
      NothingSkipped(list[1..], money, keys, other);
    }
  }

  /**
   When no two gainful items share a choice key, the greedy value plus the value of the first item
   skipped for budget is at least the value of every selection that fits the budget; if nothing is
   skipped, greedy is optimal.
   */
  lemma GreedyBound(items: seq<Item>, budget: nat, ids: seq<string>, other: set<string>)
    requires DistinctIds(items) && GreedyChoice(items, budget, ids)
    requires OneItemPerKey(Ranked(items))
    requires Cost(items, other) <= budget
    ensures var list := Ranked(items);
      var k := FirstSkipped(list, budget);
      Value(items, other) <= Value(items, AsSet(ids)) + if k < |list| then list[k].value else 0.0
  {
    var list := Ranked(items);
    var k := FirstSkipped(list, budget);
    RankedList(items);
    PickedSound(list, budget, {});
    RankedSums(items, AsSet(ids));
    KeepSums(items, Gainful(), other, 1);
    SumsPermuted(Keep(items, Gainful()), list, other);
    if k == |list| {
      NothingSkipped(list, budget, {}, other);
    } else {
      RankedBound(list, budget, k, other);
    }
  }

  lemma RankedBound(list: seq<Item>, budget: nat, k: nat, other: set<string>)
    requires DistinctIds(list) && OneItemPerKey(list) && SortedBy(list, ByDensity)
    requires forall x :: x in list ==> x.value > 0.0
    requires k == FirstSkipped(list, budget) < |list| && Cost(list, other) <= budget
    ensures Value(list, other) <= Value(list, Picked(list, budget, {})) + list[k].value
  {
    var d := Density(list[k]);
    assert forall i :: 0 <= i < k ==> ByDensity(list[i], list[k]);
    assert forall i :: k < i < |list| ==> ByDensity(list[k], list[i]);
    DensityIsValue(list[k]);
    SkippedCosts(list, budget);
    PrefixBound(list, budget, {}, k, d, other);
    PricedGap(list, list[..k], other, d, list[k].cost, list[k].value);
  }

  /** At the density of an item, a cost gap of at most its cost is worth at most its value. */
  lemma PricedGap(list: seq<Item>, prefix: seq<Item>, other: set<string>, d: real, cost: int, value: real)
    requires d >= 0.0 && value == Times(d, cost)
    requires Cost(list, other) - CostOf(prefix) <= cost
    ensures Priced(list, other, d) - PricedAll(prefix, d) <= value
  {
    PricedIsProduct(list, other, d);
    PricedAllIsProduct(prefix, d);
    GapScaled(d, Cost(list, other), CostOf(prefix), cost);
  }

  lemma TimesSign(d: real, n: int)
    requires d >= 0.0 && n >= 0
    ensures Times(d, n) >= 0.0
  {
  }

  lemma GapScaled(d: real, a: int, b: int, c: int)
    requires d >= 0.0 && a - b <= c
    ensures Times(d, a) - Times(d, b) <= Times(d, c)
  {
    RealAdd(d, a - b, b);
    TimesSign(d, c - (a - b));
    RealAdd(d, c - (a - b), a - b);
  }

  lemma DensityIsValue(i: Item)
    requires i.value > 0.0
    ensures Density(i) > 0.0
    ensures i.cost >= 1 ==> i.value == Times(Density(i), i.cost)
  {
    DivMul(i.value, (if i.cost > 1 then i.cost else 1) as real);
  }

  /** What is skipped is never free. */
  lemma {:induction false} SkippedCosts(list: seq<Item>, remaining: nat)
    requires FirstSkipped(list, remaining) < |list|
    ensures list[FirstSkipped(list, remaining)].cost > 0
  {
    if list[0].cost <= remaining {
      SkippedCosts(list[1..], remaining - list[0].cost);
    }
  }

  /** The run goes by falling value per rupiah, free items counted as costing one, and by id among equals. */
  lemma RunOrder(items: seq<Item>, i: nat, j: nat)
    requires DistinctIds(items) && i < j < |Ranked(items)|
    ensures var x, y := Ranked(items)[i], Ranked(items)[j];
      var p, q := (if x.cost == 0 then 1 else x.cost) as real, (if y.cost == 0 then 1 else y.cost) as real;
      x.value / p > y.value / q || (x.value / p == y.value / q && StrLt(x.id, y.id))
  {
    RankedList(items);
    assert ByDensity(Ranked(items)[i], Ranked(items)[j]) && Ranked(items)[i].id != Ranked(items)[j].id;
  }
}
