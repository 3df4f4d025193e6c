/** The allocatable unit, and what a selection of units is worth and costs. */
module Items {
  import opened Ordering

  // One allocatable unit: a single candidate, or an indivisible group bundle.
  datatype Item = Item(id: string, key: string, cost: nat, value: real, candidateIds: seq<string>)

  predicate ByKeyThenId(a: Item, b: Item) {
    StrLt(a.key, b.key) || (a.key == b.key && StrLe(a.id, b.id))
  }

  ghost predicate DistinctIds(items: seq<Item>) {
    forall i, j :: 0 <= i < j < |items| ==> items[i].id != items[j].id
  }

  // A selection is a set of item ids; at most one selected item per choice key.
  ghost predicate OnePerKey(items: seq<Item>, sel: set<string>) {
    forall i, j :: 0 <= i < j < |items| && items[i].id in sel && items[j].id in sel ==> items[i].key != items[j].key
  }

  ghost predicate OneItemPerKey(items: seq<Item>) {
    forall i, j :: 0 <= i < j < |items| ==> items[i].key != items[j].key
  }

  // The number of scale units an item occupies: ceil(cost / scale).
  function Units(cost: nat, scale: int): nat
    requires scale >= 1
  {
    (cost + scale - 1) / scale
  }

  function Value(items: seq<Item>, sel: set<string>): real {
    if items == [] then 0.0
    else (if items[0].id in sel then items[0].value else 0.0) + Value(items[1..], sel)
  }

  function Cost(items: seq<Item>, sel: set<string>): nat {
    if items == [] then 0
    else (if items[0].id in sel then items[0].cost else 0) + Cost(items[1..], sel)
  }

  function Weight(items: seq<Item>, sel: set<string>, scale: int): nat
    requires scale >= 1
  {
    if items == [] then 0
    else (if items[0].id in sel then Units(items[0].cost, scale) else 0) + Weight(items[1..], sel, scale)
  }

  function Ids(items: seq<Item>): (r: seq<string>)
    ensures |r| == |items| && forall i :: 0 <= i < |r| ==> r[i] == items[i].id
  {
    seq(|items|, i requires 0 <= i < |items| => items[i].id)
  }

  function IdSet(items: seq<Item>): set<string> {
    set i | 0 <= i < |items| :: items[i].id
  }

  function Keys(items: seq<Item>): set<string> {
    set i | 0 <= i < |items| :: items[i].key
  }

  function Keep(items: seq<Item>, p: Item -> bool): (r: seq<Item>)
    ensures forall x :: x in r <==> x in items && p(x)
    ensures |r| <= |items|
  {
    if items == [] then [] else
    var rest := Keep(items[1..], p);
    if p(items[0]) then [items[0]] + rest else rest
  }

  // What each solver looks at: the greedy one needs a gain, the exact one also an affordable cost.
  function Gainful(): Item -> bool {
    (i: Item) => i.value > 0.0
  }

  function GainfulWithin(budget: int): Item -> bool {
    (i: Item) => i.value > 0.0 && i.cost <= budget
  }

  lemma {:induction false} SumsOutside(items: seq<Item>, sel: set<string>, id: string, scale: int)
    requires scale >= 1
    requires forall i :: 0 <= i < |items| ==> items[i].id != id
    ensures Value(items, sel + {id}) == Value(items, sel)
    ensures Cost(items, sel + {id}) == Cost(items, sel)
    ensures Weight(items, sel + {id}, scale) == Weight(items, sel, scale)
  {
    if items != [] {
      SumsOutside(items[1..], sel, id, scale);
    }
  }

  /** Adding one new item to a selection adds exactly that item to every total. */
  lemma {:induction false} SumsAdd(items: seq<Item>, sel: set<string>, n: nat, scale: int)
    requires scale >= 1 && DistinctIds(items) && n < |items|
    requires items[n].id !in sel
    ensures Value(items, sel + {items[n].id}) == Value(items, sel) + items[n].value
    ensures Cost(items, sel + {items[n].id}) == Cost(items, sel) + items[n].cost
    ensures Weight(items, sel + {items[n].id}, scale) == Weight(items, sel, scale) + Units(items[n].cost, scale)
  {
    if n == 0 {
      SumsOutside(items[1..], sel, items[0].id, scale);
    } else {
      assert items[1..][n - 1] == items[n];
      SumsAdd(items[1..], sel, n - 1, scale);
    }
  }

  lemma {:induction false} SumsNone(items: seq<Item>, sel: set<string>, scale: int)
    requires scale >= 1
    requires forall i :: 0 <= i < |items| ==> items[i].id !in sel
    ensures Value(items, sel) == 0.0 && Cost(items, sel) == 0 && Weight(items, sel, scale) == 0
  {
    if items != [] {
      SumsNone(items[1..], sel, scale);
    }
  }

  lemma {:induction false} SumsMonotone(items: seq<Item>, sel: set<string>, n: nat, scale: int)
    requires scale >= 1 && n < |items| && items[n].id in sel
    ensures items[n].cost <= Cost(items, sel)
    ensures Units(items[n].cost, scale) <= Weight(items, sel, scale)
  {
    if n > 0 {
      assert items[1..][n - 1] == items[n];
      SumsMonotone(items[1..], sel, n - 1, scale);
    }
  }

  /** Rounding up never makes an item lighter than its cost, so a weight bound is a cost bound. */
  lemma {:induction false} CostWithinWeight(items: seq<Item>, sel: set<string>, scale: int)
    requires scale >= 1
    ensures Cost(items, sel) <= scale * Weight(items, sel, scale)
  {
    if items != [] {
      CostWithinWeight(items[1..], sel, scale);
      UnitsBounds(items[0].cost, scale);
      var u, w := Units(items[0].cost, scale), Weight(items[1..], sel, scale);
      MulAdd(scale, u, w);
    }
  }

  lemma UnitsBounds(cost: nat, scale: int)
    requires scale >= 1
    ensures cost <= scale * Units(cost, scale) <= cost + scale - 1
  {
    var n := cost + scale - 1;
    assert n == scale * (n / scale) + n % scale;
  }

  /** A weight within the scaled budget is a cost within the budget. */
  lemma WithinCapacity(weight: int, budget: nat, scale: int)
    requires scale >= 1 && weight <= budget / scale
    ensures scale * weight <= budget
  {
    MulMono(scale, weight, budget / scale);
    assert budget == scale * (budget / scale) + budget % scale;
  }

  function Count(items: seq<Item>, sel: set<string>): nat {
    if items == [] then 0 else (if items[0].id in sel then 1 else 0) + Count(items[1..], sel)
  }

  /** Each selected item loses at most scale - 1 to the rounding. */
  lemma {:induction false} WeightWithinCost(items: seq<Item>, sel: set<string>, scale: int)
    requires scale >= 1
    ensures scale * Weight(items, sel, scale) <= Cost(items, sel) + (scale - 1) * Count(items, sel)
  {
    if items != [] {
      WeightWithinCost(items[1..], sel, scale);
      UnitsBounds(items[0].cost, scale);
      var u, w := Units(items[0].cost, scale), Weight(items[1..], sel, scale);
      MulAdd(scale, u, w);
      var n := Count(items[1..], sel);
      MulAdd(scale - 1, 1, n);
    }
  }

  /** If every cost is a multiple of the scale, nothing is lost. */
  lemma {:induction false} WeightExact(items: seq<Item>, sel: set<string>, scale: int)
    requires scale >= 1
    requires forall i :: 0 <= i < |items| ==> items[i].cost % scale == 0
    ensures scale * Weight(items, sel, scale) == Cost(items, sel)
  {
    if items != [] {
      WeightExact(items[1..], sel, scale);
      var u, w := Units(items[0].cost, scale), Weight(items[1..], sel, scale);
      MulAdd(scale, u, w);
      assert scale * u == items[0].cost by { UnitsExact(items[0].cost, scale); }
    }
  }

  lemma MulAdd(s: int, a: int, b: int)
    ensures s * (a + b) == s * a + s * b && s * (a + 0) == s * a && s * (0 + b) == s * b
  {
  }

  lemma MulMono(s: int, a: int, b: int)
    requires s >= 0 && a <= b
    ensures s * a <= s * b
  {
  }

  lemma UnitsExact(cost: nat, scale: int)
    requires scale >= 1 && cost % scale == 0
    ensures scale * Units(cost, scale) == cost
  {
    var q, u := cost / scale, Units(cost, scale);
    UnitsBounds(cost, scale);
    assert cost == scale * q;
    if u > q {
      MulMono(scale, q + 1, u);
    } else {
      MulMono(scale, u, q);
    }
  }

  /** Dropping worthless items from the list never lowers a selection's value nor raises its cost. */
  lemma {:induction false} KeepSums(items: seq<Item>, p: Item -> bool, sel: set<string>, scale: int)
    requires scale >= 1
    requires forall i :: 0 <= i < |items| && items[i].id in sel && !p(items[i]) ==> items[i].value <= 0.0
    ensures Value(items, sel) <= Value(Keep(items, p), sel)
    ensures Cost(Keep(items, p), sel) <= Cost(items, sel)
    ensures Weight(Keep(items, p), sel, scale) <= Weight(items, sel, scale)
  {
    if items != [] {
      KeepSums(items[1..], p, sel, scale);
    }
  }

  /** A selection made of kept items has the same totals in both lists. */
  lemma {:induction false} KeepSame(items: seq<Item>, p: Item -> bool, sel: set<string>, scale: int)
    requires scale >= 1
    requires forall i :: 0 <= i < |items| && items[i].id in sel ==> p(items[i])
    ensures Value(items, sel) == Value(Keep(items, p), sel)
    ensures Cost(items, sel) == Cost(Keep(items, p), sel)
    ensures Weight(items, sel, scale) == Weight(Keep(items, p), sel, scale)
  {
    if items != [] {
      KeepSame(items[1..], p, sel, scale);
    }
  }

  lemma {:induction false} KeepDistinct(items: seq<Item>, p: Item -> bool)
    requires DistinctIds(items)
    ensures DistinctIds(Keep(items, p))
  {
    if items != [] {
      KeepDistinct(items[1..], p);
      forall x | x in Keep(items[1..], p) ensures x.id != items[0].id {
        assert x in items[1..];
      }
    }
  }

  lemma {:induction false} KeepOnePerKey(items: seq<Item>, p: Item -> bool, sel: set<string>)
    requires OnePerKey(items, sel)
    ensures OnePerKey(Keep(items, p), sel)
  {
    if items != [] {
      KeepOnePerKey(items[1..], p, sel);
      forall x | x in Keep(items[1..], p) && x.id in sel && items[0].id in sel ensures x.key != items[0].key {
        var j :| 0 <= j < |items[1..]| && items[1..][j] == x;
        assert items[j + 1] == x;
      }
    }
  }

  lemma {:induction false} SumsSplit(a: seq<Item>, b: seq<Item>, sel: set<string>)
    ensures Value(a + b, sel) == Value(a, sel) + Value(b, sel)
    ensures Cost(a + b, sel) == Cost(a, sel) + Cost(b, sel)
  {
    if a == [] {
      assert a + b == b;
    } else {
      assert (a + b)[1..] == a[1..] + b;
      SumsSplit(a[1..], b, sel);
    }
  }

  lemma SumsRemove(b: seq<Item>, j: nat, sel: set<string>)
    requires j < |b|
    ensures Value(b, sel) == Value([b[j]], sel) + Value(b[..j] + b[j + 1..], sel)
    ensures Cost(b, sel) == Cost([b[j]], sel) + Cost(b[..j] + b[j + 1..], sel)
  {
    assert b == (b[..j] + [b[j]]) + b[j + 1..];
    SumsSplit(b[..j] + [b[j]], b[j + 1..], sel);
    SumsSplit(b[..j], [b[j]], sel);
    SumsSplit(b[..j], b[j + 1..], sel);
  }

  /** Totals do not depend on the order of the list. */
  lemma {:induction false} SumsPermuted(a: seq<Item>, b: seq<Item>, sel: set<string>)
    requires multiset(a) == multiset(b)
    ensures Value(a, sel) == Value(b, sel) && Cost(a, sel) == Cost(b, sel)
  {
    if a == [] {
      assert |multiset(b)| == 0;
    } else {
      var j := RemoveFirst(a, b);
      SumsPermuted(a[1..], b[..j] + b[j + 1..], sel);
      SumsRemove(b, j, sel);
    }
  }

  /** The ids of the kept items pick out kept items only. */
  lemma KeptById(items: seq<Item>, p: Item -> bool, sel: set<string>, n: nat)
    requires DistinctIds(items) && sel <= IdSet(Keep(items, p))
    requires n < |items| && items[n].id in sel
    ensures p(items[n])
  {
    var kept := Keep(items, p);
    var j :| 0 <= j < |kept| && kept[j].id == items[n].id;
    assert kept[j] in items && p(kept[j]);
    var m :| 0 <= m < |items| && items[m] == kept[j];
    assert m == n;
  }

  lemma KeptOnePerKey(items: seq<Item>, p: Item -> bool, sel: set<string>)
    requires DistinctIds(items) && sel <= IdSet(Keep(items, p))
    requires OnePerKey(Keep(items, p), sel)
    ensures OnePerKey(items, sel)
  {
    var kept := Keep(items, p);
    forall i, j | 0 <= i < j < |items| && items[i].id in sel && items[j].id in sel
      ensures items[i].key != items[j].key
    {
      KeptById(items, p, sel, i);
      KeptById(items, p, sel, j);
      assert items[i] in items && items[j] in items;
      assert items[i] in kept && items[j] in kept;
      var a :| 0 <= a < |kept| && kept[a] == items[i];
      var b :| 0 <= b < |kept| && kept[b] == items[j];
      assert a != b;
    }
  }

  /** Ids that name no listed item do not matter. */
  lemma {:induction false} SumsRestrict(items: seq<Item>, sel: set<string>, sel': set<string>, scale: int)
    requires scale >= 1
    requires forall i :: 0 <= i < |items| ==> (items[i].id in sel <==> items[i].id in sel')
    ensures Value(items, sel) == Value(items, sel') && Cost(items, sel) == Cost(items, sel')
    ensures Weight(items, sel, scale) == Weight(items, sel', scale)
  {
    if items != [] {
      SumsRestrict(items[1..], sel, sel', scale);
    }
  }

  ghost function SelectedKeys(items: seq<Item>, sel: set<string>): (r: set<string>)
    ensures forall k :: k in r ==> exists i :: 0 <= i < |items| && items[i].id in sel && items[i].key == k
  {
    if items == [] then {}
    else
      var rest := SelectedKeys(items[1..], sel);
      if items[0].id in sel then {items[0].key} + rest else rest
  }

  /** One item per key means at most as many items as keys. */
  lemma {:induction false} CountIsKeys(items: seq<Item>, sel: set<string>)
    requires OnePerKey(items, sel)
    ensures Count(items, sel) == |SelectedKeys(items, sel)|
  {
    if items != [] {
      CountIsKeys(items[1..], sel);
    }
  }

  lemma CountWithinKeys(items: seq<Item>, sel: set<string>)
    requires OnePerKey(items, sel)
    ensures Count(items, sel) <= |Keys(items)|
  {
    CountIsKeys(items, sel);
    SubsetSize(SelectedKeys(items, sel), Keys(items));
  }

  /** What every allocation guarantees, whichever solver made it. */
  ghost predicate SoundChoice(items: seq<Item>, budget: nat, ids: seq<string>) {
    && Distinct(ids) && SortedBy(ids, StrLe)
    && AsSet(ids) <= IdSet(Keep(items, Gainful()))
    && OnePerKey(items, AsSet(ids))
    && Cost(items, AsSet(ids)) <= budget
  }

  // No selected item has the key of item n.
  ghost predicate KeyUnpicked(items: seq<Item>, ids: seq<string>, n: nat)
    requires n < |items|
  {
    forall i :: 0 <= i < |items| && items[i].id in AsSet(ids) ==> items[i].key != items[n].key
  }

  lemma SelectedItem(items: seq<Item>, x: Item) returns (n: nat)
    requires x in items
    ensures n < |items| && items[n] == x
  {
    n :| 0 <= n < |items| && items[n] == x;
  }

  lemma DistinctIdsFromMultiset(a: seq<Item>, b: seq<Item>)
    requires multiset(a) == multiset(b) && DistinctIds(a)
    ensures DistinctIds(b)
  {
    DistinctFromMultiset(a, b);
    MembersFromMultiset(a, b);
    forall i, j | 0 <= i < j < |b| ensures b[i].id != b[j].id {
      assert b[i] in b && b[j] in b;
      var m := SelectedItem(a, b[i]);
      var n := SelectedItem(a, b[j]);
      assert m != n;
    }
  }

  // Plain totals of a list.
  function CostOf(list: seq<Item>): nat {
    if list == [] then 0 else list[0].cost + CostOf(list[1..])
  }

  function ValueOf(list: seq<Item>): real {
    if list == [] then 0.0 else list[0].value + ValueOf(list[1..])
  }

  lemma {:induction false} SumsOfAll(list: seq<Item>, sel: set<string>)
    requires forall x :: x in list ==> x.id in sel
    ensures Cost(list, sel) == CostOf(list) && Value(list, sel) == ValueOf(list)
  {
    if list != [] {
      SumsOfAll(list[1..], sel);
    }
  }

  /** The list of the picked items has the totals of the selection. */
  lemma PickedTotals(items: seq<Item>, sel: set<string>, picked: seq<Item>)
    requires DistinctIds(items) && DistinctIds(picked)
    requires forall x :: x in picked <==> x in items && x.id in sel
    ensures CostOf(picked) == Cost(items, sel) && ValueOf(picked) == Value(items, sel)
  {
    var p := (x: Item) => x.id in sel;
    var kept := Keep(items, p);
    KeepDistinct(items, p);
    KeepSame(items, p, sel, 1);
    SameMembersSameMultiset(kept, picked);
    SumsPermuted(kept, picked, sel);
    SumsOfAll(picked, sel);
  }
}
