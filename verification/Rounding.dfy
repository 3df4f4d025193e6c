/** When the exact allocator's answer is optimal in rupiah, whatever the values of the items are. */
module Rounding {
  import opened Ordering
  import opened Items
  import opened Knapsack

  /** Every affordable selection still fits once its costs are rounded up. Values play no part in it. */
  ghost predicate RoundingHarmless(items: seq<Item>, budget: nat, scale: int)
    requires scale >= 1
  {
    forall sel :: OnePerKey(items, sel) && Cost(items, sel) <= budget ==> Weight(items, sel, scale) <= budget / scale
  }

  ghost predicate SameButValues(items: seq<Item>, others: seq<Item>) {
    |items| == |others| && forall i :: 0 <= i < |items| ==> others[i] == items[i].(value := others[i].value)
  }

  /** The answer is worth the given affordable selection, less one tolerance per key. */
  ghost predicate Reaches(items: seq<Item>, budget: nat, scale: int, eps: real, ids: seq<string>, other: set<string>)
    requires scale >= 1
  {
    ExactChoice(items, budget, scale, eps, ids) && OnePerKey(items, other) && Cost(items, other) <= budget ==>
      Value(items, AsSet(ids)) >= Value(items, other) - Slack(|Keys(Keep(items, GainfulWithin(budget)))|, eps)
  }

  /** Whatever the items are worth, every answer reaches every affordable selection. */
  ghost predicate OptimalInRupiah(items: seq<Item>, budget: nat, scale: int, eps: real)
    requires scale >= 1
  {
    forall others, ids, other :: SameButValues(items, others) ==> Reaches(others, budget, scale, eps, ids, other)
  }

  lemma {:induction false} SameSums(items: seq<Item>, others: seq<Item>, sel: set<string>, scale: int)
    requires scale >= 1 && SameButValues(items, others)
    ensures Cost(items, sel) == Cost(others, sel) && Weight(items, sel, scale) == Weight(others, sel, scale)
    ensures OnePerKey(items, sel) == OnePerKey(others, sel) && DistinctIds(items) == DistinctIds(others)
    ensures Keys(items) == Keys(others)
  {
    SameTotals(items, others, sel, scale);
  }

  lemma {:induction false} SameTotals(items: seq<Item>, others: seq<Item>, sel: set<string>, scale: int)
    requires scale >= 1 && SameButValues(items, others)
    ensures Cost(items, sel) == Cost(others, sel) && Weight(items, sel, scale) == Weight(others, sel, scale)
  {
    if items != [] {
      SameTotals(items[1..], others[1..], sel, scale);
    }
  }

  lemma HarmlessReaches(items: seq<Item>, budget: nat, scale: int, eps: real)
    requires scale >= 1 && RoundingHarmless(items, budget, scale)
    ensures OptimalInRupiah(items, budget, scale, eps)
  {
    forall others, ids, other | SameButValues(items, others) ensures Reaches(others, budget, scale, eps, ids, other) {
      SameSums(items, others, other, scale);
    }
  }

  // ---------------------------------------------------------------- a selection that rounding shuts out

  /** The same items, worth v inside the selection and nothing outside it. */
  function Revalued(items: seq<Item>, sel: set<string>, v: real): (r: seq<Item>)
    ensures |r| == |items|
    ensures forall i :: 0 <= i < |r| ==> r[i] == items[i].(value := if items[i].id in sel then v else 0.0)
  {
    seq(|items|, i requires 0 <= i < |items| => items[i].(value := if items[i].id in sel then v else 0.0))
  }

  // An item of the selection that the part does not hold.
  ghost predicate Lacks(items: seq<Item>, sel: set<string>, part: set<string>, n: nat) {
    n < |items| && items[n].id in sel && items[n].id !in part
  }

  lemma {:induction false} PartIsWorthLess(items: seq<Item>, sel: set<string>, part: set<string>, v: real)
    requires v > 0.0 && forall i :: 0 <= i < |items| && items[i].id in part ==> items[i].id in sel
    ensures Value(Revalued(items, sel, v), part) <= Value(Revalued(items, sel, v), sel)
    ensures forall n: nat :: Lacks(items, sel, part, n) ==>
      Value(Revalued(items, sel, v), part) <= Value(Revalued(items, sel, v), sel) - v
  {
    if items != [] {
      PartIsWorthLess(items[1..], sel, part, v);
      assert Revalued(items, sel, v)[1..] == Revalued(items[1..], sel, v);
      forall n: nat | Lacks(items, sel, part, n)
        ensures Value(Revalued(items, sel, v), part) <= Value(Revalued(items, sel, v), sel) - v
      {
        if n > 0 {
          var m: nat := n - 1;
          assert Lacks(items[1..], sel, part, m);
        }
      }
    }
  }

  /** If rounding shuts out an affordable selection, some values make every answer miss it by any amount. */
  lemma HarmfulLoses(items: seq<Item>, budget: nat, scale: int, eps: real, sel: set<string>, v: real, ids: seq<string>)
    requires scale >= 1 && DistinctIds(items) && v > 0.0
    requires OnePerKey(items, sel) && Cost(items, sel) <= budget && Weight(items, sel, scale) > budget / scale
    requires ExactChoice(Revalued(items, sel, v), budget, scale, eps, ids)
    ensures OnePerKey(Revalued(items, sel, v), sel) && Cost(Revalued(items, sel, v), sel) <= budget
    ensures Value(Revalued(items, sel, v), AsSet(ids)) <= Value(Revalued(items, sel, v), sel) - v
  {
    var others, part := Revalued(items, sel, v), AsSet(ids);
    SameSums(items, others, sel, scale);
    forall i | 0 <= i < |items| && items[i].id in part ensures items[i].id in sel {
      KeptById(others, GainfulWithin(budget), part, i);
    }
    PartIsWorthLess(items, sel, part, v);
    if forall n: nat :: !Lacks(items, sel, part, n) {
      forall i | 0 <= i < |others| ensures others[i].id in sel <==> others[i].id in part {
        assert !Lacks(items, sel, part, i);
      }
      SumsRestrict(others, sel, part, scale);
    }
  }

  // ---------------------------------------------------------------- there is always an answer

  lemma {:induction false} MostValuable(items: seq<Item>, choices: set<set<string>>) returns (best: set<string>)
    requires choices != {}
    ensures best in choices && forall s :: s in choices ==> Value(items, s) <= Value(items, best)
    decreases |choices|
  {
    var s :| s in choices;
    if choices == {s} {
      best := s;
    } else {
      var rest := choices - {s};
      assert rest != {};
      var other := MostValuable(items, rest);
      best := if Value(items, s) >= Value(items, other) then s else other;
      assert forall t :: t in choices ==> t == s || t in rest;
    }
  }

  lemma {:induction false} Listing<T>(s: set<T>) returns (list: seq<T>)
    ensures Distinct(list) && AsSet(list) == s
    decreases |s|
  {
    if s == {} {
      list := [];
    } else {
      var x :| x in s;
      var rest := Listing(s - {x});
      DistinctAppend(rest, x);
      list := rest + [x];
    }
  }

  lemma {:induction false} SlackGrows(m: nat, n: nat, eps: real)
    requires eps >= 0.0 && m <= n
    ensures 0.0 <= Slack(m, eps) <= Slack(n, eps)
  {
    if n > 0 {
      SlackGrows(if m < n then m else m - 1, n - 1, eps);
    }
  }

  ghost predicate Fitting(items: seq<Item>, capacity: int, scale: int, s: set<string>)
    requires scale >= 1
  {
    OnePerKey(items, s) && Weight(items, s, scale) <= capacity
  }

  // Only the ids of listed items matter to a selection.
  lemma FittingPart(items: seq<Item>, capacity: int, scale: int, s: set<string>)
    requires scale >= 1 && Fitting(items, capacity, scale, s)
    ensures Fitting(items, capacity, scale, s * IdSet(items)) && Value(items, s * IdSet(items)) == Value(items, s)
  {
    forall i | 0 <= i < |items| ensures items[i].id in s <==> items[i].id in s * IdSet(items) {
      assert items[i].id in IdSet(items);
    }
    SumsRestrict(items, s, s * IdSet(items), scale);
  }

  lemma BestFitting(items: seq<Item>, capacity: nat, scale: int) returns (best: set<string>)
    requires scale >= 1
    ensures best <= IdSet(items) && Fitting(items, capacity, scale, best)
    ensures forall s :: Fitting(items, capacity, scale, s) ==> Value(items, s) <= Value(items, best)
  {
    var choices := set s | s <= IdSet(items) && Fitting(items, capacity, scale, s);
    SumsNone(items, {}, scale);
    assert {} in choices;
    best := MostValuable(items, choices);
    forall s | Fitting(items, capacity, scale, s) ensures Value(items, s) <= Value(items, best) {
      FittingPart(items, capacity, scale, s);
      assert s * IdSet(items) in choices;
    }
  }

  lemma AnswerExists(items: seq<Item>, budget: nat, scale: int, eps: real) returns (ids: seq<string>)
    requires scale >= 1 && eps >= 0.0 && DistinctIds(items)
    ensures ExactChoice(items, budget, scale, eps, ids)
  {
    var usable := Keep(items, GainfulWithin(budget));
    var best := BestFitting(usable, budget / scale, scale);
    var list := Listing(best);
    ids := SortBy(list, StrLe);
    SortByMembers(list, StrLe);
    SortByDistinct(list, StrLe);
    StrOrder();
    SortBySorted(list, StrLe);
    assert AsSet(ids) == AsSet(list);
    SlackGrows(0, |Keys(usable)|, eps);
    forall other | OnePerKey(usable, other) && Weight(usable, other, scale) <= budget / scale
      ensures Value(usable, AsSet(ids)) >= Value(usable, other) - Slack(|Keys(usable)|, eps)
    {
      assert Fitting(usable, budget / scale, scale, other);
    }
    ExactFromUsable(items, budget, scale, eps, ids);
  }

  // ---------------------------------------------------------------- the exact condition

  /**
   The answers are optimal in rupiah for all values of the items, up to one tolerance per key, exactly
   when rounding is harmless: a condition on ids, keys, costs, budget and scale alone.
   */
  lemma OptimalExactlyWhenHarmless(items: seq<Item>, budget: nat, scale: int, eps: real)
    requires scale >= 1 && eps >= 0.0 && DistinctIds(items)
    ensures OptimalInRupiah(items, budget, scale, eps) <==> RoundingHarmless(items, budget, scale)
  {
    if RoundingHarmless(items, budget, scale) {
      HarmlessReaches(items, budget, scale, eps);
    } else {
      var sel :| OnePerKey(items, sel) && Cost(items, sel) <= budget && Weight(items, sel, scale) > budget / scale;
      MissedByMore(items, budget, scale, eps, sel);
    }
  }

  lemma KeptKeys(items: seq<Item>, p: Item -> bool)
    ensures Keys(Keep(items, p)) <= Keys(items)
  {
    forall k | k in Keys(Keep(items, p)) ensures k in Keys(items) {
      var i :| 0 <= i < |Keep(items, p)| && Keep(items, p)[i].key == k;
      assert Keep(items, p)[i] in items;
    }
  }

  lemma SlackOfKept(items: seq<Item>, others: seq<Item>, budget: nat, eps: real)
    requires eps >= 0.0 && SameButValues(items, others)
    ensures 0.0 <= Slack(|Keys(Keep(others, GainfulWithin(budget)))|, eps) <= Slack(|Keys(items)|, eps)
  {
    SameSums(items, others, {}, 1);
    KeptKeys(others, GainfulWithin(budget));
    SubsetSize(Keys(Keep(others, GainfulWithin(budget))), Keys(others));
    SlackGrows(|Keys(Keep(others, GainfulWithin(budget)))|, |Keys(items)|, eps);
  }

  lemma MissedByMore(items: seq<Item>, budget: nat, scale: int, eps: real, sel: set<string>)
    requires scale >= 1 && eps >= 0.0 && DistinctIds(items)
    requires OnePerKey(items, sel) && Cost(items, sel) <= budget && Weight(items, sel, scale) > budget / scale
    ensures !OptimalInRupiah(items, budget, scale, eps)
  {
    SlackGrows(0, |Keys(items)|, eps);
    var v := Slack(|Keys(items)|, eps) + 1.0;
    var others := Revalued(items, sel, v);
    SameSums(items, others, sel, scale);
    SlackOfKept(items, others, budget, eps);
    var ids := AnswerExists(others, budget, scale, eps);
    HarmfulLoses(items, budget, scale, eps, sel, v, ids);
    assert !Reaches(others, budget, scale, eps, ids, sel);
  }

  /** Costs that are multiples of the scale, and so every scale of one, are harmless. */
  lemma MultiplesAreHarmless(items: seq<Item>, budget: nat, scale: int)
    requires scale >= 1 && forall i :: 0 <= i < |items| ==> items[i].cost % scale == 0
    ensures RoundingHarmless(items, budget, scale)
  {
    forall sel | OnePerKey(items, sel) && Cost(items, sel) <= budget
      ensures Weight(items, sel, scale) <= budget / scale
    {
      WeightExact(items, sel, scale);
      ScaledFits(Weight(items, sel, scale), Cost(items, sel), 0, budget, scale);
    }
  }
}
