/** The allocation entry point: solver choice, ranks, runner-ups and a reason for every loser. */
module Selection {
  import opened Contracts
  import opened Ordering
  import opened Items
  import opened Bundles
  import Knapsack
  import Greedy

  datatype Config = Config(strategy: string, costScale: int, maxCells: int)

  predicate ByValue(a: Item, b: Item) {
    a.value > b.value || (a.value == b.value && StrLe(a.id, b.id))
  }

  lemma ValueOrder()
    ensures TotalPreorder(ByValue)
  {
    StrOrder();
    forall a, b ensures ByValue(a, b) || ByValue(b, a) {
      assert StrLe(a.id, b.id) || StrLe(b.id, a.id);
    }
    forall a, b, c | ByValue(a, b) && ByValue(b, c) ensures ByValue(a, c) {
      if a.value == c.value {
        StrLeTrans(a.id, b.id, c.id);
      }
    }
  }

  function LowerChar(c: char): char {
    if 'A' <= c <= 'Z' then c - 'A' + 'a' else c
  }

  function Lower(s: string): string {
    if s == [] then [] else [LowerChar(s[0])] + Lower(s[1..])
  }

  predicate WantsExact(config: Config) {
    Lower(config.strategy) == "auto" || Lower(config.strategy) == "exact_dp"
  }

  // ---------------------------------------------------------------- what each item's decision says

  // Some picked item serves this choice key.
  ghost predicate KeyPicked(items: seq<Item>, ids: seq<string>, key: string) {
    exists x :: x in items && x.id in ids && x.key == key
  }

  // Could be shown as the second choice of a key that got a pick.
  ghost predicate Contender(items: seq<Item>, ids: seq<string>, item: Item) {
    item in items && item.id !in ids && item.value > 0.0 && KeyPicked(items, ids, item.key)
  }

  /** The best contender of its key; equal values are decided by item id. */
  ghost predicate IsRunnerUp(items: seq<Item>, ids: seq<string>, item: Item) {
    Contender(items, ids, item) &&
    forall x :: Contender(items, ids, x) && x.key == item.key ==> ByValue(item, x)
  }

  ghost function ReasonFor(items: seq<Item>, ids: seq<string>, item: Item): Option<Reason> {
    if item.id in ids then None
    else if item.value <= 0.0 then Some(NoExpectedGain)
    else if KeyPicked(items, ids, item.key) then Some(RunnerUp)
    else Some(BudgetExhausted)
  }

  /** The picked items, best value first: the n-th one has rank n + 1. */
  ghost predicate RankedPicks(items: seq<Item>, ids: seq<string>, chosen: seq<Item>) {
    && SortedBy(chosen, ByValue) && DistinctIds(chosen)
    && (forall x :: x in chosen <==> x in items && x.id in ids)
  }

  ghost predicate HasRank(chosen: seq<Item>, item: Item, rank: Option<nat>) {
    match rank
    case Some(r) => 1 <= r <= |chosen| && chosen[r - 1] == item
    case None => item !in chosen
  }

  /** Everything a decision about one candidate of an item must say. */
  ghost predicate Decides(items: seq<Item>, ids: seq<string>, chosen: seq<Item>, item: Item, d: Decision) {
    && d.key == item.key && d.priority == item.value && d.cost == item.cost
    && (d.selected <==> item.id in ids)
    && HasRank(chosen, item, d.rank)
    && (d.isRunnerUp <==> IsRunnerUp(items, ids, item))
    && d.reason == ReasonFor(items, ids, item)
  }

  /** Every candidate of every item is decided exactly once, as its item is. */
  ghost predicate Decided(items: seq<Item>, ids: seq<string>, chosen: seq<Item>, ds: seq<Decision>) {
    && multiset(DecisionIds(ds)) == multiset(AllIds(items))
    && forall d :: d in ds ==> DecidedBy(items, ids, chosen, d)
  }

  /** The decisions go item by item in the order of keys and item ids, and within an item candidate by candidate. */
  ghost predicate InItemOrder(items: seq<Item>, ds: seq<Decision>) {
    DecisionIds(ds) == AllIds(SortBy(items, ByKeyThenId))
  }

  ghost predicate DecidedBy(items: seq<Item>, ids: seq<string>, chosen: seq<Item>, d: Decision) {
    exists x :: x in items && d.candidateId in x.candidateIds && Decides(items, ids, chosen, x, d)
  }

  // ---------------------------------------------------------------- the loops

  method PickedItems(items: seq<Item>, ids: seq<string>) returns (chosen: seq<Item>)
    requires DistinctIds(items) && Distinct(ids) && AsSet(ids) <= IdSet(items)
    ensures RankedPicks(items, ids, chosen)
  {
    var byId: map<string, Item> := map[];
    for n := 0 to |items|
      invariant byId.Keys == IdSet(items[..n])
      invariant forall i :: 0 <= i < n ==> items[i].id in byId && byId[items[i].id] == items[i]
    {
      assert IdSet(items[..n + 1]) == IdSet(items[..n]) + {items[n].id} by {
        assert items[..n + 1][n] == items[n];
        assert forall i :: 0 <= i < n ==> items[..n + 1][i] == items[..n][i];
      }
      byId := byId[items[n].id := items[n]];
    }
    assert items[..|items|] == items;
    forall id | id in ids ensures id in byId && byId[id] in items && byId[id].id == id {
      assert id in AsSet(ids);
      var i :| 0 <= i < |items| && items[i].id == id;
    }
    var picked := seq(|ids|, i requires 0 <= i < |ids| => byId[ids[i]]);
    chosen := SortBy(picked, ByValue);
    PickedRanked(items, ids, picked);
  }

  lemma PickedRanked(items: seq<Item>, ids: seq<string>, picked: seq<Item>)
    requires DistinctIds(items) && Distinct(ids) && |picked| == |ids|
    requires forall i :: 0 <= i < |ids| ==> picked[i] in items && picked[i].id == ids[i]
    ensures RankedPicks(items, ids, SortBy(picked, ByValue))
  {
    ValueOrder();
    SortBySorted(picked, ByValue);
    SortByMembers(picked, ByValue);
    assert DistinctIds(picked);
    DistinctIdsFromMultiset(picked, SortBy(picked, ByValue));
    forall x | x in items && x.id in ids ensures x in picked {
      var i :| 0 <= i < |ids| && ids[i] == x.id;
      SameIdSameItem(items, x, picked[i]);
    }
  }

  lemma SameIdSameItem(items: seq<Item>, x: Item, y: Item)
    requires DistinctIds(items) && x in items && y in items && x.id == y.id
    ensures x == y
  {
    var i := SelectedItem(items, x);
    var j := SelectedItem(items, y);
    assert i == j;
  }

  method RanksOf(chosen: seq<Item>) returns (rankOf: map<string, nat>)
    requires DistinctIds(chosen)
    ensures rankOf.Keys == IdSet(chosen)
    ensures forall i :: 0 <= i < |chosen| ==> rankOf[chosen[i].id] == i + 1
  {
    rankOf := map[];
    for n := 0 to |chosen|
      invariant forall id :: id in rankOf <==> exists i :: 0 <= i < n && chosen[i].id == id
      invariant forall i :: 0 <= i < n ==> rankOf[chosen[i].id] == i + 1
    {
      rankOf := rankOf[chosen[n].id := n + 1];
    }
  }

  predicate ContenderTest(item: Item, pickedKeys: set<string>, rankOf: map<string, nat>) {
    item.key in pickedKeys && item.id !in rankOf && item.value > 0.0
  }

  /** The first contender of each key in value order. */
  method RunnerUps(items: seq<Item>, ids: seq<string>, pickedKeys: set<string>, rankOf: map<string, nat>)
    returns (runnerUpOf: map<string, string>)
    requires DistinctIds(items)
    requires forall k :: k in pickedKeys <==> KeyPicked(items, ids, k)
    requires forall x :: x in items ==> (x.id in rankOf <==> x.id in ids)
    ensures forall x :: x in items ==>
      ((x.key in runnerUpOf && runnerUpOf[x.key] == x.id) <==> IsRunnerUp(items, ids, x))
  {
    var sorted := SortBy(items, ByValue);
    ValueOrder();
    SortBySorted(items, ByValue);
    SortByMembers(items, ByValue);
    DistinctIdsFromMultiset(items, sorted);
    runnerUpOf := map[];
    for n := 0 to |sorted|
      invariant FirstContenders(items, ids, sorted, n, runnerUpOf)
    {
      var item := sorted[n];
      assert item in sorted;
      assert ContenderTest(item, pickedKeys, rankOf) <==> Contender(items, ids, item);
      FirstStep(items, ids, sorted, n, runnerUpOf);
      if ContenderTest(item, pickedKeys, rankOf) && item.key !in runnerUpOf {
        runnerUpOf := runnerUpOf[item.key := item.id];
      }
    }
    FirstIsBest(items, ids, sorted, runnerUpOf);
  }

  // Position m of the sorted list holds the recorded runner-up of its key.
  ghost predicate FirstOf(items: seq<Item>, ids: seq<string>, sorted: seq<Item>, n: nat, m: int, key: string,
                          id: string)
    requires n <= |sorted|
  {
    && 0 <= m < n && sorted[m].id == id && sorted[m].key == key && Contender(items, ids, sorted[m])
    && forall i :: 0 <= i < m && Contender(items, ids, sorted[i]) ==> sorted[i].key != key
  }

  ghost predicate FirstContenders(items: seq<Item>, ids: seq<string>, sorted: seq<Item>, n: nat,
                                  runnerUpOf: map<string, string>)
    requires n <= |sorted|
  {
    && (forall k :: k in runnerUpOf ==> exists m :: FirstOf(items, ids, sorted, n, m, k, runnerUpOf[k]))
    && (forall i :: 0 <= i < n && Contender(items, ids, sorted[i]) ==> sorted[i].key in runnerUpOf)
  }

  lemma FirstStep(items: seq<Item>, ids: seq<string>, sorted: seq<Item>, n: nat, runnerUpOf: map<string, string>)
    requires n < |sorted| && FirstContenders(items, ids, sorted, n, runnerUpOf)
    ensures var item := sorted[n];
      FirstContenders(items, ids, sorted, n + 1,
        if Contender(items, ids, item) && item.key !in runnerUpOf then runnerUpOf[item.key := item.id] else runnerUpOf)
  {
    var item := sorted[n];
    var after := if Contender(items, ids, item) && item.key !in runnerUpOf then runnerUpOf[item.key := item.id]
                 else runnerUpOf;
    var next := n + 1;
    forall k | k in after ensures exists m :: FirstOf(items, ids, sorted, next, m, k, after[k]) {
      if k in runnerUpOf {
        var m :| FirstOf(items, ids, sorted, n, m, k, runnerUpOf[k]);
        assert FirstOf(items, ids, sorted, next, m, k, after[k]);
      } else {
        assert FirstOf(items, ids, sorted, next, n, k, after[k]);
      }
    }
  }

  lemma FirstIsBest(items: seq<Item>, ids: seq<string>, sorted: seq<Item>, runnerUpOf: map<string, string>)
    requires DistinctIds(items) && SortedBy(sorted, ByValue) && (forall x :: x in sorted <==> x in items)
    requires FirstContenders(items, ids, sorted, |sorted|, runnerUpOf)
    ensures forall x :: x in items ==>
      ((x.key in runnerUpOf && runnerUpOf[x.key] == x.id) <==> IsRunnerUp(items, ids, x))
  {
    forall x | x in items ensures (x.key in runnerUpOf && runnerUpOf[x.key] == x.id) <==> IsRunnerUp(items, ids, x) {
      BestContender(items, ids, sorted, runnerUpOf, x);
    }
  }

  lemma BestContender(items: seq<Item>, ids: seq<string>, sorted: seq<Item>, runnerUpOf: map<string, string>, x: Item)
    requires DistinctIds(items) && SortedBy(sorted, ByValue) && (forall y :: y in sorted <==> y in items)
    requires FirstContenders(items, ids, sorted, |sorted|, runnerUpOf) && x in items
    ensures (x.key in runnerUpOf && runnerUpOf[x.key] == x.id) <==> IsRunnerUp(items, ids, x)
  {
    if x.key in runnerUpOf {
      var m :| FirstOf(items, ids, sorted, |sorted|, m, x.key, runnerUpOf[x.key]);
      var best := sorted[m];
      forall y | Contender(items, ids, y) && y.key == x.key ensures ByValue(best, y) {
        assert y in sorted;
        var i := SelectedItem(sorted, y);
        ValueOrder();
        assert i >= m;
      }
      assert best in sorted;
      assert IsRunnerUp(items, ids, best);
      if best.id == x.id {
        SameIdSameItem(items, best, x);
      } else if IsRunnerUp(items, ids, x) {
        assert ByValue(best, x) && ByValue(x, best);
        StrOrder();
        assert false;
      }
    } else {
      assert x in sorted;
      var i := SelectedItem(sorted, x);
      assert !Contender(items, ids, x);
    }
  }

  method DecideItem(item: Item, pickedKeys: set<string>, rankOf: map<string, nat>, runnerUpOf: map<string, string>,
                    ghost items: seq<Item>, ghost ids: seq<string>, ghost chosen: seq<Item>)
    returns (ds: seq<Decision>)
    requires item in items && RankedPicks(items, ids, chosen) && DistinctIds(items)
    requires forall k :: k in pickedKeys <==> KeyPicked(items, ids, k)
    requires rankOf.Keys == IdSet(chosen)
    requires forall i :: 0 <= i < |chosen| ==> rankOf[chosen[i].id] == i + 1
    requires (item.key in runnerUpOf && runnerUpOf[item.key] == item.id) <==> IsRunnerUp(items, ids, item)
    ensures DecisionIds(ds) == item.candidateIds
    ensures forall d :: d in ds ==> d.candidateId in item.candidateIds && Decides(items, ids, chosen, item, d)
  {
    RankOfItem(items, ids, chosen, rankOf, item);
    var selected := item.id in rankOf;
    var reason: Option<Reason>;
    if selected {
      reason := None;
    } else if item.value <= 0.0 {
      reason := Some(NoExpectedGain);
    } else if item.key in pickedKeys {
      reason := Some(RunnerUp);
    } else {
      reason := Some(BudgetExhausted);
    }
    ds := [];
    for n := 0 to |item.candidateIds|
      invariant DecisionIds(ds) == item.candidateIds[..n]
      invariant forall d :: d in ds ==> d.candidateId in item.candidateIds && Decides(items, ids, chosen, item, d)
    {
      ds := ds + [Decision(item.candidateIds[n], item.key, selected, item.value, item.cost, Lookup(rankOf, item.id),
                           item.key in runnerUpOf && runnerUpOf[item.key] == item.id, reason)];
    }
  }

  lemma RankOfItem(items: seq<Item>, ids: seq<string>, chosen: seq<Item>, rankOf: map<string, nat>, item: Item)
    requires item in items && RankedPicks(items, ids, chosen) && DistinctIds(items)
    requires rankOf.Keys == IdSet(chosen)
    requires forall i :: 0 <= i < |chosen| ==> rankOf[chosen[i].id] == i + 1
    ensures item.id in rankOf <==> item.id in ids
    ensures HasRank(chosen, item, Lookup(rankOf, item.id))
  {
    forall i | 0 <= i < |chosen| ensures chosen[i].id == item.id ==> chosen[i] == item {
      assert chosen[i] in chosen;
      if chosen[i].id == item.id {
        SameIdSameItem(items, chosen[i], item);
      }
    }
    if item in chosen {
      var i := SelectedItem(chosen, item);
      assert chosen[i].id in IdSet(chosen);
    }
  }

  method Decide(items: seq<Item>, ids: seq<string>) returns (chosen: seq<Item>, ds: seq<Decision>)
    requires DistinctIds(items) && Distinct(ids) && AsSet(ids) <= IdSet(items)
    ensures RankedPicks(items, ids, chosen) && Decided(items, ids, chosen, ds) && InItemOrder(items, ds)
  {
    chosen := PickedItems(items, ids);
    var pickedKeys := set i | 0 <= i < |chosen| :: chosen[i].key;
    PickedKeysAreKeys(items, ids, chosen);
    var rankOf := RanksOf(chosen);
    forall x | x in items ensures x.id in rankOf <==> x.id in ids {
      RankOfItem(items, ids, chosen, rankOf, x);
    }
    var runnerUpOf := RunnerUps(items, ids, pickedKeys, rankOf);
    ds := DecideAll(SortBy(items, ByKeyThenId), pickedKeys, rankOf, runnerUpOf, items, ids, chosen);
    AllIdsPermuted(SortBy(items, ByKeyThenId), items);
  }

  /** The decisions item by item, in key order. */
  method DecideAll(sorted: seq<Item>, pickedKeys: set<string>, rankOf: map<string, nat>,
                   runnerUpOf: map<string, string>, ghost items: seq<Item>, ghost ids: seq<string>,
                   ghost chosen: seq<Item>)
    returns (ds: seq<Decision>)
    requires multiset(sorted) == multiset(items) && RankedPicks(items, ids, chosen) && DistinctIds(items)
    requires forall k :: k in pickedKeys <==> KeyPicked(items, ids, k)
    requires rankOf.Keys == IdSet(chosen)
    requires forall i :: 0 <= i < |chosen| ==> rankOf[chosen[i].id] == i + 1
    requires forall x :: x in items ==>
      ((x.key in runnerUpOf && runnerUpOf[x.key] == x.id) <==> IsRunnerUp(items, ids, x))
    ensures DecisionIds(ds) == AllIds(sorted)
    ensures forall d :: d in ds ==> DecidedBy(items, ids, chosen, d)
  {
    MembersFromMultiset(sorted, items);
    ds := [];
    for n := 0 to |sorted|
      invariant DecisionIds(ds) == AllIds(sorted[..n])
      invariant forall d :: d in ds ==> DecidedBy(items, ids, chosen, d)
    {
      assert sorted[n] in sorted;
      var more := DecideItem(sorted[n], pickedKeys, rankOf, runnerUpOf, items, ids, chosen);
      DecideOne(sorted, n, ds, more, items, ids, chosen);
      ds := ds + more;
    }
    assert sorted[..|sorted|] == sorted;
  }

  lemma DecideOne(sorted: seq<Item>, n: nat, ds: seq<Decision>, more: seq<Decision>, items: seq<Item>, ids: seq<string>,
                  chosen: seq<Item>)
    requires n < |sorted| && sorted[n] in items
    requires DecisionIds(ds) == AllIds(sorted[..n]) && DecisionIds(more) == sorted[n].candidateIds
    requires forall d :: d in ds ==> DecidedBy(items, ids, chosen, d)
    requires forall d :: d in more ==>
      d.candidateId in sorted[n].candidateIds && Decides(items, ids, chosen, sorted[n], d)
    ensures DecisionIds(ds + more) == AllIds(sorted[..n + 1])
    ensures forall d :: d in ds + more ==> DecidedBy(items, ids, chosen, d)
  {
    AllIdsOne(sorted, n);
    assert DecisionIds(ds + more) == DecisionIds(ds) + DecisionIds(more);
  }

  lemma AllIdsOne(items: seq<Item>, n: nat)
    requires n < |items|
    ensures AllIds(items[..n + 1]) == AllIds(items[..n]) + items[n].candidateIds
  {
    assert items[..n + 1] == items[..n] + [items[n]];
    AllIdsSplit(items[..n], [items[n]]);
    assert AllIds([items[n]]) == items[n].candidateIds + AllIds([]);
  }

  lemma PickedKeysAreKeys(items: seq<Item>, ids: seq<string>, chosen: seq<Item>)
    requires RankedPicks(items, ids, chosen)
    ensures forall k :: k in (set i | 0 <= i < |chosen| :: chosen[i].key) <==> KeyPicked(items, ids, k)
  {
    forall k ensures k in (set i | 0 <= i < |chosen| :: chosen[i].key) <==> KeyPicked(items, ids, k) {
      if k in (set i | 0 <= i < |chosen| :: chosen[i].key) {
        var i :| 0 <= i < |chosen| && chosen[i].key == k;
        assert chosen[i] in chosen;
      }
      if KeyPicked(items, ids, k) {
        var x :| x in items && x.id in ids && x.key == k;
        var i := SelectedItem(chosen, x);
      }
    }
  }

  lemma AllIdsRemove(items: seq<Item>, j: nat)
    requires j < |items|
    ensures multiset(AllIds(items)) == multiset(items[j].candidateIds) + multiset(AllIds(items[..j] + items[j + 1..]))
  {
    AllIdsSplit(items[..j], items[j + 1..]);
    assert items == items[..j + 1] + items[j + 1..];
    AllIdsSplit(items[..j + 1], items[j + 1..]);
    AllIdsOne(items, j);
  }

  lemma {:induction false} AllIdsPermuted(a: seq<Item>, b: seq<Item>)
    requires multiset(a) == multiset(b)
    ensures multiset(AllIds(a)) == multiset(AllIds(b))
  {
    if a == [] {
      assert |multiset(b)| == 0;
    } else {
      var j := RemoveFirst(a, b);
      AllIdsPermuted(a[1..], b[..j] + b[j + 1..]);
      AllIdsRemove(b, j);
    }
  }

  // ---------------------------------------------------------------- the allocation

  /** The whole promise of an allocation. */
  ghost predicate Allocated(rs: seq<Ranked>, budget: nat, config: Config, eps: real, result: AllocationResult,
                            ids: seq<string>, chosen: seq<Item>)
    requires config.costScale >= 1
  {
    var items := ItemsOf(rs);
    && SoundChoice(items, budget, ids) && RankedPicks(items, ids, chosen)
    && Decided(items, ids, chosen, result.decisions) && InItemOrder(items, result.decisions)
    && result.budget == budget
    && result.spent == Cost(items, AsSet(ids)) && result.objective == Value(items, AsSet(ids))
    && (result.strategy == ExactDP <==> WantsExact(config) && FitsTable(items, budget, config))
    && (result.strategy == ExactDP ==> Knapsack.ExactChoice(items, budget, config.costScale, eps, ids))
    && (result.strategy == GreedyDensity ==> Greedy.GreedyChoice(items, budget, ids))
  }

  // The exact solver's table stays within the cell limit; without usable items there is no table.
  ghost predicate FitsTable(items: seq<Item>, budget: nat, config: Config)
    requires config.costScale >= 1
  {
    var usable := Keep(items, GainfulWithin(budget));
    usable == [] || |Keys(usable)| * (budget / config.costScale + 1) <= config.maxCells
  }

  lemma ExactIsSound(items: seq<Item>, budget: nat, scale: int, eps: real, ids: seq<string>)
    requires scale >= 1 && Knapsack.ExactChoice(items, budget, scale, eps, ids)
    ensures SoundChoice(items, budget, ids)
  {
    var usable, gainful := Keep(items, GainfulWithin(budget)), Keep(items, Gainful());
    forall id | id in IdSet(usable) ensures id in IdSet(gainful) {
      var i :| 0 <= i < |usable| && usable[i].id == id;
      assert usable[i] in usable;
      var j := SelectedItem(gainful, usable[i]);
    }
  }

  lemma ChosenExist(items: seq<Item>, budget: nat, ids: seq<string>)
    requires SoundChoice(items, budget, ids)
    ensures AsSet(ids) <= IdSet(items)
  {
    var gainful := Keep(items, Gainful());
    forall id | id in AsSet(ids) ensures id in IdSet(items) {
      var i :| 0 <= i < |gainful| && gainful[i].id == id;
      assert gainful[i] in gainful;
      var j := SelectedItem(items, gainful[i]);
    }
  }

  /** Exact when asked for and small enough, greedy otherwise. */
  method Choose(items: seq<Item>, budget: nat, config: Config, eps: real) returns (strategy: Strategy, ids: seq<string>)
    requires DistinctIds(items) && config.costScale >= 1 && eps >= 0.0
    ensures SoundChoice(items, budget, ids)
    ensures strategy == ExactDP <==> WantsExact(config) && FitsTable(items, budget, config)
    ensures strategy == ExactDP ==> Knapsack.ExactChoice(items, budget, config.costScale, eps, ids)
    ensures strategy == GreedyDensity ==> Greedy.GreedyChoice(items, budget, ids)
  {
    strategy := GreedyDensity;
    if WantsExact(config) {
      var outcome := ChooseExact(items, budget, config, eps);
      if outcome.Chosen? {
        return ExactDP, outcome.ids;
      }
    }
    ids := Greedy.Solve(items, budget);
    Greedy.GreedyIsSound(items, budget, ids);
  }

  method ChooseExact(items: seq<Item>, budget: nat, config: Config, eps: real) returns (outcome: Knapsack.Outcome)
    requires DistinctIds(items) && config.costScale >= 1 && eps >= 0.0
    ensures outcome.Chosen? <==> FitsTable(items, budget, config)
    ensures outcome.Chosen? ==> Knapsack.ExactChoice(items, budget, config.costScale, eps, outcome.ids)
    ensures outcome.Chosen? ==> SoundChoice(items, budget, outcome.ids)
  {
    outcome := Knapsack.Solve(items, budget, config.costScale, config.maxCells, eps);
    if outcome.Chosen? {
      ExactIsSound(items, budget, config.costScale, eps, outcome.ids);
    }
  }

  method Allocate(rs: seq<Ranked>, budget: nat, config: Config, eps: real) returns (result: AllocationResult)
    requires DistinctIds(ItemsOf(rs)) && config.costScale >= 1 && eps >= 0.0
    ensures exists ids, chosen :: Allocated(rs, budget, config, eps, result, ids, chosen)
  {
    var items := BuildItems(rs);
    var strategy, picked := Choose(items, budget, config, eps);
    ChosenExist(items, budget, picked);
    var ranked, decisions := Decide(items, picked);
    PickedTotals(items, AsSet(picked), ranked);
    result := AllocationResult(strategy, budget, CostOf(ranked), ValueOf(ranked), decisions);
    assert Allocated(rs, budget, config, eps, result, picked, ranked);
  }

  // ---------------------------------------------------------------- what the promise means for candidates

  /** Conservation: every candidate gets exactly one decision. */
  lemma OneDecisionEach(rs: seq<Ranked>, ids: seq<string>, chosen: seq<Item>, ds: seq<Decision>)
    requires WellFormed(rs) && Decided(ItemsOf(rs), ids, chosen, ds)
    ensures multiset(DecisionIds(ds)) == multiset(CandidateIds(rs)) && Distinct(DecisionIds(ds))
  {
    ItemsCoverCandidates(rs);
    DistinctFromMultiset(CandidateIds(rs), DecisionIds(ds));
  }

  lemma {:induction false} OneHome(items: seq<Item>, x: Item, y: Item, id: string)
    requires Distinct(AllIds(items)) && x in items && y in items
    requires id in x.candidateIds && id in y.candidateIds
    ensures x == y
  {
    DistinctParts(items[0].candidateIds, AllIds(items[1..]));
    if x in items[1..] { InAllIds(items[1..], x, id); }
    if y in items[1..] { InAllIds(items[1..], y, id); }
    if x in items[1..] && y in items[1..] {
      OneHome(items[1..], x, y, id);
    }
  }

  lemma {:induction false} InAllIds(items: seq<Item>, x: Item, id: string)
    requires x in items && id in x.candidateIds
    ensures id in AllIds(items)
  {
    if x != items[0] {
      InAllIds(items[1..], x, id);
    }
  }

  /** Bundle members share one outcome: decisions from the same item differ in the candidate only. */
  lemma SharedOutcome(rs: seq<Ranked>, ids: seq<string>, chosen: seq<Item>, ds: seq<Decision>, x: Item, d: Decision,
                      e: Decision)
    requires WellFormed(rs) && Decided(ItemsOf(rs), ids, chosen, ds) && RankedPicks(ItemsOf(rs), ids, chosen)
    requires x in ItemsOf(rs) && d in ds && e in ds && d.candidateId in x.candidateIds
    requires e.candidateId in x.candidateIds
    ensures d == e.(candidateId := d.candidateId)
    ensures Decides(ItemsOf(rs), ids, chosen, x, d) && Decides(ItemsOf(rs), ids, chosen, x, e)
  {
    HomeDecides(rs, ids, chosen, ds, x, d);
    HomeDecides(rs, ids, chosen, ds, x, e);
    RankUnique(chosen, x, d.rank, e.rank);
  }

  lemma RankUnique(chosen: seq<Item>, x: Item, a: Option<nat>, b: Option<nat>)
    requires DistinctIds(chosen) && HasRank(chosen, x, a) && HasRank(chosen, x, b)
    ensures a == b
  {
    if a.Some? && b.Some? {
      assert chosen[a.value - 1].id == chosen[b.value - 1].id;
    }
  }

  lemma HomeDecides(rs: seq<Ranked>, ids: seq<string>, chosen: seq<Item>, ds: seq<Decision>, x: Item, d: Decision)
    requires WellFormed(rs) && Decided(ItemsOf(rs), ids, chosen, ds)
    requires x in ItemsOf(rs) && d in ds && d.candidateId in x.candidateIds
    ensures Decides(ItemsOf(rs), ids, chosen, x, d)
  {
    var items := ItemsOf(rs);
    ItemsCoverCandidates(rs);
    DistinctFromMultiset(CandidateIds(rs), AllIds(items));
    var y :| y in items && d.candidateId in y.candidateIds && Decides(items, ids, chosen, y, d);
    OneHome(items, x, y, d.candidateId);
  }

  /** A group offer is allocated all or nothing, with one rank and one reason for all its members. */
  lemma GroupAllOrNothing(rs: seq<Ranked>, ids: seq<string>, chosen: seq<Item>, ds: seq<Decision>, k: Offer, a: Ranked,
                          b: Ranked, d: Decision, e: Decision)
    requires WellFormed(rs) && Decided(ItemsOf(rs), ids, chosen, ds) && RankedPicks(ItemsOf(rs), ids, chosen)
    requires a in rs && b in rs && InOffer(a, k) && InOffer(b, k)
    requires d in ds && e in ds && d.candidateId == a.candidate.id && e.candidateId == b.candidate.id
    ensures d == e.(candidateId := d.candidateId)
  {
    BundleListed(rs, k, a);
    MemberIds(rs, k, a);
    MemberIds(rs, k, b);
    SharedOutcome(rs, ids, chosen, ds, BundleItem(k, Members(rs, k)), d, e);
  }

  lemma BundleListed(rs: seq<Ranked>, k: Offer, r: Ranked)
    requires r in rs && InOffer(r, k)
    ensures BundleItem(k, Members(rs, k)) in ItemsOf(rs)
  {
    OfferPresent(rs, k, r);
    assert IsBundle(rs, Offers(rs), BundleItem(k, Members(rs, k)), k);
    ItemForm(rs, BundleItem(k, Members(rs, k)));
  }

  lemma OfferPresent(rs: seq<Ranked>, k: Offer, r: Ranked)
    requires r in rs && InOffer(r, k)
    ensures k in Offers(rs)
  {
    OffersListed(rs);
    assert Offered(r, Offers(rs)) && k == Offer(r.candidate.group.value, r.candidate.incentive);
  }

  lemma {:induction false} MembersMeaning(rs: seq<Ranked>, k: Offer)
    ensures forall r :: r in Members(rs, k) <==> r in rs && InOffer(r, k)
  {
    if rs != [] {
      assert rs == rs[..|rs| - 1] + [rs[|rs| - 1]];
      MembersMeaning(rs[..|rs| - 1], k);
    }
  }

  lemma MemberIds(rs: seq<Ranked>, k: Offer, r: Ranked)
    requires r in rs && InOffer(r, k)
    ensures r.candidate.id in BundleItem(k, Members(rs, k)).candidateIds
  {
    MembersMeaning(rs, k);
    var sorted := SortBy(Members(rs, k), ByCandidateId);
    SortByMembers(Members(rs, k), ByCandidateId);
    var i :| 0 <= i < |sorted| && sorted[i] == r;
    assert CandidateIds(sorted)[i] == r.candidate.id;
  }

  /** At most one item of a choice key is selected: its selected decisions share one rank. */
  lemma OnePickPerKey(rs: seq<Ranked>, budget: nat, ids: seq<string>, chosen: seq<Item>, ds: seq<Decision>, d: Decision,
                      e: Decision)
    requires WellFormed(rs) && Decided(ItemsOf(rs), ids, chosen, ds) && RankedPicks(ItemsOf(rs), ids, chosen)
    requires SoundChoice(ItemsOf(rs), budget, ids)
    requires d in ds && e in ds && d.selected && e.selected && d.key == e.key
    ensures d == e.(candidateId := d.candidateId)
  {
    var items := ItemsOf(rs);
    var x :| x in items && d.candidateId in x.candidateIds && Decides(items, ids, chosen, x, d);
    var y :| y in items && e.candidateId in y.candidateIds && Decides(items, ids, chosen, y, e);
    var i := SelectedItem(items, x);
    var j := SelectedItem(items, y);
    assert i == j;
    SharedOutcome(rs, ids, chosen, ds, x, d, e);
  }

  /** A key has at most one runner-up item, and has one whenever a contender exists. */
  lemma OneRunnerUp(rs: seq<Ranked>, ids: seq<string>, chosen: seq<Item>, ds: seq<Decision>, d: Decision, e: Decision)
    requires WellFormed(rs) && Decided(ItemsOf(rs), ids, chosen, ds) && RankedPicks(ItemsOf(rs), ids, chosen)
    requires d in ds && e in ds && d.key == e.key && d.isRunnerUp && e.isRunnerUp
    ensures d == e.(candidateId := d.candidateId)
  {
    var items := ItemsOf(rs);
    var x :| x in items && d.candidateId in x.candidateIds && Decides(items, ids, chosen, x, d);
    var y :| y in items && e.candidateId in y.candidateIds && Decides(items, ids, chosen, y, e);
    assert ByValue(x, y) && ByValue(y, x);
    StrOrder();
    SameIdSameItem(items, x, y);
    SharedOutcome(rs, ids, chosen, ds, x, d, e);
  }

  lemma RunnerUpExists(items: seq<Item>, ids: seq<string>, x: Item)
    requires Contender(items, ids, x)
    ensures exists y :: IsRunnerUp(items, ids, y) && y.key == x.key
  {
    var sorted := SortBy(items, ByValue);
    ValueOrder();
    SortBySorted(items, ByValue);
    SortByMembers(items, ByValue);
    var n := SelectedItem(sorted, x);
    var m := FirstContender(items, ids, sorted, x.key, n);
    forall y | Contender(items, ids, y) && y.key == x.key ensures ByValue(sorted[m], y) {
      var i := SelectedItem(sorted, y);
      assert m <= i;
    }
    assert IsRunnerUp(items, ids, sorted[m]);
  }

  lemma {:induction false} FirstContender(items: seq<Item>, ids: seq<string>, sorted: seq<Item>, key: string, n: nat)
    returns (m: nat)
    requires n < |sorted| && Contender(items, ids, sorted[n]) && sorted[n].key == key
    ensures m < |sorted| && Contender(items, ids, sorted[m]) && sorted[m].key == key
    ensures forall i :: 0 <= i < m && sorted[i].key == key ==> !Contender(items, ids, sorted[i])
  {
    if i :| 0 <= i < n && sorted[i].key == key && Contender(items, ids, sorted[i]) {
      m := FirstContender(items, ids, sorted, key, i);
    } else {
      m := n;
    }
  }

  /** Ranks lie in 1..k, follow descending value, and mark exactly the selected; losers have a reason. */
  lemma RanksDescend(rs: seq<Ranked>, ids: seq<string>, chosen: seq<Item>, ds: seq<Decision>)
    requires WellFormed(rs) && Decided(ItemsOf(rs), ids, chosen, ds) && RankedPicks(ItemsOf(rs), ids, chosen)
    ensures forall d :: d in ds ==> (d.selected <==> d.rank.Some?) && (d.selected <==> d.reason.None?)
    ensures forall d :: d in ds && d.rank.Some? ==> 1 <= d.rank.value <= |chosen|
    ensures forall d, e :: d in ds && e in ds && d.rank.Some? && e.rank.Some? && d.rank.value < e.rank.value ==>
      d.priority >= e.priority
  {
    var items := ItemsOf(rs);
    forall d | d in ds ensures (d.selected <==> d.rank.Some?) && (d.selected <==> d.reason.None?)
      && (d.rank.Some? ==> 1 <= d.rank.value <= |chosen| && chosen[d.rank.value - 1].value == d.priority)
    {
      var x :| x in items && d.candidateId in x.candidateIds && Decides(items, ids, chosen, x, d);
    }
    assert forall a, b :: 0 <= a < b < |chosen| ==> chosen[a].value >= chosen[b].value by {
      assert forall a, b :: 0 <= a < b < |chosen| ==> ByValue(chosen[a], chosen[b]);
    }
  }

  /** Every rank in 1..k is given to someone. */
  lemma RankHolder(rs: seq<Ranked>, ids: seq<string>, chosen: seq<Item>, ds: seq<Decision>, r: nat)
    returns (d: Decision)
    requires WellFormed(rs) && Decided(ItemsOf(rs), ids, chosen, ds) && RankedPicks(ItemsOf(rs), ids, chosen)
    requires 1 <= r <= |chosen|
    ensures d in ds && d.rank == Some(r)
  {
    var items := ItemsOf(rs);
    var x := chosen[r - 1];
    assert x in chosen && x in items;
    ItemHasCandidate(rs, x);
    InAllIds(items, x, x.candidateIds[0]);
    MembersFromMultiset(DecisionIds(ds), AllIds(items));
    var i :| 0 <= i < |ds| && DecisionIds(ds)[i] == x.candidateIds[0];
    d := ds[i];
    HomeDecides(rs, ids, chosen, ds, x, d);
    RankUnique(chosen, x, d.rank, Some(r));
  }

  lemma ItemHasCandidate(rs: seq<Ranked>, x: Item)
    requires x in ItemsOf(rs)
    ensures x.candidateIds != []
  {
    ItemForm(rs, x);
    if k :| IsBundle(rs, Offers(rs), x, k) {
      OffersListed(rs);
      var r :| r in rs && InOffer(r, k);
      MemberIds(rs, k, r);
    }
  }

  // A passed-over item with a positive value whose key got no pick.
  lemma ExhaustedItem(items: seq<Item>, ids: seq<string>, x: Item) returns (n: nat)
    requires x in items && ReasonFor(items, ids, x) == Some(BudgetExhausted)
    ensures n < |items| && items[n] == x && x.value > 0.0 && KeyUnpicked(items, ids, n)
  {
    n := SelectedItem(items, x);
    forall i | 0 <= i < |items| && items[i].id in AsSet(ids) ensures items[i].key != x.key {
      assert items[i] in items;
    }
  }

  /**
   The reason BUDGET_EXHAUSTED is true: under greedy the offer costs more than what is left of the budget, and
   under the exact solver an offer worth more than the whole tolerance does not fit beside the picks in scaled units.
   */
  lemma ExhaustedIsTrue(rs: seq<Ranked>, budget: nat, config: Config, eps: real, result: AllocationResult,
                        ids: seq<string>, chosen: seq<Item>, d: Decision)
    requires DistinctIds(ItemsOf(rs)) && config.costScale >= 1
    requires Allocated(rs, budget, config, eps, result, ids, chosen)
    requires d in result.decisions && d.reason == Some(BudgetExhausted)
    ensures result.strategy == GreedyDensity ==> d.cost > budget - result.spent
    ensures var items, scale := ItemsOf(rs), config.costScale;
      result.strategy == ExactDP && d.priority > Knapsack.Slack(|Keys(Keep(items, GainfulWithin(budget)))|, eps) ==>
        Weight(items, AsSet(ids), scale) + Units(d.cost, scale) > budget / scale
  {
    var items := ItemsOf(rs);
    var n := ExhaustedDecision(items, ids, chosen, d);
    if result.strategy == GreedyDensity {
      Greedy.ExhaustedMeansTooDear(items, budget, ids, n);
    } else {
      ExactlyExhausted(items, budget, config.costScale, eps, ids, n);
    }
  }

  lemma ExhaustedDecision(items: seq<Item>, ids: seq<string>, chosen: seq<Item>, d: Decision) returns (n: nat)
    requires DecidedBy(items, ids, chosen, d) && d.reason == Some(BudgetExhausted)
    ensures n < |items| && items[n].value > 0.0 && KeyUnpicked(items, ids, n)
    ensures items[n].cost == d.cost && items[n].value == d.priority
  {
    var x :| x in items && d.candidateId in x.candidateIds && Decides(items, ids, chosen, x, d);
    n := ExhaustedItem(items, ids, x);
  }

  lemma ExactlyExhausted(items: seq<Item>, budget: nat, scale: int, eps: real, ids: seq<string>, n: nat)
    requires scale >= 1 && DistinctIds(items) && Knapsack.ExactChoice(items, budget, scale, eps, ids)
    requires n < |items| && KeyUnpicked(items, ids, n)
    ensures items[n].value > Knapsack.Slack(|Keys(Keep(items, GainfulWithin(budget)))|, eps) ==>
      Weight(items, AsSet(ids), scale) + Units(items[n].cost, scale) > budget / scale
  {
    if items[n].value > Knapsack.Slack(|Keys(Keep(items, GainfulWithin(budget)))|, eps) {
      Knapsack.ExhaustedMeansFull(items, budget, scale, eps, ids, n);
    }
  }

  // ---------------------------------------------------------------- what a decision says, in terms of the others

  // The same text but for the case of its ASCII letters.
  ghost predicate SameIgnoringCase(s: string, t: string) {
    |s| == |t| && forall i :: 0 <= i < |s| ==> s[i] == t[i] || ('A' <= s[i] <= 'Z' && t[i] as int == s[i] as int + 32)
  }

  lemma {:induction false} LowerAt(s: string)
    ensures |Lower(s)| == |s| && forall i :: 0 <= i < |s| ==> Lower(s)[i] == LowerChar(s[i])
  {
    if s != [] {
      LowerAt(s[1..]);
    }
  }

  lemma LowerMeans(s: string, t: string)
    requires forall i :: 0 <= i < |t| ==> !('A' <= t[i] <= 'Z')
    ensures Lower(s) == t <==> SameIgnoringCase(s, t)
  {
    LowerAt(s);
    if |s| == |t| {
      assert forall i :: 0 <= i < |s| ==>
        (LowerChar(s[i]) == t[i] <==> s[i] == t[i] || ('A' <= s[i] <= 'Z' && t[i] as int == s[i] as int + 32));
    }
  }

  /** The exact solver is asked for by the names "auto" and "exact_dp", in any case, and by no others. */
  lemma ExactNames(config: Config)
    ensures WantsExact(config) <==>
      SameIgnoringCase(config.strategy, "auto") || SameIgnoringCase(config.strategy, "exact_dp")
  {
    LowerMeans(config.strategy, "auto");
    LowerMeans(config.strategy, "exact_dp");
  }

  /** Picks are ranked by falling value, and by id where values are equal. */
  lemma RankOrder(items: seq<Item>, ids: seq<string>, chosen: seq<Item>, i: nat, j: nat)
    requires RankedPicks(items, ids, chosen) && i < j < |chosen|
    ensures chosen[i].value > chosen[j].value ||
      (chosen[i].value == chosen[j].value && StrLt(chosen[i].id, chosen[j].id))
  {
    assert ByValue(chosen[i], chosen[j]) && chosen[i].id != chosen[j].id;
  }

  // Some selected decision serves this key.
  ghost predicate KeyServed(ds: seq<Decision>, key: string) {
    exists e :: e in ds && e.selected && e.key == key
  }

  lemma ServedMeansPicked(rs: seq<Ranked>, ids: seq<string>, chosen: seq<Item>, ds: seq<Decision>, key: string)
    requires WellFormed(rs) && Decided(ItemsOf(rs), ids, chosen, ds)
    ensures KeyServed(ds, key) <==> KeyPicked(ItemsOf(rs), ids, key)
  {
    var items := ItemsOf(rs);
    if e :| e in ds && e.selected && e.key == key {
      var x :| x in items && e.candidateId in x.candidateIds && Decides(items, ids, chosen, x, e);
    }
    if KeyPicked(items, ids, key) {
      var x :| x in items && x.id in ids && x.key == key;
      ItemHasCandidate(rs, x);
      var e := DecisionOfItem(rs, ids, chosen, ds, x);
    }
  }

  lemma DecisionOfItem(rs: seq<Ranked>, ids: seq<string>, chosen: seq<Item>, ds: seq<Decision>, x: Item)
    returns (e: Decision)
    requires WellFormed(rs) && Decided(ItemsOf(rs), ids, chosen, ds) && x in ItemsOf(rs) && x.candidateIds != []
    ensures e in ds && Decides(ItemsOf(rs), ids, chosen, x, e)
  {
    InAllIds(ItemsOf(rs), x, x.candidateIds[0]);
    MembersFromMultiset(DecisionIds(ds), AllIds(ItemsOf(rs)));
    var i :| 0 <= i < |ds| && DecisionIds(ds)[i] == x.candidateIds[0];
    e := ds[i];
    HomeDecides(rs, ids, chosen, ds, x, e);
  }

  /**
   Every loser is told the right reason: NO_EXPECTED_GAIN exactly when its value is not positive, else RUNNER_UP exactly
   when another decision with its key is selected, else BUDGET_EXHAUSTED. The selected ones have no reason.
   */
  lemma ReasonsAreTrue(rs: seq<Ranked>, ids: seq<string>, chosen: seq<Item>, ds: seq<Decision>, d: Decision)
    requires WellFormed(rs) && Decided(ItemsOf(rs), ids, chosen, ds) && d in ds
    ensures d.reason == None <==> d.selected
    ensures d.reason == Some(NoExpectedGain) <==> !d.selected && d.priority <= 0.0
    ensures d.reason == Some(RunnerUp) <==> !d.selected && d.priority > 0.0 && KeyServed(ds, d.key)
    ensures d.reason == Some(BudgetExhausted) <==> !d.selected && d.priority > 0.0 && !KeyServed(ds, d.key)
  {
    var x :| x in ItemsOf(rs) && d.candidateId in x.candidateIds && Decides(ItemsOf(rs), ids, chosen, x, d);
    ServedMeansPicked(rs, ids, chosen, ds, d.key);
  }

  /**
   A decision is flagged as runner-up exactly when it is a positive loser of a served key and no other positive loser
   of that key is worth more, or as much with a smaller item id.
   */
  lemma RunnerUpExactly(rs: seq<Ranked>, ids: seq<string>, chosen: seq<Item>, ds: seq<Decision>, x: Item, d: Decision)
    requires WellFormed(rs) && Decided(ItemsOf(rs), ids, chosen, ds)
    requires x in ItemsOf(rs) && d in ds && d.candidateId in x.candidateIds
    ensures d.isRunnerUp <==>
      && !d.selected && d.priority > 0.0 && KeyServed(ds, d.key)
      && forall y :: y in ItemsOf(rs) && y.id !in ids && y.value > 0.0 && y.key == d.key ==>
           d.priority > y.value || (d.priority == y.value && (x.id == y.id || StrLt(x.id, y.id)))
  {
    HomeDecides(rs, ids, chosen, ds, x, d);
    ServedMeansPicked(rs, ids, chosen, ds, d.key);
  }
}
