/** Every input of the decision stages has a finished run: none of the statements about runs is empty. */
module RunExistence {
  import opened Contracts
  import opened Ordering
  import opened Items
  import opened Bundles
  import opened Candidates
  import opened Decisions
  import Baseline
  import Accounting
  import Greedy
  import Knapsack
  import Rounding
  import Selection

  // ---------------------------------------------------------------- exclusions and the index

  lemma {:induction false} ExclusionsUpTo(w: World, cs: seq<Candidate>, own: Candidate -> Option<Reason>, n: nat)
    returns (exclusions: map<string, Reason>)
    requires Distinct(Candidates.Ids(cs)) && n <= |cs|
    ensures RecordedSoFar(own, cs, n, exclusions)
  {
    if n == 0 {
      exclusions := map[];
    } else {
      var before := ExclusionsUpTo(w, cs, own, n - 1);
      RecordOne(own, cs, n - 1, before);
      exclusions := if own(cs[n - 1]).Some? then before[cs[n - 1].id := own(cs[n - 1]).value] else before;
    }
  }

  lemma ExclusionsExist(w: World, cs: seq<Candidate>) returns (exclusions: map<string, Reason>)
    requires Distinct(Candidates.Ids(cs))
    ensures Excludes(w, cs, exclusions)
  {
    var own := (c: Candidate) => Exclusion(w, cs, c);
    exclusions := ExclusionsUpTo(w, cs, own, |cs|);
    assert Candidates.Ids(cs)[..|cs|] == Candidates.Ids(cs);
    forall c | c in cs ensures Lookup(exclusions, c.id) == own(c) {
    }
  }

  lemma {:induction false} IndexUpTo(rs: seq<Ranked>, n: nat) returns (byId: map<string, Ranked>)
    requires Distinct(CandidateIds(rs)) && n <= |rs|
    ensures forall id :: id in byId <==> id in CandidateIds(rs)[..n]
    ensures forall i :: 0 <= i < n ==> byId[rs[i].candidate.id] == rs[i]
  {
    if n == 0 {
      byId := map[];
    } else {
      var before := IndexUpTo(rs, n - 1);
      TakeOne(CandidateIds(rs), n - 1);
      FrontLacks(CandidateIds(rs), n - 1);
      byId := before[rs[n - 1].candidate.id := rs[n - 1]];
      forall i | 0 <= i < n - 1 ensures byId[rs[i].candidate.id] == rs[i] {
        assert CandidateIds(rs)[i] in CandidateIds(rs)[..n - 1];
      }
    }
  }

  lemma IndexExists(rs: seq<Ranked>) returns (byId: map<string, Ranked>)
    requires Distinct(CandidateIds(rs))
    ensures Indexed(rs, byId)
  {
    byId := IndexUpTo(rs, |rs|);
    assert CandidateIds(rs)[..|rs|] == CandidateIds(rs);
  }

  // ---------------------------------------------------------------- the allocation

  lemma IdsExist(items: seq<Item>, budget: nat, config: Selection.Config, eps: real)
    returns (strategy: Strategy, ids: seq<string>)
    requires DistinctIds(items) && config.costScale >= 1 && eps >= 0.0
    ensures SoundChoice(items, budget, ids)
    ensures strategy == ExactDP <==> Selection.WantsExact(config) && Selection.FitsTable(items, budget, config)
    ensures strategy == ExactDP ==> Knapsack.ExactChoice(items, budget, config.costScale, eps, ids)
    ensures strategy == GreedyDensity ==> Greedy.GreedyChoice(items, budget, ids)
  {
    if Selection.WantsExact(config) && Selection.FitsTable(items, budget, config) {
      strategy := ExactDP;
      ids := Rounding.AnswerExists(items, budget, config.costScale, eps);
      Selection.ExactIsSound(items, budget, config.costScale, eps, ids);
    } else {
      strategy := GreedyDensity;
      var picks := Greedy.PickOrder(Greedy.Ranked(items), budget, {});
      ids := SortBy(picks, StrLe);
      Greedy.SortedPicks(items, budget, picks);
      Greedy.GreedyIsSound(items, budget, ids);
    }
  }

  lemma {:induction false} ItemsById(items: seq<Item>, ids: seq<string>) returns (picked: seq<Item>)
    requires AsSet(ids) <= IdSet(items)
    ensures |picked| == |ids| && forall i :: 0 <= i < |ids| ==> picked[i] in items && picked[i].id == ids[i]
  {
    if ids == [] {
      picked := [];
    } else {
      assert ids[0] in AsSet(ids);
      var n :| 0 <= n < |items| && items[n].id == ids[0];
      assert forall id :: id in ids[1..] ==> id in ids;
      var rest := ItemsById(items, ids[1..]);
      picked := [items[n]] + rest;
    }
  }

  lemma RankExists(items: seq<Item>, ids: seq<string>, chosen: seq<Item>, x: Item) returns (rank: Option<nat>)
    requires Selection.RankedPicks(items, ids, chosen) && x in items
    ensures Selection.HasRank(chosen, x, rank)
  {
    if x in chosen {
      var i :| 0 <= i < |chosen| && chosen[i] == x;
      rank := Some(i + 1);
    } else {
      rank := None;
    }
  }

  lemma ItemDecisions(items: seq<Item>, ids: seq<string>, chosen: seq<Item>, x: Item) returns (ds: seq<Decision>)
    requires Selection.RankedPicks(items, ids, chosen) && x in items
    ensures DecisionIds(ds) == x.candidateIds
    ensures forall d :: d in ds ==> d.candidateId in x.candidateIds && Selection.Decides(items, ids, chosen, x, d)
  {
    var rank := RankExists(items, ids, chosen, x);
    var runner, reason := Selection.IsRunnerUp(items, ids, x), Selection.ReasonFor(items, ids, x);
    ds := seq(|x.candidateIds|, i requires 0 <= i < |x.candidateIds| =>
      Decision(x.candidateIds[i], x.key, x.id in ids, x.value, x.cost, rank, runner, reason));
  }

  lemma {:induction false} DecisionsUpTo(sorted: seq<Item>, items: seq<Item>, ids: seq<string>,
                                         chosen: seq<Item>, n: nat)
    returns (ds: seq<Decision>)
    requires Selection.RankedPicks(items, ids, chosen) && n <= |sorted| && forall x :: x in sorted ==> x in items
    ensures DecisionIds(ds) == AllIds(sorted[..n])
    ensures forall d :: d in ds ==> Selection.DecidedBy(items, ids, chosen, d)
  {
    if n == 0 {
      ds := [];
    } else {
      var before := DecisionsUpTo(sorted, items, ids, chosen, n - 1);
      var more := ItemDecisions(items, ids, chosen, sorted[n - 1]);
      Selection.DecideOne(sorted, n - 1, before, more, items, ids, chosen);
      ds := before + more;
    }
  }

  lemma DecisionsExist(items: seq<Item>, ids: seq<string>, chosen: seq<Item>) returns (ds: seq<Decision>)
    requires Selection.RankedPicks(items, ids, chosen)
    ensures Selection.Decided(items, ids, chosen, ds) && Selection.InItemOrder(items, ds)
  {
    var sorted := SortBy(items, ByKeyThenId);
    SortByMembers(items, ByKeyThenId);
    ds := DecisionsUpTo(sorted, items, ids, chosen, |items|);
    assert sorted[..|items|] == sorted;
    Selection.AllIdsPermuted(sorted, items);
  }

  /** Every list of ranked candidates with different item ids has an allocation, whatever the settings. */
  lemma AllocationExists(rs: seq<Ranked>, budget: nat, config: Selection.Config, eps: real)
    returns (result: AllocationResult, ids: seq<string>, chosen: seq<Item>)
    requires DistinctIds(ItemsOf(rs)) && config.costScale >= 1 && eps >= 0.0
    ensures Selection.Allocated(rs, budget, config, eps, result, ids, chosen)
  {
    var items := ItemsOf(rs);
    var strategy;
    strategy, ids := IdsExist(items, budget, config, eps);
    Selection.ChosenExist(items, budget, ids);
    var picked := ItemsById(items, ids);
    Selection.PickedRanked(items, ids, picked);
    chosen := SortBy(picked, Selection.ByValue);
    var ds := DecisionsExist(items, ids, chosen);
    result := AllocationResult(strategy, budget, Cost(items, AsSet(ids)), Value(items, AsSet(ids)), ds);
  }

  // ---------------------------------------------------------------- the whole run

  lemma EngineExists(engine: seq<Ranked>, plan: Plan, eps: real)
    returns (result: AllocationResult, picks: seq<Accounting.Pick>, ids: seq<string>, chosen: seq<Item>,
             byId: map<string, Ranked>)
    requires WellFormed(engine) && plan.config.costScale >= 1 && eps >= 0.0
    ensures EngineDone(engine, plan, eps, result, picks, ids, chosen, byId)
  {
    result, ids, chosen := AllocationExists(engine, plan.budget, plan.config, eps);
    byId := IndexExists(engine);
    Selection.OneDecisionEach(engine, ids, chosen, result.decisions);
    DecisionsIndexed(engine, byId, result.decisions);
    picks := EnginePicks(byId, result.decisions, SortBy(KeysOf(result.decisions), StrLe));
  }

  lemma StateExists(w: World, plan: Plan) returns (exclusions: map<string, Reason>, ranked: seq<Ranked>)
    requires Sane(w)
    ensures Ready(w, plan, AllCandidates(w), exclusions, ranked)
  {
    CandidateIdsDistinct(w);
    exclusions := ExclusionsExist(w, AllCandidates(w));
    ranked := RankedOf(exclusions, AllCandidates(w), plan.priority);
  }

  /** A finished run exists for every world and plan. */
  lemma RunExists(w: World, plan: Plan, eps: real)
    returns (exclusions: map<string, Reason>, ranked: seq<Ranked>, o: Decisions.Outcome)
    requires Sane(w) && plan.config.costScale >= 1 && eps >= 0.0
    ensures Finished(w, plan, eps, AllCandidates(w), exclusions, ranked, o)
  {
    var cs := AllCandidates(w);
    exclusions, ranked := StateExists(w, plan);
    EngineWellFormed(w, plan, cs, exclusions, ranked);
    var result, picks, ids, chosen, byId := EngineExists(InArm(plan.arms, Accounting.Engine, ranked), plan, eps);
    var users := Baseline.SortedUsers(plan.arms, cs);
    var extra := ExcludedExtras(plan.arms, exclusions, cs) + HoldoutExtras(InArm(plan.arms, Accounting.Control, ranked))
      + (Baseline.GroupExtras(plan.arms, cs) + Baseline.ExtrasOf(w, plan.arms, plan.threshold, cs, users));
    var naivePicks := Baseline.PicksOf(w, plan.arms, plan.threshold, cs, users);
    o := Decisions.Outcome(result, extra, picks, naivePicks, ids, chosen, byId);
  }
}
