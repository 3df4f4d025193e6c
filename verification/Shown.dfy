/** What a pick shows beside the offer itself: its rank, its priority and its runner-up. */
module Shown {
  import opened Contracts
  import opened Ordering
  import opened Items
  import opened Bundles
  import opened Candidates
  import opened Accounting
  import opened Decisions
  import opened PickSafety
  import Selection

  // ---------------------------------------------------------------- the runner-up decisions of a key

  lemma {:induction false} RunnersIn(ds: seq<Decision>)
    ensures forall d :: d in Runners(ds) <==> d in ds && d.isRunnerUp
    ensures Distinct(DecisionIds(ds)) ==> Distinct(DecisionIds(Runners(ds)))
  {
    if ds != [] {
      var before, d := ds[..|ds| - 1], ds[|ds| - 1];
      assert ds == before + [d];
      RunnersIn(before);
      if Distinct(DecisionIds(ds)) {
        DecisionFront(before, d);
        AppendDecision(before, Runners(before), d);
      }
    }
  }

  lemma RunnersOfKey(ds: seq<Decision>, key: string)
    requires Distinct(DecisionIds(ds))
    ensures forall d :: d in Runners(ForKey(ds, key)) <==> d in ds && d.key == key && d.isRunnerUp
    ensures Distinct(DecisionIds(Runners(ForKey(ds, key))))
  {
    ForKeyListed(ds, key);
    ForKeyIds(ds, key);
    RunnersIn(ForKey(ds, key));
  }

  lemma OneBest(items: seq<Item>, ids: seq<string>, x: Item, y: Item)
    requires DistinctIds(items) && Selection.IsRunnerUp(items, ids, x) && Selection.IsRunnerUp(items, ids, y)
    requires x.key == y.key
    ensures x == y
  {
    assert Selection.ByValue(x, y) && Selection.ByValue(y, x);
    StrOrder();
    Selection.SameIdSameItem(items, x, y);
  }

  lemma RunnerIsFlagged(engine: seq<Ranked>, budget: nat, ids: seq<string>, chosen: seq<Item>, ds: seq<Decision>,
                        byId: map<string, Ranked>, y: Item, id: string)
    requires Settled(engine, budget, ids, chosen, ds, byId) && Selection.IsRunnerUp(ItemsOf(engine), ids, y)
    requires id in y.candidateIds
    ensures id in DecisionIds(Runners(ForKey(ds, y.key)))
  {
    var items := ItemsOf(engine);
    Selection.InAllIds(items, y, id);
    MembersFromMultiset(DecisionIds(ds), AllIds(items));
    var d := DecisionOf(ds, id);
    Selection.HomeDecides(engine, ids, chosen, ds, y, d);
    Selection.OneDecisionEach(engine, ids, chosen, ds);
    RunnersOfKey(ds, y.key);
    var runners := Runners(ForKey(ds, y.key));
    assert d in runners;
    var i :| 0 <= i < |runners| && runners[i] == d;
    assert DecisionIds(runners)[i] == id;
  }

  lemma FlaggedIsRunner(engine: seq<Ranked>, budget: nat, ids: seq<string>, chosen: seq<Item>, ds: seq<Decision>,
                        byId: map<string, Ranked>, key: string, id: string) returns (y: Item)
    requires Settled(engine, budget, ids, chosen, ds, byId) && id in DecisionIds(Runners(ForKey(ds, key)))
    ensures Selection.IsRunnerUp(ItemsOf(engine), ids, y) && y.key == key && id in y.candidateIds
  {
    var items := ItemsOf(engine);
    Selection.OneDecisionEach(engine, ids, chosen, ds);
    RunnersOfKey(ds, key);
    var d := DecisionOf(Runners(ForKey(ds, key)), id);
    y :| y in items && d.candidateId in y.candidateIds && Selection.Decides(items, ids, chosen, y, d);
  }

  /** The runner-up decisions of a key are those of the one runner-up item, one for each of its candidates. */
  lemma RunnersAreItem(engine: seq<Ranked>, budget: nat, ids: seq<string>, chosen: seq<Item>, ds: seq<Decision>,
                       byId: map<string, Ranked>, y: Item)
    requires Settled(engine, budget, ids, chosen, ds, byId) && Selection.IsRunnerUp(ItemsOf(engine), ids, y)
    ensures multiset(DecisionIds(Runners(ForKey(ds, y.key)))) == multiset(y.candidateIds)
  {
    var shown := DecisionIds(Runners(ForKey(ds, y.key)));
    Selection.OneDecisionEach(engine, ids, chosen, ds);
    RunnersOfKey(ds, y.key);
    ItemsCoverCandidates(engine);
    DistinctFromMultiset(CandidateIds(engine), AllIds(ItemsOf(engine)));
    ItemIdsDistinct(ItemsOf(engine), y);
    forall id ensures id in shown <==> id in y.candidateIds {
      if id in y.candidateIds {
        RunnerIsFlagged(engine, budget, ids, chosen, ds, byId, y, id);
      }
      if id in shown {
        var z := FlaggedIsRunner(engine, budget, ids, chosen, ds, byId, y.key, id);
        OneBest(ItemsOf(engine), ids, y, z);
      }
    }
    SameMembersSameMultiset(shown, y.candidateIds);
  }

  // Another item of the key could have been shown.
  ghost predicate HasContender(items: seq<Item>, ids: seq<string>, key: string) {
    exists y :: Selection.Contender(items, ids, y) && y.key == key
  }

  /** The candidates shown as runner-up are those of the runner-up item, and none are shown exactly if there is none. */
  ghost predicate ShowsRunnerUp(items: seq<Item>, ids: seq<string>, key: string, shown: seq<string>) {
    && (shown == [] <==> !HasContender(items, ids, key))
    && forall y :: Selection.IsRunnerUp(items, ids, y) && y.key == key ==> multiset(shown) == multiset(y.candidateIds)
  }

  lemma KeyShows(engine: seq<Ranked>, budget: nat, ids: seq<string>, chosen: seq<Item>, ds: seq<Decision>,
                 byId: map<string, Ranked>, key: string)
    requires Settled(engine, budget, ids, chosen, ds, byId)
    ensures ShowsRunnerUp(ItemsOf(engine), ids, key, DecisionIds(Runners(ForKey(ds, key))))
  {
    var items, shown := ItemsOf(engine), DecisionIds(Runners(ForKey(ds, key)));
    if shown != [] {
      var y := FlaggedIsRunner(engine, budget, ids, chosen, ds, byId, key, shown[0]);
      assert Selection.Contender(items, ids, y);
    }
    if y :| Selection.Contender(items, ids, y) && y.key == key {
      Selection.RunnerUpExists(items, ids, y);
      var z :| Selection.IsRunnerUp(items, ids, z) && z.key == y.key;
      Selection.ItemHasCandidate(engine, z);
      RunnerIsFlagged(engine, budget, ids, chosen, ds, byId, z, z.candidateIds[0]);
    }
    forall y | Selection.IsRunnerUp(items, ids, y) && y.key == key ensures multiset(shown) == multiset(y.candidateIds) {
      RunnersAreItem(engine, budget, ids, chosen, ds, byId, y);
    }
  }

  // ---------------------------------------------------------------- what the pick of a key shows

  ghost predicate Shows(engine: seq<Ranked>, ids: seq<string>, chosen: seq<Item>, p: Pick, x: Item) {
    && p.rank.Some? && 1 <= p.rank.value <= |chosen| && chosen[p.rank.value - 1] == x
    && p.priority == x.value
    && ShowsRunnerUp(ItemsOf(engine), ids, x.key, p.runnerUpIds)
  }

  // The runner-up of an individual pick is one candidate.
  lemma SoloRunner(engine: seq<Ranked>, budget: nat, ids: seq<string>, chosen: seq<Item>, ds: seq<Decision>,
                   byId: map<string, Ranked>, key: string)
    requires Settled(engine, budget, ids, chosen, ds, byId) && !("group:" <= key)
    ensures |Runners(ForKey(ds, key))| <= 1
  {
    var runners := Runners(ForKey(ds, key));
    if runners != [] {
      var y := FlaggedIsRunner(engine, budget, ids, chosen, ds, byId, key, DecisionIds(runners)[0]);
      RunnersAreItem(engine, budget, ids, chosen, ds, byId, y);
      SingleOfUser(engine, y);
      SameLength(DecisionIds(runners), y.candidateIds);
    }
  }

  lemma SingleOfUser(engine: seq<Ranked>, y: Item)
    requires y in ItemsOf(engine) && !("group:" <= y.key)
    ensures |y.candidateIds| == 1
  {
    var r := SoloIsSingle(engine, y);
  }

  lemma SoloIsSingle(engine: seq<Ranked>, x: Item) returns (r: Ranked)
    requires x in ItemsOf(engine) && !("group:" <= x.key)
    ensures IsSingle(engine, x, r)
  {
    KeyTells(engine, x);
    ItemForm(engine, x);
    r :| IsSingle(engine, x, r);
  }

  lemma SameLength<T>(a: seq<T>, b: seq<T>)
    requires multiset(a) == multiset(b)
    ensures |a| == |b|
  {
    assert |multiset(a)| == |a| && |multiset(b)| == |b|;
  }

  lemma PickShows(engine: seq<Ranked>, budget: nat, ids: seq<string>, chosen: seq<Item>, ds: seq<Decision>,
                  byId: map<string, Ranked>, key: string) returns (x: Item)
    requires Settled(engine, budget, ids, chosen, ds, byId) && Chosen(ForKey(ds, key)) != []
    ensures x in chosen && x.key == key && AllIndexed(byId, Chosen(ForKey(ds, key)))
    ensures var p := PickFor(byId, key, Chosen(ForKey(ds, key)), Runners(ForKey(ds, key)));
      StandsFor(p, x, byId) && Shows(engine, ids, chosen, p, x)
  {
    var picked, runners := Chosen(ForKey(ds, key)), Runners(ForKey(ds, key));
    x := PickIsItem(engine, budget, ids, chosen, ds, byId, key, runners);
    KeyShows(engine, budget, ids, chosen, ds, byId, key);
    KeyFacts(engine, budget, ids, chosen, ds, byId, key, x);
    PickForShows(engine, ids, chosen, byId, key, picked, runners, x);
  }

  // What the first decision of the pick, and the number of its runners, must be.
  ghost predicate Told(chosen: seq<Item>, byId: map<string, Ranked>, key: string, picked: seq<Decision>,
                       runners: seq<Decision>, x: Item) {
    && picked != [] && picked[0].priority == x.value && picked[0].rank.Some?
    && 1 <= picked[0].rank.value <= |chosen| && chosen[picked[0].rank.value - 1] == x
    && (!("group:" <= key) ==>
          |runners| <= 1 && picked[0].candidateId in byId && byId[picked[0].candidateId].priority == x.value)
  }

  lemma KeyFacts(engine: seq<Ranked>, budget: nat, ids: seq<string>, chosen: seq<Item>, ds: seq<Decision>,
                 byId: map<string, Ranked>, key: string, x: Item)
    requires Settled(engine, budget, ids, chosen, ds, byId) && Chosen(ForKey(ds, key)) != []
    requires x in chosen && x.key == key && AllIndexed(byId, Chosen(ForKey(ds, key)))
    ensures Told(chosen, byId, key, Chosen(ForKey(ds, key)), Runners(ForKey(ds, key)), x)
  {
    FirstDecision(engine, budget, ids, chosen, ds, byId, key, x);
    if !("group:" <= key) {
      SoloRunner(engine, budget, ids, chosen, ds, byId, key);
      assert x in ItemsOf(engine);
      SoloPriority(engine, byId, key, Chosen(ForKey(ds, key)), x);
    }
  }

  lemma PickForShows(engine: seq<Ranked>, ids: seq<string>, chosen: seq<Item>, byId: map<string, Ranked>, key: string,
                     picked: seq<Decision>, runners: seq<Decision>, x: Item)
    requires AllIndexed(byId, picked) && Told(chosen, byId, key, picked, runners, x) && x.key == key
    requires ShowsRunnerUp(ItemsOf(engine), ids, key, DecisionIds(runners))
    ensures Shows(engine, ids, chosen, PickFor(byId, key, picked, runners), x)
  {
    PickFields(byId, key, picked, runners);
    ShowsFields(engine, ids, chosen, PickFor(byId, key, picked, runners), x);
  }

  lemma ShowsFields(engine: seq<Ranked>, ids: seq<string>, chosen: seq<Item>, p: Pick, x: Item)
    requires p.rank.Some? && 1 <= p.rank.value <= |chosen| && chosen[p.rank.value - 1] == x && p.priority == x.value
    requires ShowsRunnerUp(ItemsOf(engine), ids, x.key, p.runnerUpIds)
    ensures Shows(engine, ids, chosen, p, x)
  {
  }

  lemma PickFields(byId: map<string, Ranked>, key: string, picked: seq<Decision>, runners: seq<Decision>)
    requires picked != [] && AllIndexed(byId, picked) && (!("group:" <= key) ==> |runners| <= 1)
    ensures var p := PickFor(byId, key, picked, runners);
      && p.runnerUpIds == DecisionIds(runners) && p.rank == picked[0].rank
      && p.priority == if "group:" <= key then picked[0].priority else byId[picked[0].candidateId].priority
  {
  }

  lemma FirstDecision(engine: seq<Ranked>, budget: nat, ids: seq<string>, chosen: seq<Item>, ds: seq<Decision>,
                      byId: map<string, Ranked>, key: string, x: Item)
    requires Settled(engine, budget, ids, chosen, ds, byId) && Chosen(ForKey(ds, key)) != []
    requires x in chosen && x.key == key
    ensures var d := Chosen(ForKey(ds, key))[0];
      && d.priority == x.value && d.rank.Some? && 1 <= d.rank.value <= |chosen| && chosen[d.rank.value - 1] == x
      && d.candidateId in x.candidateIds
  {
    var items, d := ItemsOf(engine), Chosen(ForKey(ds, key))[0];
    ChosenListed(ds, key);
    assert d in Chosen(ForKey(ds, key));
    var y :| y in items && d.candidateId in y.candidateIds && Selection.Decides(items, ids, chosen, y, d);
    SelectedByKey(items, ids, x, y);
  }

  lemma SoloPriority(engine: seq<Ranked>, byId: map<string, Ranked>, key: string, picked: seq<Decision>, x: Item)
    requires Indexed(engine, byId) && AllIndexed(byId, picked) && picked != [] && x in ItemsOf(engine)
    requires !("group:" <= key) && x.key == key && picked[0].candidateId in x.candidateIds
    ensures byId[picked[0].candidateId].priority == x.value
  {
    var r := SoloIsSingle(engine, x);
    assert byId[r.candidate.id] == r;
  }

  lemma {:induction false} PickKey(byId: map<string, Ranked>, ds: seq<Decision>, keys: seq<string>, p: Pick)
    returns (key: string)
    requires AllIndexed(byId, ds) && p in EnginePicks(byId, ds, keys)
    ensures Chosen(ForKey(ds, key)) != [] && AllIndexed(byId, Chosen(ForKey(ds, key)))
    ensures p == PickFor(byId, key, Chosen(ForKey(ds, key)), Runners(ForKey(ds, key)))
  {
    var n := |keys| - 1;
    if p in EnginePicks(byId, ds, keys[..n]) {
      key := PickKey(byId, ds, keys[..n], p);
    } else {
      key := keys[n];
    }
  }

  /**
   Every engine pick shows the rank and the value of the item it stands for, and as runner-up the best other positive
   item for the same user or circle, if there is one, and never a candidate of its own.
   */
  lemma EnginePickShows(w: World, plan: Plan, eps: real, cs: seq<Candidate>, exclusions: map<string, Reason>,
                        ranked: seq<Ranked>, o: Outcome, p: Pick) returns (x: Item)
    requires Finished(w, plan, eps, cs, exclusions, ranked, o) && p in o.enginePicks
    ensures x in o.chosen && StandsFor(p, x, o.byId) && Shows(EngineOf(plan, ranked), o.ids, o.chosen, p, x)
    ensures forall id :: id in p.runnerUpIds ==> id !in p.ids
  {
    var ds := o.result.decisions;
    RunSettled(w, plan, eps, cs, exclusions, ranked, o);
    var key := PickKey(o.byId, ds, SortBy(KeysOf(ds), StrLe), p);
    x := PickShows(EngineOf(plan, ranked), plan.budget, o.ids, o.chosen, ds, o.byId, key);
    NotItself(EngineOf(plan, ranked), plan.budget, o.ids, o.chosen, ds, o.byId, p, x);
  }

  lemma NotItself(engine: seq<Ranked>, budget: nat, ids: seq<string>, chosen: seq<Item>, ds: seq<Decision>,
                  byId: map<string, Ranked>, p: Pick, x: Item)
    requires Settled(engine, budget, ids, chosen, ds, byId) && x in chosen
    requires StandsFor(p, x, byId) && Shows(engine, ids, chosen, p, x)
    ensures forall id :: id in p.runnerUpIds ==> id !in p.ids
  {
    var items := ItemsOf(engine);
    ItemsCoverCandidates(engine);
    DistinctFromMultiset(CandidateIds(engine), AllIds(items));
    MembersFromMultiset(p.ids, x.candidateIds);
    forall id | id in p.runnerUpIds ensures id !in p.ids {
      var y := RunnerOf(items, ids, x.key, p.runnerUpIds);
      MembersFromMultiset(p.runnerUpIds, y.candidateIds);
      if id in x.candidateIds {
        Selection.OneHome(items, x, y, id);
      }
    }
  }

  lemma RunnerOf(items: seq<Item>, ids: seq<string>, key: string, shown: seq<string>) returns (y: Item)
    requires ShowsRunnerUp(items, ids, key, shown) && shown != []
    ensures Selection.IsRunnerUp(items, ids, y) && y.key == key && multiset(shown) == multiset(y.candidateIds)
  {
    var z :| Selection.Contender(items, ids, z) && z.key == key;
    Selection.RunnerUpExists(items, ids, z);
    y :| Selection.IsRunnerUp(items, ids, y) && y.key == z.key;
  }
}
