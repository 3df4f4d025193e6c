/** End-to-end guarantees about the picks of a run. */
module PickSafety {
  import opened Contracts
  import opened Ordering
  import opened PolicyGuard
  import opened Items
  import opened Bundles
  import opened Candidates
  import opened Accounting
  import opened Decisions
  import Baseline
  import Selection

  // ---------------------------------------------------------------- a pick is one chosen item

  /** An engine pick against the item it stands for. */
  ghost predicate StandsFor(p: Pick, x: Item, byId: map<string, Ranked>) {
    && p.arm == Engine && p.cost == x.cost && multiset(p.ids) == multiset(x.candidateIds)
    && (forall id :: id in p.ids ==> id in byId)
    && (p.group.Some? <==> "group:" <= x.key) && (p.group.None? ==> p.members == [])
    && (p.group.Some? ==>
          && x.key == GroupKey(p.group.value) && |p.members| == |p.ids|
          && forall i :: 0 <= i < |p.ids| ==> p.members[i] == byId[p.ids[i]].candidate.user)
  }

  // What is known about an allocation of the engine's candidates.
  ghost predicate Settled(engine: seq<Ranked>, budget: nat, ids: seq<string>, chosen: seq<Item>, ds: seq<Decision>,
                          byId: map<string, Ranked>) {
    && WellFormed(engine) && ClearUsers(engine) && SoundChoice(ItemsOf(engine), budget, ids)
    && Selection.RankedPicks(ItemsOf(engine), ids, chosen)
    && Selection.Decided(ItemsOf(engine), ids, chosen, ds) && Indexed(engine, byId) && AllIndexed(byId, ds)
  }

  lemma {:induction false} ForKeyIds(ds: seq<Decision>, key: string)
    requires Distinct(DecisionIds(ds))
    ensures Distinct(DecisionIds(ForKey(ds, key)))
  {
    if ds != [] {
      var before, d := ds[..|ds| - 1], ds[|ds| - 1];
      assert ds == before + [d];
      DecisionFront(before, d);
      ForKeyIds(before, key);
      ForKeyListed(before, key);
      var kept := ForKey(before, key);
      AppendDecision(before, kept, d);
    }
  }

  lemma {:induction false} ChosenIds(ds: seq<Decision>)
    requires Distinct(DecisionIds(ds))
    ensures Distinct(DecisionIds(Chosen(ds)))
  {
    if ds != [] {
      var before, d := ds[..|ds| - 1], ds[|ds| - 1];
      assert ds == before + [d];
      DecisionFront(before, d);
      ChosenIds(before);
      ChosenIn(before);
      AppendDecision(before, Chosen(before), d);
    }
  }

  lemma DecisionFront(before: seq<Decision>, d: Decision)
    requires Distinct(DecisionIds(before + [d]))
    ensures Distinct(DecisionIds(before)) && d.candidateId !in DecisionIds(before)
  {
    assert DecisionIds(before + [d]) == DecisionIds(before) + [d.candidateId];
    DistinctParts(DecisionIds(before), [d.candidateId]);
    assert d.candidateId in [d.candidateId];
  }

  lemma AppendDecision(before: seq<Decision>, kept: seq<Decision>, d: Decision)
    requires Distinct(DecisionIds(kept)) && d.candidateId !in DecisionIds(before)
    requires forall e :: e in kept ==> e in before
    ensures Distinct(DecisionIds(kept + [d]))
  {
    forall i | 0 <= i < |kept| ensures kept[i].candidateId != d.candidateId {
      assert kept[i] in before;
      var j :| 0 <= j < |before| && before[j] == kept[i];
      assert DecisionIds(before)[j] == kept[i].candidateId;
    }
    assert DecisionIds(kept + [d]) == DecisionIds(kept) + [d.candidateId];
    assert d.candidateId !in AsSet(DecisionIds(kept));
    DistinctAppend(DecisionIds(kept), d.candidateId);
  }

  lemma {:induction false} ItemIdsDistinct(items: seq<Item>, x: Item)
    requires Distinct(AllIds(items)) && x in items
    ensures Distinct(x.candidateIds)
  {
    DistinctParts(items[0].candidateIds, AllIds(items[1..]));
    if x != items[0] {
      ItemIdsDistinct(items[1..], x);
    }
  }

  lemma SelectedByKey(items: seq<Item>, ids: seq<string>, x: Item, y: Item)
    requires OnePerKey(items, AsSet(ids)) && x in items && y in items && x.id in ids && y.id in ids && x.key == y.key
    ensures x == y
  {
    var i := SelectedItem(items, x);
    var j := SelectedItem(items, y);
    assert x.id in AsSet(ids) && y.id in AsSet(ids);
    assert i == j;
  }

  lemma DecisionOf(ds: seq<Decision>, id: string) returns (d: Decision)
    requires id in DecisionIds(ds)
    ensures d in ds && d.candidateId == id
  {
    var i :| 0 <= i < |ds| && DecisionIds(ds)[i] == id;
    d := ds[i];
  }

  // The chosen decisions of a key are those of one selected item, one for each of its candidates.
  lemma ChosenAreItem(engine: seq<Ranked>, budget: nat, ids: seq<string>, chosen: seq<Item>, ds: seq<Decision>,
                      byId: map<string, Ranked>, key: string) returns (x: Item)
    requires Settled(engine, budget, ids, chosen, ds, byId) && Chosen(ForKey(ds, key)) != []
    ensures x in chosen && x.key == key
    ensures Distinct(DecisionIds(Chosen(ForKey(ds, key)))) && Distinct(x.candidateIds)
    ensures forall id :: id in DecisionIds(Chosen(ForKey(ds, key))) <==> id in x.candidateIds
  {
    var items, picked := ItemsOf(engine), Chosen(ForKey(ds, key));
    ChosenListed(ds, key);
    var d0 := picked[0];
    assert d0 in picked;
    x :| x in items && d0.candidateId in x.candidateIds && Selection.Decides(items, ids, chosen, x, d0);
    Selection.OneDecisionEach(engine, ids, chosen, ds);
    ForKeyIds(ds, key);
    ChosenIds(ForKey(ds, key));
    ItemsCoverCandidates(engine);
    DistinctFromMultiset(CandidateIds(engine), AllIds(items));
    ItemIdsDistinct(items, x);
    forall id ensures id in DecisionIds(picked) <==> id in x.candidateIds {
      if id in DecisionIds(picked) {
        var d := DecisionOf(picked, id);
        var y :| y in items && d.candidateId in y.candidateIds && Selection.Decides(items, ids, chosen, y, d);
        SelectedByKey(items, ids, x, y);
      }
      if id in x.candidateIds {
        DecidedMember(engine, budget, ids, chosen, ds, byId, x, id);
      }
    }
  }

  lemma DecidedMember(engine: seq<Ranked>, budget: nat, ids: seq<string>, chosen: seq<Item>, ds: seq<Decision>,
                      byId: map<string, Ranked>, x: Item, id: string)
    requires Settled(engine, budget, ids, chosen, ds, byId) && x in ItemsOf(engine) && id in x.candidateIds
    requires x.id in ids
    ensures id in DecisionIds(Chosen(ForKey(ds, x.key)))
    ensures x.key in KeysOf(ds)
  {
    var items := ItemsOf(engine);
    Selection.InAllIds(items, x, id);
    MembersFromMultiset(DecisionIds(ds), AllIds(items));
    var d := DecisionOf(ds, id);
    Selection.HomeDecides(engine, ids, chosen, ds, x, d);
    ChosenListed(ds, x.key);
    var picked := Chosen(ForKey(ds, x.key));
    assert d in picked;
    var i :| 0 <= i < |picked| && picked[i] == d;
    assert DecisionIds(picked)[i] == id;
    KeyListed(ds, d);
  }

  lemma {:induction false} KeyListed(ds: seq<Decision>, d: Decision)
    requires d in ds
    ensures d.key in KeysOf(ds)
  {
    var before, last := ds[..|ds| - 1], ds[|ds| - 1];
    assert ds == before + [last];
    if d in before {
      KeyListed(before, d);
    }
  }

  lemma {:induction false} KeysDistinct(ds: seq<Decision>)
    ensures Distinct(KeysOf(ds))
  {
    if ds != [] {
      KeysDistinct(ds[..|ds| - 1]);
    }
  }

  // ---------------------------------------------------------------- costs of a pick

  lemma {:induction false} TotalCostSplit(a: seq<Ranked>, b: seq<Ranked>)
    ensures TotalCost(a + b) == TotalCost(a) + TotalCost(b)
  {
    if a == [] {
      assert a + b == b;
    } else {
      assert (a + b)[1..] == a[1..] + b;
      TotalCostSplit(a[1..], b);
    }
  }

  lemma {:induction false} TotalCostPermuted(a: seq<Ranked>, b: seq<Ranked>)
    requires multiset(a) == multiset(b)
    ensures TotalCost(a) == TotalCost(b)
  {
    if a == [] {
      assert |multiset(b)| == 0;
    } else {
      var j := RemoveFirst(a, b);
      TotalCostPermuted(a[1..], b[..j] + b[j + 1..]);
      AroundOne(b, j);
      TotalCostSplit(b[..j] + [b[j]], b[j + 1..]);
      TotalCostSplit(b[..j], [b[j]]);
      TotalCostSplit(b[..j], b[j + 1..]);
    }
  }

  // Distinct ids name distinct candidates of the index.
  lemma HoldersAre(engine: seq<Ranked>, byId: map<string, Ranked>, ds: seq<Decision>, members: seq<Ranked>)
    requires Distinct(CandidateIds(engine)) && Indexed(engine, byId) && AllIndexed(byId, ds)
    requires Distinct(DecisionIds(ds)) && Distinct(CandidateIds(members))
    requires forall m :: m in members ==> m in engine
    requires forall id :: id in DecisionIds(ds) <==> id in CandidateIds(members)
    ensures multiset(Holders(byId, ds)) == multiset(members)
  {
    var holders := Holders(byId, ds);
    forall i | 0 <= i < |holders| ensures holders[i].candidate.id == DecisionIds(ds)[i] && holders[i] in engine {
      HolderOf(engine, byId, ds[i].candidateId);
    }
    assert CandidateIds(holders) == DecisionIds(ds);
    DistinctById(holders);
    DistinctById(members);
    forall r ensures r in holders <==> r in members {
      if r in holders {
        var i :| 0 <= i < |holders| && holders[i] == r;
        assert CandidateIds(holders)[i] in CandidateIds(members);
        var j :| 0 <= j < |members| && CandidateIds(members)[j] == r.candidate.id;
        assert members[j] in members;
        assert byId[r.candidate.id] == members[j];
      }
      if r in members {
        var j :| 0 <= j < |members| && members[j] == r;
        assert CandidateIds(members)[j] in DecisionIds(ds);
        var i :| 0 <= i < |ds| && DecisionIds(ds)[i] == r.candidate.id;
        assert holders[i] == r;
      }
    }
    SameMembersSameMultiset(holders, members);
  }

  lemma DistinctById(rs: seq<Ranked>)
    requires Distinct(CandidateIds(rs))
    ensures Distinct(rs)
  {
    forall i, j | 0 <= i < j < |rs| ensures rs[i] != rs[j] {
      assert CandidateIds(rs)[i] != CandidateIds(rs)[j];
    }
  }

  lemma HolderOf(engine: seq<Ranked>, byId: map<string, Ranked>, id: string)
    requires Indexed(engine, byId) && id in byId
    ensures byId[id] in engine && byId[id].candidate.id == id
  {
    var i :| 0 <= i < |engine| && CandidateIds(engine)[i] == id;
    assert engine[i] in engine;
  }

  lemma KeyTells(engine: seq<Ranked>, x: Item)
    ensures (exists k :: IsBundle(engine, Offers(engine), x, k)) ==> "group:" <= x.key
  {
    if k :| IsBundle(engine, Offers(engine), x, k) {
      assert x.key == "group:" + k.group;
    }
  }

  /** The pick made for a key with a chosen decision stands for the one chosen item of that key. */
  lemma PickIsItem(engine: seq<Ranked>, budget: nat, ids: seq<string>, chosen: seq<Item>, ds: seq<Decision>,
                   byId: map<string, Ranked>, key: string, runners: seq<Decision>) returns (x: Item)
    requires Settled(engine, budget, ids, chosen, ds, byId) && Chosen(ForKey(ds, key)) != []
    ensures x in chosen && x.key == key && AllIndexed(byId, Chosen(ForKey(ds, key)))
    ensures StandsFor(PickFor(byId, key, Chosen(ForKey(ds, key)), runners), x, byId)
  {
    var picked := Chosen(ForKey(ds, key));
    x := ChosenAreItem(engine, budget, ids, chosen, ds, byId, key);
    ChosenListed(ds, key);
    SameMembersSameMultiset(DecisionIds(picked), x.candidateIds);
    assert x in ItemsOf(engine);
    ItemForm(engine, x);
    if r :| IsSingle(engine, x, r) {
      SinglePick(engine, byId, picked, r, key, runners);
    } else {
      var k :| IsBundle(engine, Offers(engine), x, k);
      BundlePick(engine, byId, picked, k, key, runners);
    }
  }

  lemma SinglePick(engine: seq<Ranked>, byId: map<string, Ranked>, picked: seq<Decision>, r: Ranked, key: string,
                   runners: seq<Decision>)
    requires ClearUsers(engine) && Indexed(engine, byId) && AllIndexed(byId, picked) && picked != []
    requires r in engine && r.candidate.group.None? && key == r.candidate.user
    requires multiset(DecisionIds(picked)) == multiset([r.candidate.id])
    ensures StandsFor(PickFor(byId, key, picked, runners), SingleItem(r), byId)
  {
    MembersFromMultiset(DecisionIds(picked), [r.candidate.id]);
    assert DecisionIds(picked)[0] in DecisionIds(picked);
    assert picked[0].candidateId == r.candidate.id;
    assert byId[r.candidate.id] == r;
  }

  lemma BundlePick(engine: seq<Ranked>, byId: map<string, Ranked>, picked: seq<Decision>, k: Offer, key: string,
                   runners: seq<Decision>)
    requires Distinct(CandidateIds(engine)) && Indexed(engine, byId) && AllIndexed(byId, picked) && picked != []
    requires key == GroupKey(k.group) && Distinct(DecisionIds(picked))
    requires multiset(DecisionIds(picked)) == multiset(BundleItem(k, Members(engine, k)).candidateIds)
    ensures StandsFor(PickFor(byId, key, picked, runners), BundleItem(k, Members(engine, k)), byId)
  {
    BundleCost(engine, byId, picked, k);
    MembersFromMultiset(DecisionIds(picked), BundleItem(k, Members(engine, k)).candidateIds);
    assert key[6..] == k.group;
    forall id | id in DecisionIds(picked) ensures id in byId {
      var d := DecisionOf(picked, id);
    }
  }

  lemma BundleCost(engine: seq<Ranked>, byId: map<string, Ranked>, picked: seq<Decision>, k: Offer)
    requires Distinct(CandidateIds(engine)) && Indexed(engine, byId) && AllIndexed(byId, picked)
    requires Distinct(DecisionIds(picked))
    requires multiset(DecisionIds(picked)) == multiset(BundleItem(k, Members(engine, k)).candidateIds)
    ensures TotalCost(Holders(byId, picked)) == BundleItem(k, Members(engine, k)).cost
  {
    var sorted := SortBy(Members(engine, k), ByCandidateId);
    SortByMembers(Members(engine, k), ByCandidateId);
    Selection.MembersMeaning(engine, k);
    MembersFromMultiset(DecisionIds(picked), CandidateIds(sorted));
    DistinctFromMultiset(DecisionIds(picked), CandidateIds(sorted));
    HoldersAre(engine, byId, picked, sorted);
    TotalCostPermuted(Holders(byId, picked), sorted);
  }

  // ---------------------------------------------------------------- all picks of a run

  // The items the picks of the given keys stand for, in the same order.
  ghost predicate Matches(picks: seq<Pick>, xs: seq<Item>, chosen: seq<Item>, keys: seq<string>,
                          byId: map<string, Ranked>) {
    && |xs| == |picks| && (forall i :: 0 <= i < |xs| ==> StandsFor(picks[i], xs[i], byId))
    && (forall x :: x in xs <==> x in chosen && x.key in keys)
    && (forall i, j :: 0 <= i < j < |xs| ==> xs[i].key != xs[j].key)
  }

  lemma {:induction false} PicksMatch(engine: seq<Ranked>, budget: nat, ids: seq<string>, chosen: seq<Item>,
                                      ds: seq<Decision>, byId: map<string, Ranked>, keys: seq<string>)
    returns (xs: seq<Item>)
    requires Settled(engine, budget, ids, chosen, ds, byId) && Distinct(keys)
    ensures Matches(EnginePicks(byId, ds, keys), xs, chosen, keys, byId)
  {
    if keys == [] {
      xs := [];
    } else {
      var before, key := keys[..|keys| - 1], keys[|keys| - 1];
      assert keys == before + [key] && key !in before;
      var ys := PicksMatch(engine, budget, ids, chosen, ds, byId, before);
      forall x | x in chosen && x.key == key ensures Chosen(ForKey(ds, key)) != [] {
        ChosenHasDecision(engine, budget, ids, chosen, ds, byId, x);
      }
      if Chosen(ForKey(ds, key)) == [] {
        xs := ys;
      } else {
        var x := PickIsItem(engine, budget, ids, chosen, ds, byId, key, Runners(ForKey(ds, key)));
        xs := ys + [x];
        forall y | y in chosen && y.key == key ensures y == x {
          SelectedByKey(ItemsOf(engine), ids, x, y);
        }
        MatchOne(EnginePicks(byId, ds, before), ys, chosen, before, byId,
                 PickFor(byId, key, Chosen(ForKey(ds, key)), Runners(ForKey(ds, key))), x);
      }
    }
  }

  lemma MatchOne(picks: seq<Pick>, ys: seq<Item>, chosen: seq<Item>, before: seq<string>, byId: map<string, Ranked>,
                 p: Pick, x: Item)
    requires Matches(picks, ys, chosen, before, byId) && StandsFor(p, x, byId) && x in chosen && x.key !in before
    requires forall y :: y in chosen && y.key == x.key ==> y == x
    ensures Matches(picks + [p], ys + [x], chosen, before + [x.key], byId)
  {
    assert forall i :: 0 <= i < |ys| ==> ys[i] in ys;
  }

  lemma ChosenHasDecision(engine: seq<Ranked>, budget: nat, ids: seq<string>, chosen: seq<Item>, ds: seq<Decision>,
                          byId: map<string, Ranked>, x: Item)
    requires Settled(engine, budget, ids, chosen, ds, byId) && x in chosen
    ensures Chosen(ForKey(ds, x.key)) != [] && x.key in KeysOf(ds)
  {
    Selection.ItemHasCandidate(engine, x);
    DecidedMember(engine, budget, ids, chosen, ds, byId, x, x.candidateIds[0]);
  }

  function PickCosts(picks: seq<Pick>): nat {
    if picks == [] then 0 else picks[0].cost + PickCosts(picks[1..])
  }

  lemma {:induction false} MatchedCosts(picks: seq<Pick>, xs: seq<Item>)
    requires |picks| == |xs| && forall i :: 0 <= i < |xs| ==> picks[i].cost == xs[i].cost
    ensures PickCosts(picks) == CostOf(xs)
  {
    if picks != [] {
      MatchedCosts(picks[1..], xs[1..]);
    }
  }

  // ---------------------------------------------------------------- guarantees of a whole run

  ghost function EngineOf(plan: Plan, ranked: seq<Ranked>): seq<Ranked> {
    InArm(plan.arms, Engine, ranked)
  }

  lemma RunSettled(w: World, plan: Plan, eps: real, cs: seq<Candidate>, exclusions: map<string, Reason>,
                   ranked: seq<Ranked>, o: Outcome)
    requires Finished(w, plan, eps, cs, exclusions, ranked, o)
    ensures Settled(EngineOf(plan, ranked), plan.budget, o.ids, o.chosen, o.result.decisions, o.byId)
  {
    EngineWellFormed(w, plan, cs, exclusions, ranked);
  }

  lemma RunMatches(w: World, plan: Plan, eps: real, cs: seq<Candidate>, exclusions: map<string, Reason>,
                   ranked: seq<Ranked>, o: Outcome)
    returns (xs: seq<Item>)
    requires Finished(w, plan, eps, cs, exclusions, ranked, o)
    ensures |xs| == |o.enginePicks| && (forall i :: 0 <= i < |xs| ==> StandsFor(o.enginePicks[i], xs[i], o.byId))
    ensures (forall x :: x in xs <==> x in o.chosen) && forall i, j :: 0 <= i < j < |xs| ==> xs[i].key != xs[j].key
  {
    var ds := o.result.decisions;
    var keys := SortBy(KeysOf(ds), StrLe);
    RunSettled(w, plan, eps, cs, exclusions, ranked, o);
    KeysDistinct(ds);
    SortByDistinct(KeysOf(ds), StrLe);
    SortByMembers(KeysOf(ds), StrLe);
    xs := PicksMatch(EngineOf(plan, ranked), plan.budget, o.ids, o.chosen, ds, o.byId, keys);
    forall x | x in o.chosen ensures x.key in keys {
      ChosenHasDecision(EngineOf(plan, ranked), plan.budget, o.ids, o.chosen, ds, o.byId, x);
    }
  }

  /** The engine's picks together cost what the allocation reports as spent, and stay within the budget. */
  lemma SpentIsPickCosts(w: World, plan: Plan, eps: real, cs: seq<Candidate>, exclusions: map<string, Reason>,
                         ranked: seq<Ranked>, o: Outcome)
    requires Finished(w, plan, eps, cs, exclusions, ranked, o)
    ensures PickCosts(o.enginePicks) == o.result.spent <= plan.budget
  {
    var items := ItemsOf(EngineOf(plan, ranked));
    var xs := RunMatches(w, plan, eps, cs, exclusions, ranked, o);
    EngineWellFormed(w, plan, cs, exclusions, ranked);
    MatchedCosts(o.enginePicks, xs);
    MatchedDistinct(items, o.ids, o.chosen, xs);
    PickedTotals(items, AsSet(o.ids), xs);
  }

  lemma MatchedDistinct(items: seq<Item>, ids: seq<string>, chosen: seq<Item>, xs: seq<Item>)
    requires DistinctIds(items) && Selection.RankedPicks(items, ids, chosen)
    requires (forall x :: x in xs <==> x in chosen) && forall i, j :: 0 <= i < j < |xs| ==> xs[i].key != xs[j].key
    ensures DistinctIds(xs) && forall x :: x in xs <==> x in items && x.id in AsSet(ids)
  {
    forall i, j | 0 <= i < j < |xs| ensures xs[i].id != xs[j].id {
      assert xs[i] in xs && xs[j] in xs;
      if xs[i].id == xs[j].id {
        Selection.SameIdSameItem(items, xs[i], xs[j]);
      }
    }
  }

  /** No unit gets two picks. A user's own unit and the user's circle are different units. */
  lemma OnePickPerUnit(w: World, plan: Plan, eps: real, cs: seq<Candidate>, exclusions: map<string, Reason>,
                       ranked: seq<Ranked>, o: Outcome, i: nat, j: nat)
    requires Finished(w, plan, eps, cs, exclusions, ranked, o) && i < j < |o.enginePicks|
    ensures forall a, b :: a in o.enginePicks[i].ids && b in o.enginePicks[j].ids && a in o.byId && b in o.byId ==>
      Unit(o.byId[a].candidate) != Unit(o.byId[b].candidate)
  {
    var xs := RunMatches(w, plan, eps, cs, exclusions, ranked, o);
    forall a, b | a in o.enginePicks[i].ids && b in o.enginePicks[j].ids && a in o.byId && b in o.byId
      ensures Unit(o.byId[a].candidate) != Unit(o.byId[b].candidate)
    {
      UnitIsKey(w, plan, eps, cs, exclusions, ranked, o, o.enginePicks[i], xs[i], a);
      UnitIsKey(w, plan, eps, cs, exclusions, ranked, o, o.enginePicks[j], xs[j], b);
    }
  }

  // A pick's candidates belong to the unit that its item's choice key names.
  lemma UnitIsKey(w: World, plan: Plan, eps: real, cs: seq<Candidate>, exclusions: map<string, Reason>,
                  ranked: seq<Ranked>, o: Outcome, p: Pick, x: Item, id: string)
    requires Finished(w, plan, eps, cs, exclusions, ranked, o) && StandsFor(p, x, o.byId) && x in o.chosen
    requires id in p.ids
    ensures id in o.byId && o.byId[id] in EngineOf(plan, ranked) && o.byId[id].candidate.id == id
    ensures Unit(o.byId[id].candidate) == x.key
    ensures p.group.Some? ==>
      exists k :: IsBundle(EngineOf(plan, ranked), Offers(EngineOf(plan, ranked)), x, k) && InOffer(o.byId[id], k)
    ensures p.group.None? ==> o.byId[id].candidate.group.None? && multiset(p.ids) == multiset([id])
  {
    RunSettled(w, plan, eps, cs, exclusions, ranked, o);
    UnitOfChosen(EngineOf(plan, ranked), plan.budget, o.ids, o.chosen, o.result.decisions, o.byId, p, x, id);
  }

  lemma UnitOfChosen(engine: seq<Ranked>, budget: nat, ids: seq<string>, chosen: seq<Item>, ds: seq<Decision>,
                     byId: map<string, Ranked>, p: Pick, x: Item, id: string)
    requires Settled(engine, budget, ids, chosen, ds, byId) && StandsFor(p, x, byId) && x in chosen && id in p.ids
    ensures id in byId && byId[id] in engine && byId[id].candidate.id == id && Unit(byId[id].candidate) == x.key
    ensures p.group.Some? ==> exists k :: IsBundle(engine, Offers(engine), x, k) && InOffer(byId[id], k)
    ensures p.group.None? ==> byId[id].candidate.group.None? && multiset(p.ids) == multiset([id])
  {
    UnitOfItem(engine, byId, p, x, id);
  }

  lemma UnitOfItem(engine: seq<Ranked>, byId: map<string, Ranked>, p: Pick, x: Item, id: string)
    requires Indexed(engine, byId) && StandsFor(p, x, byId) && x in ItemsOf(engine) && id in p.ids && ClearUsers(engine)
    ensures id in byId && byId[id] in engine && byId[id].candidate.id == id && Unit(byId[id].candidate) == x.key
    ensures p.group.Some? ==> exists k :: IsBundle(engine, Offers(engine), x, k) && InOffer(byId[id], k)
    ensures p.group.None? ==> byId[id].candidate.group.None? && multiset(p.ids) == multiset([id])
  {
    HolderOf(engine, byId, id);
    ItemForm(engine, x);
    MembersFromMultiset(p.ids, x.candidateIds);
    if r :| IsSingle(engine, x, r) {
      assert byId[r.candidate.id] == r;
    } else {
      var k :| IsBundle(engine, Offers(engine), x, k);
      MemberById(engine, byId, k, id);
    }
  }

  lemma MemberById(engine: seq<Ranked>, byId: map<string, Ranked>, k: Offer, id: string)
    requires Indexed(engine, byId) && id in BundleItem(k, Members(engine, k)).candidateIds
    ensures id in byId && byId[id] in engine && InOffer(byId[id], k)
  {
    var sorted := SortBy(Members(engine, k), ByCandidateId);
    SortByMembers(Members(engine, k), ByCandidateId);
    Selection.MembersMeaning(engine, k);
    var i :| 0 <= i < |sorted| && CandidateIds(sorted)[i] == id;
    assert sorted[i] in sorted;
    var j :| 0 <= j < |engine| && engine[j] == sorted[i];
    assert CandidateIds(engine)[j] == id;
  }

  // What holds of every candidate an engine pick stands for.
  ghost predicate EngineApproved(w: World, plan: Plan, cs: seq<Candidate>, c: Candidate) {
    && c in cs && plan.arms(Unit(c)) == Engine
    && PassesHardRules(c, w.facts(c.user), w.policy) && c.segment == Persuadable
  }

  /** Whatever the engine picks is in the ENGINE arm, passed every hard rule and is persuadable. */
  lemma EnginePicksApproved(w: World, plan: Plan, eps: real, cs: seq<Candidate>, exclusions: map<string, Reason>,
                            ranked: seq<Ranked>, o: Outcome, p: Pick, id: string)
    requires Finished(w, plan, eps, cs, exclusions, ranked, o) && p in o.enginePicks && id in p.ids
    ensures id in o.byId && o.byId[id].candidate.id == id && EngineApproved(w, plan, cs, o.byId[id].candidate)
  {
    var x := ItemOfPick(w, plan, eps, cs, exclusions, ranked, o, p);
    UnitIsKey(w, plan, eps, cs, exclusions, ranked, o, p, x, id);
    StandingApproved(w, plan, cs, exclusions, ranked, o.byId[id]);
  }

  lemma StandingApproved(w: World, plan: Plan, cs: seq<Candidate>, exclusions: map<string, Reason>, ranked: seq<Ranked>,
                         r: Ranked)
    requires Ready(w, plan, cs, exclusions, ranked) && r in EngineOf(plan, ranked)
    ensures EngineApproved(w, plan, cs, r.candidate) && Exclusion(w, cs, r.candidate).None?
  {
    InArmListed(plan.arms, Engine, ranked);
    ReadyRanked(w, plan, cs, exclusions, ranked);
    NotDeniedPasses(w, r.candidate);
  }

  lemma NotDeniedPasses(w: World, c: Candidate)
    ensures !Denied(w, c) ==> PassesHardRules(c, w.facts(c.user), w.policy) && c.segment == Persuadable
  {
    AllowedExactly(c, w.facts(c.user), Limits(w, true));
  }

  // ---------------------------------------------------------------- groups end to end

  // The engine's list holds the offer for every scored member once one member's offer is there.
  lemma WholeCircle(w: World, plan: Plan, cs: seq<Candidate>, exclusions: map<string, Reason>, ranked: seq<Ranked>,
                    k: Offer, r: Ranked)
    returns (circle: Circle)
    requires Ready(w, plan, cs, exclusions, ranked) && r in EngineOf(plan, ranked) && InOffer(r, k)
    ensures circle in w.circles && circle.id == k.group && |Scored(w, circle.members)| >= w.minSize
    ensures multiset(UsersOf(Members(EngineOf(plan, ranked), k))) == multiset(Scored(w, circle.members))
  {
    var engine := EngineOf(plan, ranked);
    var members := Members(engine, k);
    StandingApproved(w, plan, cs, exclusions, ranked, r);
    var inc;
    circle, inc := StandingOffer(w, r.candidate);
    ScoredOnly(w, circle.members);
    Selection.MembersMeaning(engine, k);
    forall m | m in Scored(w, circle.members) ensures m in UsersOf(members) {
      MemberRanked(w, plan, cs, exclusions, ranked, k, r, NewCandidate(w, m, inc, Some(circle.id)));
    }
    forall u | u in UsersOf(members) ensures u in Scored(w, circle.members) {
      var i :| 0 <= i < |members| && UsersOf(members)[i] == u;
      assert members[i] in members;
      StandingApproved(w, plan, cs, exclusions, ranked, members[i]);
      OnlyMembers(w, circle, members[i].candidate);
    }
    MemberUsersDistinct(w, plan, cs, exclusions, ranked, k);
    SameMembersSameMultiset(UsersOf(members), Scored(w, circle.members));
  }

  lemma RankedInEngine(w: World, plan: Plan, cs: seq<Candidate>, exclusions: map<string, Reason>, ranked: seq<Ranked>,
                       d: Candidate)
    requires Ready(w, plan, cs, exclusions, ranked)
    requires d in cs && Exclusion(w, cs, d).None? && plan.arms(Unit(d)) == Engine
    ensures Ranked(d, plan.priority(d)) in EngineOf(plan, ranked)
  {
    RankedListed(exclusions, cs, plan.priority);
    InArmListed(plan.arms, Engine, ranked);
    assert Lookup(exclusions, d.id) == Exclusion(w, cs, d);
  }

  lemma UserOfMember(members: seq<Ranked>, q: Ranked)
    requires q in members
    ensures q.candidate.user in UsersOf(members)
  {
    var i :| 0 <= i < |members| && members[i] == q;
    assert UsersOf(members)[i] == q.candidate.user;
  }

  lemma MemberRanked(w: World, plan: Plan, cs: seq<Candidate>, exclusions: map<string, Reason>, ranked: seq<Ranked>,
                     k: Offer, r: Ranked, d: Candidate)
    requires Ready(w, plan, cs, exclusions, ranked) && r in EngineOf(plan, ranked) && InOffer(r, k)
    requires d in cs && OfferKey(d) == OfferKey(r.candidate) && Exclusion(w, cs, d).None?
    ensures d.user in UsersOf(Members(EngineOf(plan, ranked), k))
  {
    InArmListed(plan.arms, Engine, ranked);
    assert Unit(d) == Unit(r.candidate);
    RankedInEngine(w, plan, cs, exclusions, ranked, d);
    Selection.MembersMeaning(EngineOf(plan, ranked), k);
    UserOfMember(Members(EngineOf(plan, ranked), k), Ranked(d, plan.priority(d)));
  }

  lemma {:induction false} MembersDistinct(rs: seq<Ranked>, k: Offer)
    requires Distinct(CandidateIds(rs))
    ensures Distinct(CandidateIds(Members(rs, k)))
  {
    if rs != [] {
      var before, r := rs[..|rs| - 1], rs[|rs| - 1];
      assert rs == before + [r];
      CandidateIdsOne(before, r);
      DistinctParts(CandidateIds(before), [r.candidate.id]);
      MembersDistinct(before, k);
      Selection.MembersMeaning(before, k);
      var kept := Members(before, k);
      forall i | 0 <= i < |kept| ensures CandidateIds(kept)[i] != r.candidate.id {
        assert kept[i] in before;
        var j :| 0 <= j < |before| && before[j] == kept[i];
        assert CandidateIds(before)[j] in CandidateIds(before);
      }
      assert r.candidate.id !in AsSet(CandidateIds(kept));
      DistinctAppend(CandidateIds(kept), r.candidate.id);
      CandidateIdsOne(kept, r);
    }
  }

  lemma MemberUsersDistinct(w: World, plan: Plan, cs: seq<Candidate>, exclusions: map<string, Reason>,
                            ranked: seq<Ranked>, k: Offer)
    requires Ready(w, plan, cs, exclusions, ranked)
    ensures Distinct(UsersOf(Members(EngineOf(plan, ranked), k)))
  {
    var engine := EngineOf(plan, ranked);
    var members := Members(engine, k);
    EngineWellFormed(w, plan, cs, exclusions, ranked);
    MembersDistinct(engine, k);
    Selection.MembersMeaning(engine, k);
    forall r | r in members ensures r.candidate in AllCandidates(w) && OfferKey(r.candidate) == Some(k) {
      StandingApproved(w, plan, cs, exclusions, ranked, r);
    }
    OneOfferPerUser(w, members, k);
  }

  lemma OneOfferPerUser(w: World, members: seq<Ranked>, k: Offer)
    requires Sane(w) && Distinct(CandidateIds(members))
    requires forall r :: r in members ==> r.candidate in AllCandidates(w) && OfferKey(r.candidate) == Some(k)
    ensures Distinct(UsersOf(members))
  {
    forall i, j | 0 <= i < j < |members| ensures UsersOf(members)[i] != UsersOf(members)[j] {
      assert members[i] in members && members[j] in members;
      assert CandidateIds(members)[i] != CandidateIds(members)[j];
      if members[i].candidate.user == members[j].candidate.user {
        SameOfferSameId(w, members[i].candidate, members[j].candidate);
      }
    }
  }

  lemma SameOfferSameId(w: World, a: Candidate, b: Candidate)
    requires Sane(w) && a in AllCandidates(w) && b in AllCandidates(w)
    requires a.group == b.group && a.incentive == b.incentive && a.user == b.user
    ensures a.id == b.id
  {
    var i, g := Origin(w, a);
    var j, h := Origin(w, b);
  }

  /**
   All or nothing, end to end: a group pick is made to every scored member of its circle, each once, and
   a pick that is not a group pick holds no group candidate. So no circle is ever offered something in part.
   */
  lemma GroupPickIsWhole(w: World, plan: Plan, eps: real, cs: seq<Candidate>, exclusions: map<string, Reason>,
                         ranked: seq<Ranked>, o: Outcome, p: Pick)
    returns (circle: Circle)
    requires Finished(w, plan, eps, cs, exclusions, ranked, o) && p in o.enginePicks && p.group.Some?
    ensures circle in w.circles && circle.id == p.group.value && |Scored(w, circle.members)| >= w.minSize
    ensures multiset(p.members) == multiset(Scored(w, circle.members))
  {
    var engine := EngineOf(plan, ranked);
    var k, r := PickOffer(w, plan, eps, cs, exclusions, ranked, o, p);
    EngineWellFormed(w, plan, cs, exclusions, ranked);
    circle := WholeCircle(w, plan, cs, exclusions, ranked, k, r);
    MembersAreUsers(engine, o.byId, p, k);
  }

  // The group offer that a group pick makes, and one of its members.
  lemma PickOffer(w: World, plan: Plan, eps: real, cs: seq<Candidate>, exclusions: map<string, Reason>,
                  ranked: seq<Ranked>, o: Outcome, p: Pick)
    returns (k: Offer, r: Ranked)
    requires Finished(w, plan, eps, cs, exclusions, ranked, o) && p in o.enginePicks && p.group.Some?
    ensures k.group == p.group.value && r in EngineOf(plan, ranked) && InOffer(r, k)
    ensures multiset(p.ids) == multiset(BundleItem(k, Members(EngineOf(plan, ranked), k)).candidateIds)
    ensures |p.members| == |p.ids|
    ensures forall i :: 0 <= i < |p.ids| ==> p.ids[i] in o.byId && p.members[i] == o.byId[p.ids[i]].candidate.user
  {
    var x := ItemOfPick(w, plan, eps, cs, exclusions, ranked, o, p);
    var id := PickHasId(w, plan, eps, cs, exclusions, ranked, o, p);
    UnitIsKey(w, plan, eps, cs, exclusions, ranked, o, p, x, id);
    r := o.byId[id];
    k :| IsBundle(EngineOf(plan, ranked), Offers(EngineOf(plan, ranked)), x, k) && InOffer(r, k);
    OfferMatches(EngineOf(plan, ranked), o.byId, p, x, k);
  }

  lemma ItemOfPick(w: World, plan: Plan, eps: real, cs: seq<Candidate>, exclusions: map<string, Reason>,
                   ranked: seq<Ranked>, o: Outcome, p: Pick) returns (x: Item)
    requires Finished(w, plan, eps, cs, exclusions, ranked, o) && p in o.enginePicks
    ensures x in o.chosen && StandsFor(p, x, o.byId)
  {
    var xs := RunMatches(w, plan, eps, cs, exclusions, ranked, o);
    var i :| 0 <= i < |o.enginePicks| && o.enginePicks[i] == p;
    x := xs[i];
    assert x in xs;
  }

  lemma OfferMatches(engine: seq<Ranked>, byId: map<string, Ranked>, p: Pick, x: Item, k: Offer)
    requires StandsFor(p, x, byId) && IsBundle(engine, Offers(engine), x, k) && p.group.Some?
    ensures k.group == p.group.value
    ensures multiset(p.ids) == multiset(BundleItem(k, Members(engine, k)).candidateIds)
    ensures |p.members| == |p.ids|
    ensures forall i :: 0 <= i < |p.ids| ==> p.ids[i] in byId && p.members[i] == byId[p.ids[i]].candidate.user
  {
    assert GroupKey(p.group.value)[6..] == p.group.value && GroupKey(k.group)[6..] == k.group;
  }

  lemma MembersAreUsers(engine: seq<Ranked>, byId: map<string, Ranked>, p: Pick, k: Offer)
    requires Distinct(CandidateIds(engine)) && Indexed(engine, byId) && |p.members| == |p.ids|
    requires forall i :: 0 <= i < |p.ids| ==> p.ids[i] in byId && p.members[i] == byId[p.ids[i]].candidate.user
    requires multiset(p.ids) == multiset(BundleItem(k, Members(engine, k)).candidateIds)
    ensures multiset(p.members) == multiset(UsersOf(Members(engine, k)))
  {
    BundleIdsAre(engine, k, p.ids);
    Selection.MembersMeaning(engine, k);
    ListedUsers(engine, byId, p.ids, p.members, Members(engine, k));
  }

  lemma ListedUsers(engine: seq<Ranked>, byId: map<string, Ranked>, ids: seq<string>, users: seq<string>,
                    members: seq<Ranked>)
    requires Indexed(engine, byId) && |users| == |ids|
    requires forall i :: 0 <= i < |ids| ==> ids[i] in byId && users[i] == byId[ids[i]].candidate.user
    requires Distinct(ids) && Distinct(CandidateIds(members)) && forall m :: m in members ==> m in engine
    requires forall id :: id in ids <==> id in CandidateIds(members)
    ensures multiset(users) == multiset(UsersOf(members))
  {
    var holders := seq(|ids|, i requires 0 <= i < |ids| => byId[ids[i]]);
    forall i | 0 <= i < |holders| ensures holders[i].candidate.id == ids[i] && holders[i] in engine {
      HolderOf(engine, byId, ids[i]);
    }
    assert CandidateIds(holders) == ids;
    SameIdsSameRanked(engine, byId, holders, members);
    UsersPermuted(holders, members);
    assert UsersOf(holders) == users;
  }

  lemma BundleIdsAre(engine: seq<Ranked>, k: Offer, ids: seq<string>)
    requires Distinct(CandidateIds(engine))
    requires multiset(ids) == multiset(BundleItem(k, Members(engine, k)).candidateIds)
    ensures Distinct(ids) && Distinct(CandidateIds(Members(engine, k)))
    ensures forall id :: id in ids <==> id in CandidateIds(Members(engine, k))
  {
    var members := Members(engine, k);
    MembersDistinct(engine, k);
    SortByMembers(members, ByCandidateId);
    CandidateIdsPermuted(SortBy(members, ByCandidateId), members);
    DistinctFromMultiset(CandidateIds(members), ids);
    MembersFromMultiset(CandidateIds(members), ids);
  }

  lemma SameIdsSameRanked(engine: seq<Ranked>, byId: map<string, Ranked>, a: seq<Ranked>, b: seq<Ranked>)
    requires Indexed(engine, byId) && (forall r :: r in a ==> r in engine) && (forall r :: r in b ==> r in engine)
    requires Distinct(CandidateIds(a)) && Distinct(CandidateIds(b))
    requires forall id :: id in CandidateIds(a) <==> id in CandidateIds(b)
    ensures multiset(a) == multiset(b)
  {
    DistinctById(a);
    DistinctById(b);
    forall r ensures r in a <==> r in b {
      if r in a { AlsoIn(engine, byId, a, b, r); }
      if r in b { AlsoIn(engine, byId, b, a, r); }
    }
    SameMembersSameMultiset(a, b);
  }

  lemma AlsoIn(engine: seq<Ranked>, byId: map<string, Ranked>, a: seq<Ranked>, b: seq<Ranked>, r: Ranked)
    requires Indexed(engine, byId) && r in a && (forall q :: q in a ==> q in engine)
    requires forall q :: q in b ==> q in engine
    requires forall id :: id in CandidateIds(a) <==> id in CandidateIds(b)
    ensures r in b
  {
    var i :| 0 <= i < |a| && a[i] == r;
    assert CandidateIds(a)[i] in CandidateIds(b);
    var j :| 0 <= j < |b| && CandidateIds(b)[j] == r.candidate.id;
    assert b[j] in b && byId[r.candidate.id] == b[j] && byId[r.candidate.id] == r;
  }

  lemma {:induction false} UsersPermuted(a: seq<Ranked>, b: seq<Ranked>)
    requires multiset(a) == multiset(b)
    ensures multiset(UsersOf(a)) == multiset(UsersOf(b))
  {
    if a == [] {
      assert |multiset(b)| == 0;
    } else {
      var j := RemoveFirst(a, b);
      UsersPermuted(a[1..], b[..j] + b[j + 1..]);
      assert UsersOf(a) == [a[0].candidate.user] + UsersOf(a[1..]);
      assert UsersOf(b[..j] + b[j + 1..]) == UsersOf(b[..j]) + UsersOf(b[j + 1..]);
      assert UsersOf(b) == UsersOf(b[..j]) + ([b[j].candidate.user] + UsersOf(b[j + 1..]));
    }
  }

  /** A pick without a circle offers one candidate to one user. */
  lemma SoloPickIsSingle(w: World, plan: Plan, eps: real, cs: seq<Candidate>, exclusions: map<string, Reason>,
                         ranked: seq<Ranked>, o: Outcome, p: Pick, id: string)
    requires Finished(w, plan, eps, cs, exclusions, ranked, o) && p in o.enginePicks && p.group.None? && id in p.ids
    ensures id in o.byId && o.byId[id].candidate.group.None? && multiset(p.ids) == multiset([id])
  {
    var x := ItemOfPick(w, plan, eps, cs, exclusions, ranked, o, p);
    UnitIsKey(w, plan, eps, cs, exclusions, ranked, o, p, x, id);
  }

  // ---------------------------------------------------------------- both arms

  /** Every baseline pick goes to an at-risk user of the NAIVE arm and is the cheapest offer the hard rules allow. */
  lemma NaivePicksCheapest(w: World, plan: Plan, eps: real, cs: seq<Candidate>, exclusions: map<string, Reason>,
                           ranked: seq<Ranked>, o: Outcome, p: Pick)
    requires Finished(w, plan, eps, cs, exclusions, ranked, o) && p in o.naivePicks
    ensures exists c :: Baseline.Offers(w, plan.arms, plan.threshold, cs, p, c)
  {
    Baseline.PicksAreCheapest(w, plan.arms, plan.threshold, cs, Baseline.SortedUsers(plan.arms, cs), p);
  }

  /** Conversely every at-risk NAIVE user with an offer that passes the hard rules gets a pick. */
  lemma NaiveUsersServed(w: World, plan: Plan, eps: real, cs: seq<Candidate>, exclusions: map<string, Reason>,
                         ranked: seq<Ranked>, o: Outcome, d: Candidate) returns (p: Pick, c: Candidate)
    requires Finished(w, plan, eps, cs, exclusions, ranked, o)
    requires d in cs && Baseline.Individual(plan.arms, d) && w.churn(d.user) >= plan.threshold
    requires PassesHardRules(d, w.facts(d.user), w.policy)
    ensures p in o.naivePicks && Baseline.Offers(w, plan.arms, plan.threshold, cs, p, c) && c.user == d.user
  {
    var users := Baseline.SortedUsers(plan.arms, cs);
    Baseline.SortedUsersListed(plan.arms, cs);
    p, c := Baseline.AtRiskGetsPick(w, plan.arms, plan.threshold, cs, users, d);
  }

  /** No candidate of a CONTROL unit is picked, by either arm. */
  lemma NoControlPicks(w: World, plan: Plan, eps: real, cs: seq<Candidate>, exclusions: map<string, Reason>,
                       ranked: seq<Ranked>, o: Outcome, p: Pick, id: string)
    requires Finished(w, plan, eps, cs, exclusions, ranked, o) && (p in o.enginePicks || p in o.naivePicks)
    requires id in p.ids
    ensures exists c :: c in cs && c.id == id && plan.arms(Unit(c)) != Control
  {
    if p in o.enginePicks {
      EnginePicksApproved(w, plan, eps, cs, exclusions, ranked, o, p, id);
    } else {
      NaivePicksCheapest(w, plan, eps, cs, exclusions, ranked, o, p);
      OfferIsNaive(w, plan, cs, p, id);
    }
  }

  lemma OfferIsNaive(w: World, plan: Plan, cs: seq<Candidate>, p: Pick, id: string)
    requires (exists c :: Baseline.Offers(w, plan.arms, plan.threshold, cs, p, c)) && id in p.ids
    ensures exists c :: c in cs && c.id == id && plan.arms(Unit(c)) == Naive
  {
    var c :| Baseline.Offers(w, plan.arms, plan.threshold, cs, p, c);
    assert c in cs && c.id == id;
  }

  /** Fail closed: without a complete frequency cap nobody is contacted, in any arm. */
  lemma UnsetCapMeansNoPicks(w: World, plan: Plan, eps: real, cs: seq<Candidate>, exclusions: map<string, Reason>,
                             ranked: seq<Ranked>, o: Outcome)
    requires Finished(w, plan, eps, cs, exclusions, ranked, o)
    requires w.policy.maxContacts.None? || w.policy.windowDays.None?
    ensures o.enginePicks == [] && o.naivePicks == []
  {
    if o.enginePicks != [] {
      var p := o.enginePicks[0];
      var id := PickHasId(w, plan, eps, cs, exclusions, ranked, o, p);
      EnginePicksApproved(w, plan, eps, cs, exclusions, ranked, o, p, id);
    }
    if o.naivePicks != [] {
      NaivePicksCheapest(w, plan, eps, cs, exclusions, ranked, o, o.naivePicks[0]);
    }
  }

  lemma PickHasId(w: World, plan: Plan, eps: real, cs: seq<Candidate>, exclusions: map<string, Reason>,
                  ranked: seq<Ranked>, o: Outcome, p: Pick) returns (id: string)
    requires Finished(w, plan, eps, cs, exclusions, ranked, o) && p in o.enginePicks
    ensures id in p.ids
  {
    var x := ItemOfPick(w, plan, eps, cs, exclusions, ranked, o, p);
    EngineWellFormed(w, plan, cs, exclusions, ranked);
    Selection.ItemHasCandidate(EngineOf(plan, ranked), x);
    MembersFromMultiset(p.ids, x.candidateIds);
    id := x.candidateIds[0];
  }
}
