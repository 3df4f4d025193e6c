/** The order in which a run lists its picks, and a group pick its members. */
module Listing {
  import opened Contracts
  import opened Ordering
  import opened Items
  import opened Bundles
  import opened Candidates
  import opened Accounting
  import opened Decisions
  import opened PickSafety
  import Baseline
  import Selection
  import Fates
  import Shown

  // ---------------------------------------------------------------- the candidates of one pick

  lemma BehindHead<T>(head: seq<T>, rest: seq<T>, j: nat)
    requires j < |head + rest|
    ensures j >= |head| ==> (head + rest)[j] in rest
  {
    if j >= |head| {
      assert (head + rest)[j] == rest[j - |head|];
    }
  }

  // The candidates of one item are listed in the item's order.
  lemma {:induction false} PartInOrder(items: seq<Item>, x: Item, i: nat, j: nat)
    requires Distinct(AllIds(items)) && x in items && i < j < |AllIds(items)| && SortedBy(x.candidateIds, StrLe)
    requires AllIds(items)[i] in x.candidateIds && AllIds(items)[j] in x.candidateIds
    ensures StrLe(AllIds(items)[i], AllIds(items)[j])
  {
    var head, rest := items[0].candidateIds, items[1..];
    DistinctParts(head, AllIds(rest));
    if i < |head| {
      assert AllIds(items)[i] == head[i];
      BehindHead(head, AllIds(rest), j);
      Selection.OneHome(items, x, items[0], head[i]);
    } else {
      BehindHead(head, AllIds(rest), j);
      assert x in rest;
      PartInOrder(rest, x, i - |head|, j - |head|);
    }
  }

  lemma CandidateOrder()
    ensures TotalPreorder(ByCandidateId)
  {
    StrOrder();
    forall a, b ensures ByCandidateId(a, b) || ByCandidateId(b, a) {
      assert StrLe(a.candidate.id, b.candidate.id) || StrLe(b.candidate.id, a.candidate.id);
    }
    forall a, b, c | ByCandidateId(a, b) && ByCandidateId(b, c) ensures ByCandidateId(a, c) {
      StrLeTrans(a.candidate.id, b.candidate.id, c.candidate.id);
    }
  }

  lemma ItemAscends(rs: seq<Ranked>, x: Item)
    requires x in ItemsOf(rs)
    ensures SortedBy(x.candidateIds, StrLe)
  {
    ItemForm(rs, x);
    if k :| IsBundle(rs, Offers(rs), x, k) {
      var sorted := SortBy(Members(rs, k), ByCandidateId);
      CandidateOrder();
      SortBySorted(Members(rs, k), ByCandidateId);
      forall i, j | 0 <= i < j < |sorted| ensures StrLe(x.candidateIds[i], x.candidateIds[j]) {
        assert ByCandidateId(sorted[i], sorted[j]);
      }
    }
  }

  // The selected decisions of a key stand in the order of their candidate ids.
  ghost predicate Ascends(ds: seq<Decision>, key: string) {
    forall i, j :: 0 <= i < j < |ds| && Marked(ds[i], key) && Marked(ds[j], key) ==>
      StrLe(ds[i].candidateId, ds[j].candidateId)
  }

  ghost predicate Marked(d: Decision, key: string) {
    d.selected && d.key == key
  }

  lemma ChosenOne(before: seq<Decision>, d: Decision, key: string)
    ensures Chosen(ForKey(before + [d], key)) ==
      Chosen(ForKey(before, key)) + if Marked(d, key) then [d] else []
  {
    assert (before + [d])[..|before|] == before;
    assert (ForKey(before, key) + [d])[..|ForKey(before, key)|] == ForKey(before, key);
  }

  lemma {:induction false} ChosenAscend(ds: seq<Decision>, key: string)
    requires Ascends(ds, key)
    ensures SortedBy(DecisionIds(Chosen(ForKey(ds, key))), StrLe)
  {
    if ds != [] {
      var n := |ds| - 1;
      var before, d := ds[..n], ds[n];
      assert ds == before + [d];
      ChosenOne(before, d, key);
      ChosenAscend(before, key);
      ChosenListed(before, key);
      if Marked(d, key) {
        var picked := Chosen(ForKey(before, key));
        forall i | 0 <= i < |picked| ensures StrLe(picked[i].candidateId, d.candidateId) {
          assert picked[i] in picked;
          var k :| 0 <= k < |before| && before[k] == picked[i];
          assert ds[k] == picked[i] && ds[n] == d;
        }
      }
    }
  }

  lemma KeyAscends(engine: seq<Ranked>, budget: nat, ids: seq<string>, chosen: seq<Item>, ds: seq<Decision>,
                   byId: map<string, Ranked>, key: string)
    requires Settled(engine, budget, ids, chosen, ds, byId) && Chosen(ForKey(ds, key)) != []
    requires Selection.InItemOrder(ItemsOf(engine), ds)
    ensures Ascends(ds, key)
  {
    var x := ChosenAreItem(engine, budget, ids, chosen, ds, byId, key);
    var sorted := SortBy(ItemsOf(engine), ByKeyThenId);
    SortByMembers(ItemsOf(engine), ByKeyThenId);
    Selection.OneDecisionEach(engine, ids, chosen, ds);
    ItemAscends(engine, x);
    ChosenListed(ds, key);
    forall i, j | 0 <= i < j < |ds| && Marked(ds[i], key) && Marked(ds[j], key)
      ensures StrLe(ds[i].candidateId, ds[j].candidateId)
    {
      ChosenId(ds, key, i);
      ChosenId(ds, key, j);
      assert DecisionIds(ds)[i] == AllIds(sorted)[i] && DecisionIds(ds)[j] == AllIds(sorted)[j];
      PartInOrder(sorted, x, i, j);
    }
  }

  lemma ChosenId(ds: seq<Decision>, key: string, i: nat)
    requires i < |ds| && Marked(ds[i], key)
    ensures ds[i].candidateId in DecisionIds(Chosen(ForKey(ds, key)))
  {
    ChosenListed(ds, key);
    var picked := Chosen(ForKey(ds, key));
    assert ds[i] in picked;
    var k :| 0 <= k < |picked| && picked[k] == ds[i];
    assert DecisionIds(picked)[k] == ds[i].candidateId;
  }

  /** An engine pick lists its candidates, and with them its members, by ascending candidate id. */
  lemma PickAscends(w: World, plan: Plan, eps: real, cs: seq<Candidate>, exclusions: map<string, Reason>,
                    ranked: seq<Ranked>, o: Outcome, p: Pick)
    requires Finished(w, plan, eps, cs, exclusions, ranked, o) && p in o.enginePicks
    ensures forall i, j :: 0 <= i < j < |p.ids| ==> StrLt(p.ids[i], p.ids[j])
  {
    var ds := o.result.decisions;
    RunSettled(w, plan, eps, cs, exclusions, ranked, o);
    var key := Shown.PickKey(o.byId, ds, SortBy(KeysOf(ds), StrLe), p);
    KeyAscends(EngineOf(plan, ranked), plan.budget, o.ids, o.chosen, ds, o.byId, key);
    ChosenAscend(ds, key);
    var x := ChosenAreItem(EngineOf(plan, ranked), plan.budget, o.ids, o.chosen, ds, o.byId, key);
    IdsOfPick(o.byId, key, Chosen(ForKey(ds, key)), Runners(ForKey(ds, key)));
  }

  lemma IdsOfPick(byId: map<string, Ranked>, key: string, picked: seq<Decision>, runners: seq<Decision>)
    requires picked != [] && AllIndexed(byId, picked)
    requires SortedBy(DecisionIds(picked), StrLe) && Distinct(DecisionIds(picked))
    ensures var p := PickFor(byId, key, picked, runners);
      forall i, j :: 0 <= i < j < |p.ids| ==> StrLt(p.ids[i], p.ids[j])
  {
  }

  // ---------------------------------------------------------------- the picks of the engine

  // Every candidate of the first pick belongs to an earlier unit than every candidate of the second.
  ghost predicate EarlierUnit(byId: map<string, Ranked>, p: Pick, q: Pick) {
    forall a, b :: a in p.ids && b in q.ids && a in byId && b in byId ==>
      StrLt(Unit(byId[a].candidate), Unit(byId[b].candidate))
  }

  ghost predicate OfUnit(byId: map<string, Ranked>, p: Pick, key: string) {
    forall id :: id in p.ids ==> id in byId && Unit(byId[id].candidate) == key
  }

  lemma PickOfUnit(engine: seq<Ranked>, budget: nat, ids: seq<string>, chosen: seq<Item>, ds: seq<Decision>,
                   byId: map<string, Ranked>, key: string, runners: seq<Decision>)
    requires Settled(engine, budget, ids, chosen, ds, byId) && Chosen(ForKey(ds, key)) != []
    ensures AllIndexed(byId, Chosen(ForKey(ds, key)))
    ensures OfUnit(byId, PickFor(byId, key, Chosen(ForKey(ds, key)), runners), key)
  {
    var x := PickIsItem(engine, budget, ids, chosen, ds, byId, key, runners);
    var p := PickFor(byId, key, Chosen(ForKey(ds, key)), runners);
    forall id | id in p.ids ensures id in byId && Unit(byId[id].candidate) == key {
      UnitOfChosen(engine, budget, ids, chosen, ds, byId, p, x, id);
    }
  }

  // The picks belong, in order, to some of the keys.
  ghost predicate InKeyOrder(byId: map<string, Ranked>, picks: seq<Pick>, keys: seq<string>) {
    && (forall p :: p in picks ==> exists key :: key in keys && OfUnit(byId, p, key))
    && forall i, j :: 0 <= i < j < |picks| ==> EarlierUnit(byId, picks[i], picks[j])
  }

  // What the engine picks for one key: nothing or one pick.
  ghost predicate Adds(byId: map<string, Ranked>, more: seq<Pick>, key: string) {
    more == [] || (|more| == 1 && OfUnit(byId, more[0], key))
  }

  ghost function PickOfKey(byId: map<string, Ranked>, ds: seq<Decision>, key: string): seq<Pick>
    requires AllIndexed(byId, ds)
  {
    ChosenListed(ds, key);
    var chosen := Chosen(ForKey(ds, key));
    if chosen == [] then [] else [PickFor(byId, key, chosen, Runners(ForKey(ds, key)))]
  }

  lemma {:induction false} PicksByKey(ds: seq<Decision>, byId: map<string, Ranked>, keys: seq<string>)
    requires AllIndexed(byId, ds) && forall key :: Adds(byId, PickOfKey(byId, ds, key), key)
    requires SortedBy(keys, StrLe) && Distinct(keys)
    ensures InKeyOrder(byId, EnginePicks(byId, ds, keys), keys)
  {
    if keys != [] {
      var n := |keys| - 1;
      EnginePicksOne(byId, ds, keys, n);
      PicksByKey(ds, byId, keys[..n]);
      assert keys[..n + 1] == keys && keys == keys[..n] + [keys[n]];
      NextPick(byId, EnginePicks(byId, ds, keys[..n]), keys[..n], PickOfKey(byId, ds, keys[n]), keys[n]);
    }
  }

  lemma NextPick(byId: map<string, Ranked>, picks: seq<Pick>, before: seq<string>, more: seq<Pick>, key: string)
    requires InKeyOrder(byId, picks, before) && Adds(byId, more, key)
    requires SortedBy(before + [key], StrLe) && Distinct(before + [key])
    ensures InKeyOrder(byId, picks + more, before + [key])
  {
    var keys := before + [key];
    forall i | 0 <= i < |picks| && more != [] ensures EarlierUnit(byId, picks[i], more[0]) {
      assert picks[i] in picks;
      var k :| k in before && OfUnit(byId, picks[i], k);
      var n :| 0 <= n < |before| && before[n] == k;
      assert keys[n] == k && keys[|before|] == key;
    }
    forall q | q in picks ensures exists k :: k in keys && OfUnit(byId, q, k) {
      var k :| k in before && OfUnit(byId, q, k);
      assert k in keys;
    }
    assert key in keys;
  }

  /** The engine's picks are listed by unit: circle keys and users in ascending order. */
  lemma EnginePicksInOrder(w: World, plan: Plan, eps: real, cs: seq<Candidate>, exclusions: map<string, Reason>,
                           ranked: seq<Ranked>, o: Outcome, i: nat, j: nat)
    requires Finished(w, plan, eps, cs, exclusions, ranked, o) && i < j < |o.enginePicks|
    ensures EarlierUnit(o.byId, o.enginePicks[i], o.enginePicks[j])
  {
    var ds := o.result.decisions;
    RunSettled(w, plan, eps, cs, exclusions, ranked, o);
    KeysDistinct(ds);
    SortByDistinct(KeysOf(ds), StrLe);
    StrOrder();
    SortBySorted(KeysOf(ds), StrLe);
    forall key ensures Adds(o.byId, PickOfKey(o.byId, ds, key), key) {
      if Chosen(ForKey(ds, key)) != [] {
        PickOfUnit(EngineOf(plan, ranked), plan.budget, o.ids, o.chosen, ds, o.byId, key, Runners(ForKey(ds, key)));
      }
    }
    PicksByKey(ds, o.byId, SortBy(KeysOf(ds), StrLe));
  }

  // ---------------------------------------------------------------- the picks of the baseline

  // The candidate a baseline pick offers.
  ghost predicate Offered(cs: seq<Candidate>, p: Pick, c: Candidate) {
    c in cs && p.ids == [c.id]
  }

  ghost predicate OfOneUser(cs: seq<Candidate>, p: Pick, user: string) {
    forall c :: Offered(cs, p, c) ==> c.user == user
  }

  // The picks belong, in order, to some of the users.
  ghost predicate InUserOrder(cs: seq<Candidate>, picks: seq<Pick>, users: seq<string>) {
    && (forall p :: p in picks ==> exists u :: u in users && OfOneUser(cs, p, u))
    && forall i, j, c, d :: 0 <= i < j < |picks| && Offered(cs, picks[i], c) && Offered(cs, picks[j], d) ==>
         StrLt(c.user, d.user)
  }

  lemma {:induction false} PicksByUser(w: World, arms: string -> Arm, threshold: real, cs: seq<Candidate>,
                                       users: seq<string>)
    requires Distinct(Candidates.Ids(cs)) && SortedBy(users, StrLe) && Distinct(users)
    ensures InUserOrder(cs, Baseline.PicksOf(w, arms, threshold, cs, users), users)
  {
    if users != [] {
      var n := |users| - 1;
      var before, user := users[..n], users[n];
      assert users == before + [user];
      PicksByUser(w, arms, threshold, cs, before);
      var picks, more := Baseline.PicksOf(w, arms, threshold, cs, before),
        Baseline.UserPicks(w, threshold, user, Baseline.OfUser(arms, cs, user));
      if more == [] {
        NoMore(cs, picks, before, user);
      } else {
        OwnPick(w, arms, cs, user);
        NextUser(cs, picks, before, more[0], user);
        assert more == [more[0]];
      }
    }
  }

  lemma NoMore(cs: seq<Candidate>, picks: seq<Pick>, before: seq<string>, user: string)
    requires InUserOrder(cs, picks, before)
    ensures InUserOrder(cs, picks + [], before + [user])
  {
    assert picks + [] == picks;
    forall p | p in picks ensures exists u :: u in before + [user] && OfOneUser(cs, p, u) {
      var u :| u in before && OfOneUser(cs, p, u);
      assert u in before + [user];
    }
  }

  lemma OwnPick(w: World, arms: string -> Arm, cs: seq<Candidate>, user: string)
    requires Distinct(Candidates.Ids(cs)) && Fates.Passing(w, arms, cs, user) != []
    ensures OfOneUser(cs, Baseline.NaivePick(Fates.Passing(w, arms, cs, user)), user)
  {
    IdsDiffer(cs);
    Fates.PassingFacts(w, arms, cs, user);
    var c := Fates.Passing(w, arms, cs, user)[0];
    assert c in Fates.Passing(w, arms, cs, user);
    forall d | d in cs && d.id == c.id ensures d == c {
      var i :| 0 <= i < |cs| && cs[i] == c;
      var j :| 0 <= j < |cs| && cs[j] == d;
      assert Candidates.Ids(cs)[i] == Candidates.Ids(cs)[j];
    }
  }

  lemma IdsDiffer(cs: seq<Candidate>)
    requires Distinct(Candidates.Ids(cs))
    ensures Distinct(cs)
  {
    forall i, j | 0 <= i < j < |cs| ensures cs[i] != cs[j] {
      assert Candidates.Ids(cs)[i] != Candidates.Ids(cs)[j];
    }
  }

  lemma NextUser(cs: seq<Candidate>, picks: seq<Pick>, before: seq<string>, p: Pick, user: string)
    requires InUserOrder(cs, picks, before) && OfOneUser(cs, p, user)
    requires SortedBy(before + [user], StrLe) && Distinct(before + [user])
    ensures InUserOrder(cs, picks + [p], before + [user])
  {
    var users := before + [user];
    forall i, c, d | 0 <= i < |picks| && Offered(cs, picks[i], c) && Offered(cs, p, d) ensures StrLt(c.user, d.user) {
      assert picks[i] in picks;
      var u :| u in before && OfOneUser(cs, picks[i], u);
      var n :| 0 <= n < |before| && before[n] == u;
      assert users[n] == u && users[|before|] == user;
    }
    forall q | q in picks ensures exists u :: u in users && OfOneUser(cs, q, u) {
      var u :| u in before && OfOneUser(cs, q, u);
      assert u in users;
    }
    assert user in users;
  }

  /** The baseline's picks are listed by ascending user. */
  lemma NaivePicksInOrder(w: World, plan: Plan, eps: real, cs: seq<Candidate>, exclusions: map<string, Reason>,
                          ranked: seq<Ranked>, o: Outcome, i: nat, j: nat, c: Candidate, d: Candidate)
    requires Finished(w, plan, eps, cs, exclusions, ranked, o) && i < j < |o.naivePicks|
    requires Offered(cs, o.naivePicks[i], c) && Offered(cs, o.naivePicks[j], d)
    ensures StrLt(c.user, d.user)
  {
    var found := Baseline.BaselineUsers(plan.arms, cs);
    CandidateIdsDistinct(w);
    Baseline.SortedUsersListed(plan.arms, cs);
    StrOrder();
    SortBySorted(found, StrLe);
    PicksByUser(w, plan.arms, plan.threshold, cs, Baseline.SortedUsers(plan.arms, cs));
  }
}
