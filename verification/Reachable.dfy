/**
 Whom a run can reach, told from what the earlier stages hand over: the users, circles, incentives, verdicts,
 arms and the budget. Scores, priorities and the solver are left open.
 */
module Reachable {
  import opened Contracts
  import opened Ordering
  import opened PolicyGuard
  import opened Bundles
  import opened Candidates
  import opened Accounting
  import opened Decisions
  import opened PickSafety
  import opened Reach
  import opened RunExistence
  import Baseline
  import Greedy
  import Items
  import Selection

  /** A group incentive may go to a circle: it is large enough, in the ENGINE arm, and no scored member is denied. */
  ghost predicate Standing(w: World, arms: string -> Arm, circle: Circle, inc: Incentive) {
    && circle in w.circles && inc in w.incentives && inc.isGroup && |Scored(w, circle.members)| >= w.minSize
    && arms(GroupKey(circle.id)) == Engine
    && forall m :: m in Scored(w, circle.members) ==> !Denied(w, NewCandidate(w, m, inc, Some(circle.id)))
  }

  function OfferCost(w: World, circle: Circle, inc: Incentive): nat {
    |Scored(w, circle.members)| * inc.cost
  }

  function Solo(w: World, u: string, s: Incentive): Candidate {
    NewCandidate(w, u, s, None)
  }

  /** An individual incentive may go to a user, by the arm of the user. */
  ghost predicate SoloStanding(w: World, arms: string -> Arm, threshold: real, u: string, s: Incentive) {
    && s in w.incentives && !s.isGroup && u in Scored(w, w.users)
    && (arms(u) == Engine ==> !Denied(w, Solo(w, u, s)))
    && (arms(u) == Naive ==> w.churn(u) >= threshold && PassesHardRules(Solo(w, u, s), w.facts(u), w.policy))
    && arms(u) != Control
  }

  // ---------------------------------------------------------------- what a group pick shows

  lemma SameCode(incentives: seq<Incentive>, a: Incentive, b: Incentive)
    requires DistinctCodes(incentives) && a in incentives && b in incentives && a.code == b.code
    ensures a == b
  {
    var i :| 0 <= i < |incentives| && incentives[i] == a;
    var j :| 0 <= j < |incentives| && incentives[j] == b;
    assert i == j;
  }

  // The candidates of one group offer.
  lemma OfferCandidate(w: World, circle: Circle, inc: Incentive, c: Candidate)
    requires Sane(w) && circle in w.circles && inc in w.incentives && c in AllCandidates(w)
    requires OfferKey(c) == Some(Offer(circle.id, inc.code))
    ensures c == NewCandidate(w, c.user, inc, Some(circle.id)) && c.user in Scored(w, circle.members)
  {
    CandidatesExactly(w);
    assert !IsSolo(w, Scored(w, w.users), w.incentives, c);
    var other :| other in w.circles && FromCircle(w, other, c);
    var i :| i in w.incentives && OfferOf(w, c, i, other.id);
    OneCircle(w.circles, circle, other);
    SameCode(w.incentives, i, inc);
  }

  lemma MulSucc(n: nat, cost: nat)
    ensures (n + 1) * cost == n * cost + cost
  {
  }

  lemma {:induction false} EvenCost(rs: seq<Ranked>, cost: nat)
    requires forall r :: r in rs ==> r.candidate.cost == cost
    ensures TotalCost(rs) == |rs| * cost
  {
    if rs != [] {
      assert rs[0] in rs;
      EvenCost(rs[1..], cost);
      MulSucc(|rs| - 1, cost);
    }
  }

  // Every candidate of the engine's list that belongs to the offer.
  lemma EngineMembers(w: World, plan: Plan, cs: seq<Candidate>, exclusions: map<string, Reason>, ranked: seq<Ranked>,
                      circle: Circle, inc: Incentive)
    requires Ready(w, plan, cs, exclusions, ranked) && circle in w.circles && inc in w.incentives
    ensures forall m :: m in Members(EngineOf(plan, ranked), Offer(circle.id, inc.code)) ==>
      && m in EngineOf(plan, ranked) && m.candidate.cost == inc.cost && m.priority == plan.priority(m.candidate)
      && OfferKey(m.candidate) == Some(Offer(circle.id, inc.code))
  {
    var k := Offer(circle.id, inc.code);
    var engine := EngineOf(plan, ranked);
    Selection.MembersMeaning(engine, k);
    InArmListed(plan.arms, Engine, ranked);
    RankedListed(exclusions, cs, plan.priority);
    forall m | m in Members(engine, k) ensures m.candidate.cost == inc.cost {
      OfferCandidate(w, circle, inc, m.candidate);
    }
  }

  lemma OfferItemCost(w: World, plan: Plan, cs: seq<Candidate>, exclusions: map<string, Reason>, ranked: seq<Ranked>,
                      circle: Circle, inc: Incentive, r: Ranked)
    requires Ready(w, plan, cs, exclusions, ranked) && circle in w.circles && inc in w.incentives
    requires r in EngineOf(plan, ranked) && InOffer(r, Offer(circle.id, inc.code))
    ensures var k := Offer(circle.id, inc.code);
      BundleItem(k, Members(EngineOf(plan, ranked), k)).cost == OfferCost(w, circle, inc)
  {
    var k := Offer(circle.id, inc.code);
    var members := Members(EngineOf(plan, ranked), k);
    var other := WholeCircle(w, plan, cs, exclusions, ranked, k, r);
    OneCircle(w.circles, circle, other);
    EngineMembers(w, plan, cs, exclusions, ranked, circle, inc);
    SortByMembers(members, ByCandidateId);
    EvenCost(SortBy(members, ByCandidateId), inc.cost);
    SameSize(UsersOf(members), Scored(w, circle.members));
  }

  lemma SameSize<T>(a: seq<T>, b: seq<T>)
    requires multiset(a) == multiset(b)
    ensures |a| == |b|
  {
    assert |multiset(a)| == |a| && |multiset(b)| == |b|;
  }

  // The offer behind a group pick.
  lemma OfferOfPick(w: World, plan: Plan, eps: real, cs: seq<Candidate>, exclusions: map<string, Reason>,
                    ranked: seq<Ranked>, o: Outcome, p: Pick) returns (k: Offer, r: Ranked)
    requires Finished(w, plan, eps, cs, exclusions, ranked, o) && p in o.enginePicks && p.group.Some?
    ensures r in EngineOf(plan, ranked) && InOffer(r, k) && k.group == p.group.value
    ensures p.cost == BundleItem(k, Members(EngineOf(plan, ranked), k)).cost
  {
    var x := ItemOfPick(w, plan, eps, cs, exclusions, ranked, o, p);
    var id := PickHasId(w, plan, eps, cs, exclusions, ranked, o, p);
    UnitIsKey(w, plan, eps, cs, exclusions, ranked, o, p, x, id);
    r := o.byId[id];
    k :| IsBundle(EngineOf(plan, ranked), Offers(EngineOf(plan, ranked)), x, k) && InOffer(r, k);
    OfferMatches(EngineOf(plan, ranked), o.byId, p, x, k);
  }

  /** A group pick is made from an offer that stands, and costs what the offer costs. */
  lemma GroupPickStands(w: World, plan: Plan, eps: real, cs: seq<Candidate>, exclusions: map<string, Reason>,
                        ranked: seq<Ranked>, o: Outcome, p: Pick) returns (circle: Circle, inc: Incentive)
    requires Finished(w, plan, eps, cs, exclusions, ranked, o) && p in o.enginePicks && p.group.Some?
    ensures Standing(w, plan.arms, circle, inc) && p.group.value == circle.id && p.cost == OfferCost(w, circle, inc)
  {
    var k, r := OfferOfPick(w, plan, eps, cs, exclusions, ranked, o, p);
    StandingApproved(w, plan, cs, exclusions, ranked, r);
    circle, inc := StandingOffer(w, r.candidate);
    OfferItemCost(w, plan, cs, exclusions, ranked, circle, inc, r);
  }

  // ---------------------------------------------------------------- what an individual pick shows

  lemma SoloCandidate(w: World, c: Candidate) returns (s: Incentive)
    requires Sane(w) && c in AllCandidates(w) && c.group.None?
    ensures s in w.incentives && !s.isGroup && c.user in Scored(w, w.users) && c == Solo(w, c.user, s)
  {
    CandidatesExactly(w);
    assert !IsGroupOffer(w, w.circles, c);
    s :| s in w.incentives && SoloOf(w, c, s);
  }

  lemma SingleCost(engine: seq<Ranked>, byId: map<string, Ranked>, p: Pick, x: Items.Item, id: string)
    requires Indexed(engine, byId) && StandsFor(p, x, byId) && x in ItemsOf(engine) && ClearUsers(engine)
    requires p.group.None? && id in p.ids
    ensures id in byId && p.cost == byId[id].candidate.cost
  {
    ItemForm(engine, x);
    MembersFromMultiset(p.ids, x.candidateIds);
    KeyTells(engine, x);
    var r :| IsSingle(engine, x, r);
    assert byId[r.candidate.id] == r;
  }

  lemma EngineSoloCost(w: World, plan: Plan, eps: real, cs: seq<Candidate>, exclusions: map<string, Reason>,
                       ranked: seq<Ranked>, o: Outcome, p: Pick, c: Candidate)
    requires Finished(w, plan, eps, cs, exclusions, ranked, o) && p in o.enginePicks && p.group.None?
    requires Carries(cs, p, c)
    ensures p.cost == c.cost
  {
    var x := ItemOfPick(w, plan, eps, cs, exclusions, ranked, o, p);
    RunSettled(w, plan, eps, cs, exclusions, ranked, o);
    CarriedIsIndexed(w, plan, eps, cs, exclusions, ranked, o, p, c);
    ChosenItem(EngineOf(plan, ranked), plan.budget, o.ids, o.chosen, o.result.decisions, o.byId, x);
    SingleCost(EngineOf(plan, ranked), o.byId, p, x, c.id);
  }

  lemma ChosenItem(engine: seq<Ranked>, budget: nat, ids: seq<string>, chosen: seq<Items.Item>, ds: seq<Decision>,
                   byId: map<string, Ranked>, x: Items.Item)
    requires Settled(engine, budget, ids, chosen, ds, byId) && x in chosen
    ensures x in ItemsOf(engine) && Indexed(engine, byId) && ClearUsers(engine)
  {
  }

  lemma EngineSoloStands(w: World, plan: Plan, eps: real, cs: seq<Candidate>, exclusions: map<string, Reason>,
                         ranked: seq<Ranked>, o: Outcome, p: Pick, u: string) returns (s: Incentive)
    requires Finished(w, plan, eps, cs, exclusions, ranked, o) && p in o.enginePicks && p.group.None?
    requires Reaches(cs, p, u)
    ensures plan.arms(u) == Engine && SoloStanding(w, plan.arms, plan.threshold, u, s) && p.cost == s.cost
  {
    var c := EngineSolo(w, plan, eps, cs, exclusions, ranked, o, p);
    EngineSoloCost(w, plan, eps, cs, exclusions, ranked, o, p, c);
    s := ApprovedStands(w, plan, cs, p, c, u);
  }

  lemma ApprovedStands(w: World, plan: Plan, cs: seq<Candidate>, p: Pick, c: Candidate, u: string)
    returns (s: Incentive)
    requires Sane(w) && cs == AllCandidates(w) && StandsForOne(cs, p, c) && Reaches(cs, p, u)
    requires EngineApproved(w, plan, cs, c) && c.group.None?
    ensures plan.arms(u) == Engine && SoloStanding(w, plan.arms, plan.threshold, u, s) && c.cost == s.cost
  {
    OnlyUser(w, cs, p, c);
    s := SoloCandidate(w, c);
    AllowedExactly(c, w.facts(u), Limits(w, true));
  }

  lemma NaiveSoloStands(w: World, plan: Plan, eps: real, cs: seq<Candidate>, exclusions: map<string, Reason>,
                        ranked: seq<Ranked>, o: Outcome, p: Pick, u: string) returns (s: Incentive)
    requires Finished(w, plan, eps, cs, exclusions, ranked, o) && p in o.naivePicks && Reaches(cs, p, u)
    ensures plan.arms(u) == Naive && SoloStanding(w, plan.arms, plan.threshold, u, s)
  {
    NaivePicksCheapest(w, plan, eps, cs, exclusions, ranked, o, p);
    s := OfferedStands(w, plan, cs, p, u);
  }

  lemma OfferedStands(w: World, plan: Plan, cs: seq<Candidate>, p: Pick, u: string) returns (s: Incentive)
    requires Sane(w) && cs == AllCandidates(w) && Reaches(cs, p, u)
    requires exists c :: Baseline.Offers(w, plan.arms, plan.threshold, cs, p, c)
    ensures plan.arms(u) == Naive && SoloStanding(w, plan.arms, plan.threshold, u, s)
  {
    var c :| Baseline.Offers(w, plan.arms, plan.threshold, cs, p, c);
    OnlyUser(w, cs, p, c);
    s := SoloCandidate(w, c);
  }

  // ---------------------------------------------------------------- costs

  lemma {:induction false} OneCost(picks: seq<Pick>, i: nat)
    requires i < |picks|
    ensures picks[i].cost <= PickCosts(picks)
  {
    if i > 0 {
      OneCost(picks[1..], i - 1);
    }
  }

  lemma {:induction false} TwoCosts(picks: seq<Pick>, i: nat, j: nat)
    requires i < |picks| && j < |picks| && i != j
    ensures picks[i].cost + picks[j].cost <= PickCosts(picks)
  {
    if i == 0 {
      OneCost(picks[1..], j - 1);
    } else if j == 0 {
      OneCost(picks[1..], i - 1);
    } else {
      TwoCosts(picks[1..], i - 1, j - 1);
    }
  }

  // ---------------------------------------------------------------- a plan that favours one offer

  /** Worth one for the candidates of one group offer and for one individual candidate, nothing for all others. */
  function Favour(k: Offer, solo: Option<Candidate>): Candidate -> real {
    (c: Candidate) => if OfferKey(c) == Some(k) || Some(c) == solo then 1.0 else 0.0
  }

  function Favouring(arms: string -> Arm, threshold: real, budget: nat, k: Offer, solo: Option<Candidate>): Plan {
    Plan(arms, Favour(k, solo), threshold, budget, Selection.Config("greedy", 1, 0))
  }

  lemma GreedyWanted(config: Selection.Config)
    requires config.strategy == "greedy"
    ensures !Selection.WantsExact(config)
  {
    Selection.LowerAt(config.strategy);
  }

  lemma RunIsGreedy(w: World, plan: Plan, eps: real, cs: seq<Candidate>, exclusions: map<string, Reason>,
                    ranked: seq<Ranked>, o: Outcome)
    requires Finished(w, plan, eps, cs, exclusions, ranked, o) && plan.config.strategy == "greedy"
    ensures Greedy.GreedyChoice(ItemsOf(EngineOf(plan, ranked)), plan.budget, o.ids)
  {
    GreedyWanted(plan.config);
  }

  lemma {:induction false} Worth(rs: seq<Ranked>, v: real)
    requires v >= 0.0 && forall r :: r in rs ==> r.priority == v
    ensures v == 0.0 ==> TotalPriority(rs) == 0.0
    ensures v > 0.0 ==> TotalPriority(rs) >= 0.0 && (rs != [] ==> TotalPriority(rs) > 0.0)
  {
    if rs != [] {
      assert rs[0] in rs;
      Worth(rs[1..], v);
    }
  }

  lemma BundleWorth(rs: seq<Ranked>, k: Offer, v: real)
    requires v >= 0.0 && forall r :: r in Members(rs, k) ==> r.priority == v
    ensures v == 0.0 ==> BundleItem(k, Members(rs, k)).value == 0.0
    ensures v > 0.0 && Members(rs, k) != [] ==> BundleItem(k, Members(rs, k)).value > 0.0
  {
    SortByMembers(Members(rs, k), ByCandidateId);
    Worth(SortBy(Members(rs, k), ByCandidateId), v);
  }

  // The engine's list under such a plan: only the favoured candidates are worth anything.
  ghost predicate Favoured(rs: seq<Ranked>, k: Offer, solo: Option<Candidate>) {
    && (forall r :: r in rs ==> r.priority == Favour(k, solo)(r.candidate))
    && (solo.Some? ==> solo.value.group.None?)
  }

  lemma OtherBundle(rs: seq<Ranked>, k: Offer, solo: Option<Candidate>, q: Offer)
    requires Favoured(rs, k, solo)
    ensures q != k ==> BundleItem(q, Members(rs, q)).value == 0.0
    ensures q == k && Members(rs, k) != [] ==> BundleItem(q, Members(rs, q)).value > 0.0
  {
    Selection.MembersMeaning(rs, q);
    forall r | r in Members(rs, q) ensures r.priority == if q == k then 1.0 else 0.0 {
      assert OfferKey(r.candidate) == Some(q);
    }
    BundleWorth(rs, q, if q == k then 1.0 else 0.0);
  }

  /** Only the favoured offer, and the favoured candidate if it is there, are gainful items. */
  lemma FavouredItems(rs: seq<Ranked>, k: Offer, solo: Option<Candidate>, x: Items.Item)
    requires Favoured(rs, k, solo) && x in ItemsOf(rs) && x.value > 0.0
    ensures x == BundleItem(k, Members(rs, k)) || (solo.Some? && x == SingleItem(Ranked(solo.value, 1.0)))
  {
    ItemForm(rs, x);
    if q :| IsBundle(rs, Offers(rs), x, q) {
      OtherBundle(rs, k, solo, q);
    } else {
      var r :| IsSingle(rs, x, r);
      assert OfferKey(r.candidate).None? && r == Ranked(r.candidate, r.priority);
    }
  }

  // ---------------------------------------------------------------- such a plan makes the offer

  lemma OfferUnspoiled(w: World, arms: string -> Arm, circle: Circle, inc: Incentive, m: string)
    requires Sane(w) && Standing(w, arms, circle, inc) && m in Scored(w, circle.members)
    ensures var d := NewCandidate(w, m, inc, Some(circle.id));
      d in AllCandidates(w) && Exclusion(w, AllCandidates(w), d).None?
  {
    var cs, d := AllCandidates(w), NewCandidate(w, m, inc, Some(circle.id));
    CandidatesExactly(w);
    assert OfferOf(w, d, inc, circle.id);
    assert FromCircle(w, circle, d);
    forall c | c in cs && OfferKey(c) == OfferKey(d) ensures !Denied(w, c) {
      OfferCandidate(w, circle, inc, c);
    }
  }

  lemma OfferRanked(w: World, plan: Plan, cs: seq<Candidate>, exclusions: map<string, Reason>, ranked: seq<Ranked>,
                    circle: Circle, inc: Incentive, m: string) returns (r: Ranked)
    requires Ready(w, plan, cs, exclusions, ranked) && Standing(w, plan.arms, circle, inc)
    requires m in Scored(w, circle.members)
    ensures r in EngineOf(plan, ranked) && InOffer(r, Offer(circle.id, inc.code))
  {
    var d := NewCandidate(w, m, inc, Some(circle.id));
    OfferUnspoiled(w, plan.arms, circle, inc, m);
    RankedInEngine(w, plan, cs, exclusions, ranked, d);
    r := Ranked(d, plan.priority(d));
  }

  lemma SoloListed(w: World, u: string, s: Incentive)
    requires Sane(w) && s in w.incentives && !s.isGroup && u in Scored(w, w.users)
    ensures Solo(w, u, s) in AllCandidates(w)
  {
    CandidatesExactly(w);
    assert SoloOf(w, Solo(w, u, s), s);
    assert IsSolo(w, Scored(w, w.users), w.incentives, Solo(w, u, s));
  }

  lemma SoloRanked(w: World, plan: Plan, cs: seq<Candidate>, exclusions: map<string, Reason>, ranked: seq<Ranked>,
                   u: string, s: Incentive)
    requires Ready(w, plan, cs, exclusions, ranked) && plan.arms(u) == Engine
    requires SoloStanding(w, plan.arms, plan.threshold, u, s)
    ensures Ranked(Solo(w, u, s), plan.priority(Solo(w, u, s))) in EngineOf(plan, ranked)
  {
    SoloListed(w, u, s);
    RankedInEngine(w, plan, cs, exclusions, ranked, Solo(w, u, s));
  }

  lemma FavouredEngine(w: World, plan: Plan, cs: seq<Candidate>, exclusions: map<string, Reason>, ranked: seq<Ranked>,
                       k: Offer, solo: Option<Candidate>)
    requires Ready(w, plan, cs, exclusions, ranked) && plan.priority == Favour(k, solo)
    requires solo.Some? ==> solo.value.group.None?
    ensures Favoured(EngineOf(plan, ranked), k, solo)
  {
    InArmListed(plan.arms, Engine, ranked);
    RankedListed(exclusions, cs, plan.priority);
  }

  // The items such a plan is about.
  function Wanted(rs: seq<Ranked>, k: Offer, solo: Option<Candidate>): seq<Items.Item> {
    [BundleItem(k, Members(rs, k))] + if solo.Some? then [SingleItem(Ranked(solo.value, 1.0))] else []
  }

  ghost predicate WantedThere(rs: seq<Ranked>, k: Offer, solo: Option<Candidate>) {
    && Favoured(rs, k, solo) && Items.DistinctIds(ItemsOf(rs)) && ClearUsers(rs)
    && (exists r :: r in rs && InOffer(r, k))
    && (solo.Some? ==> Ranked(solo.value, 1.0) in rs)
  }

  lemma WantedItems(rs: seq<Ranked>, k: Offer, solo: Option<Candidate>)
    requires WantedThere(rs, k, solo)
    ensures forall x :: x in Wanted(rs, k, solo) <==> x in ItemsOf(rs) && x.value > 0.0
  {
    var r :| r in rs && InOffer(r, k);
    Selection.BundleListed(rs, k, r);
    Selection.MembersMeaning(rs, k);
    assert r in Members(rs, k);
    OtherBundle(rs, k, solo, k);
    if solo.Some? {
      SoloItem(rs, solo.value);
    }
    forall x | x in ItemsOf(rs) && x.value > 0.0 ensures x in Wanted(rs, k, solo) {
      FavouredItems(rs, k, solo, x);
    }
  }

  lemma SoloItem(rs: seq<Ranked>, c: Candidate)
    requires Ranked(c, 1.0) in rs && c.group.None?
    ensures SingleItem(Ranked(c, 1.0)) in ItemsOf(rs)
  {
    assert IsSingle(rs, SingleItem(Ranked(c, 1.0)), Ranked(c, 1.0));
    ItemForm(rs, SingleItem(Ranked(c, 1.0)));
  }

  lemma WantedApart(rs: seq<Ranked>, k: Offer, solo: Option<Candidate>)
    requires WantedThere(rs, k, solo)
    ensures Items.DistinctIds(Wanted(rs, k, solo)) && Items.OneItemPerKey(Wanted(rs, k, solo))
  {
    WantedItems(rs, k, solo);
    var wanted := Wanted(rs, k, solo);
    if solo.Some? {
      assert "group:" <= wanted[0].key && !("group:" <= wanted[1].key);
      assert wanted[0] in wanted && wanted[1] in wanted;
      if wanted[0].id == wanted[1].id {
        Selection.SameIdSameItem(ItemsOf(rs), wanted[0], wanted[1]);
      }
    }
  }

  /** Greedy picks the favoured items if they fit the budget together. */
  lemma WantedPicked(rs: seq<Ranked>, budget: nat, ids: seq<string>, k: Offer, solo: Option<Candidate>)
    requires WantedThere(rs, k, solo) && Greedy.GreedyChoice(ItemsOf(rs), budget, ids)
    requires BundleItem(k, Members(rs, k)).cost + (if solo.Some? then solo.value.cost else 0) <= budget
    ensures forall x :: x in Wanted(rs, k, solo) ==> x in ItemsOf(rs) && x.id in ids
  {
    WantedItems(rs, k, solo);
    WantedApart(rs, k, solo);
    WantedCost(rs, k, solo);
    AllPicked(ItemsOf(rs), budget, ids, Wanted(rs, k, solo));
  }

  lemma WantedCost(rs: seq<Ranked>, k: Offer, solo: Option<Candidate>)
    ensures Items.CostOf(Wanted(rs, k, solo)) ==
      BundleItem(k, Members(rs, k)).cost + if solo.Some? then solo.value.cost else 0
  {
    var bundle := BundleItem(k, Members(rs, k));
    CostOfOne(bundle);
    if solo.Some? {
      CostOfTwo(bundle, SingleItem(Ranked(solo.value, 1.0)));
    } else {
      assert Wanted(rs, k, solo) == [bundle];
    }
  }

  lemma CostOfOne(x: Items.Item)
    ensures Items.CostOf([x]) == x.cost
  {
    assert Items.CostOf([x][1..]) == 0;
  }

  lemma CostOfTwo(x: Items.Item, y: Items.Item)
    ensures Items.CostOf([x] + [y]) == x.cost + y.cost
  {
    assert ([x] + [y])[1..] == [y];
    CostOfOne(y);
  }

  lemma AllPicked(items: seq<Items.Item>, budget: nat, ids: seq<string>, wanted: seq<Items.Item>)
    requires Items.DistinctIds(items) && Greedy.GreedyChoice(items, budget, ids)
    requires Items.DistinctIds(wanted) && Items.OneItemPerKey(wanted) && Items.CostOf(wanted) <= budget
    requires forall x :: x in wanted <==> x in items && x.value > 0.0
    ensures forall x :: x in wanted ==> x in items && x.id in ids
  {
    forall x | x in wanted ensures x.id in ids {
      Greedy.TakesAllThatFit(items, budget, ids, wanted, x);
    }
  }

  // The pick that stands for a chosen item.
  lemma PickOfItem(w: World, plan: Plan, eps: real, cs: seq<Candidate>, exclusions: map<string, Reason>,
                   ranked: seq<Ranked>, o: Outcome, x: Items.Item) returns (p: Pick)
    requires Finished(w, plan, eps, cs, exclusions, ranked, o) && x in ItemsOf(EngineOf(plan, ranked)) && x.id in o.ids
    ensures p in o.enginePicks && StandsFor(p, x, o.byId)
  {
    RunSettled(w, plan, eps, cs, exclusions, ranked, o);
    ChosenById(EngineOf(plan, ranked), plan.budget, o.ids, o.chosen, o.result.decisions, o.byId, x);
    var xs := RunMatches(w, plan, eps, cs, exclusions, ranked, o);
    var i :| 0 <= i < |xs| && xs[i] == x;
    p := o.enginePicks[i];
  }

  lemma ChosenById(engine: seq<Ranked>, budget: nat, ids: seq<string>, chosen: seq<Items.Item>, ds: seq<Decision>,
                   byId: map<string, Ranked>, x: Items.Item)
    requires Settled(engine, budget, ids, chosen, ds, byId) && x in ItemsOf(engine) && x.id in ids
    ensures x in chosen
  {
  }

  lemma BundlePickReaches(w: World, p: Pick, k: Offer, members: seq<Ranked>, byId: map<string, Ranked>, circle: Circle,
                          u: string)
    requires StandsFor(p, BundleItem(k, members), byId) && k.group == circle.id
    requires circle in w.circles && u in circle.members && u in w.scored
    ensures InCircleOf(w, p, u)
  {
    assert GroupKey(k.group)[6..] == k.group;
    assert p.group.Some? && GroupKey(p.group.value)[6..] == p.group.value;
  }

  lemma SinglePickReaches(cs: seq<Candidate>, p: Pick, c: Candidate, byId: map<string, Ranked>)
    requires StandsFor(p, SingleItem(Ranked(c, 1.0)), byId) && c in cs && !("group:" <= c.user)
    ensures p.group.None? && Reaches(cs, p, c.user)
  {
    MembersFromMultiset(p.ids, [c.id]);
    assert c.id in [c.id];
    assert Carries(cs, p, c);
  }

  // ---------------------------------------------------------------- both kinds of picks for one user

  // What the plan is to offer: a standing group offer, and possibly an individual one to an ENGINE user.
  ghost predicate Asked(w: World, arms: string -> Arm, threshold: real, budget: nat, circle: Circle, inc: Incentive,
                        u: string, s: Option<Incentive>) {
    && Standing(w, arms, circle, inc) && u in Scored(w, circle.members)
    && (s.Some? ==> arms(u) == Engine && SoloStanding(w, arms, threshold, u, s.value))
    && OfferCost(w, circle, inc) + (if s.Some? then s.value.cost else 0) <= budget
  }

  function SoloOption(w: World, u: string, s: Option<Incentive>): Option<Candidate> {
    if s.Some? then Some(Solo(w, u, s.value)) else None
  }

  function AskedPlan(w: World, arms: string -> Arm, threshold: real, budget: nat, circle: Circle, inc: Incentive,
                     u: string, s: Option<Incentive>): Plan {
    Favouring(arms, threshold, budget, Offer(circle.id, inc.code), SoloOption(w, u, s))
  }

  lemma AskedThere(w: World, plan: Plan, cs: seq<Candidate>, exclusions: map<string, Reason>, ranked: seq<Ranked>,
                   circle: Circle, inc: Incentive, u: string, s: Option<Incentive>)
    requires Ready(w, plan, cs, exclusions, ranked)
    requires Asked(w, plan.arms, plan.threshold, plan.budget, circle, inc, u, s)
    requires plan.priority == Favour(Offer(circle.id, inc.code), SoloOption(w, u, s))
    ensures var k := Offer(circle.id, inc.code);
      && WantedThere(EngineOf(plan, ranked), k, SoloOption(w, u, s))
      && BundleItem(k, Members(EngineOf(plan, ranked), k)).cost == OfferCost(w, circle, inc)
  {
    var r := OfferRanked(w, plan, cs, exclusions, ranked, circle, inc, u);
    OfferItemCost(w, plan, cs, exclusions, ranked, circle, inc, r);
    FavouredEngine(w, plan, cs, exclusions, ranked, Offer(circle.id, inc.code), SoloOption(w, u, s));
    EngineWellFormed(w, plan, cs, exclusions, ranked);
    if s.Some? {
      SoloRanked(w, plan, cs, exclusions, ranked, u, s.value);
    }
  }

  // All asked items are picked in any run of the plan.
  lemma AskedPicked(w: World, plan: Plan, eps: real, cs: seq<Candidate>, exclusions: map<string, Reason>,
                    ranked: seq<Ranked>, o: Outcome, circle: Circle, inc: Incentive, u: string, s: Option<Incentive>)
    requires Finished(w, plan, eps, cs, exclusions, ranked, o)
    requires Asked(w, plan.arms, plan.threshold, plan.budget, circle, inc, u, s)
    requires plan == AskedPlan(w, plan.arms, plan.threshold, plan.budget, circle, inc, u, s)
    ensures forall x :: x in Wanted(EngineOf(plan, ranked), Offer(circle.id, inc.code), SoloOption(w, u, s)) ==>
      x in ItemsOf(EngineOf(plan, ranked)) && x.id in o.ids
  {
    AskedThere(w, plan, cs, exclusions, ranked, circle, inc, u, s);
    RunIsGreedy(w, plan, eps, cs, exclusions, ranked, o);
    WantedPicked(EngineOf(plan, ranked), plan.budget, o.ids, Offer(circle.id, inc.code), SoloOption(w, u, s));
  }

  /** Every run of the plan reaches the user through the circle. */
  lemma AskedCircleReaches(w: World, plan: Plan, eps: real, cs: seq<Candidate>, exclusions: map<string, Reason>,
                           ranked: seq<Ranked>, o: Outcome, circle: Circle, inc: Incentive, u: string,
                           s: Option<Incentive>) returns (p: Pick)
    requires Finished(w, plan, eps, cs, exclusions, ranked, o)
    requires Asked(w, plan.arms, plan.threshold, plan.budget, circle, inc, u, s)
    requires plan == AskedPlan(w, plan.arms, plan.threshold, plan.budget, circle, inc, u, s)
    ensures p in o.enginePicks && InCircleOf(w, p, u)
  {
    var k := Offer(circle.id, inc.code);
    AskedPicked(w, plan, eps, cs, exclusions, ranked, o, circle, inc, u, s);
    var x := BundleItem(k, Members(EngineOf(plan, ranked), k));
    assert x == Wanted(EngineOf(plan, ranked), k, SoloOption(w, u, s))[0];
    p := PickOfItem(w, plan, eps, cs, exclusions, ranked, o, x);
    CircleMember(w, circle, u);
    BundlePickReaches(w, p, k, Members(EngineOf(plan, ranked), k), o.byId, circle, u);
  }

  lemma CircleMember(w: World, circle: Circle, u: string)
    requires Sane(w) && circle in w.circles
    ensures u in Scored(w, circle.members) <==> u in circle.members && u in w.scored
  {
    ScoredOnly(w, circle.members);
  }

  /** Every run of the plan also makes the individual offer, if one is asked for. */
  lemma AskedSoloReaches(w: World, plan: Plan, eps: real, cs: seq<Candidate>, exclusions: map<string, Reason>,
                         ranked: seq<Ranked>, o: Outcome, circle: Circle, inc: Incentive, u: string, s: Incentive)
    returns (p: Pick)
    requires Finished(w, plan, eps, cs, exclusions, ranked, o)
    requires Asked(w, plan.arms, plan.threshold, plan.budget, circle, inc, u, Some(s))
    requires plan == AskedPlan(w, plan.arms, plan.threshold, plan.budget, circle, inc, u, Some(s))
    ensures p in o.enginePicks && p.group.None? && Reaches(cs, p, u)
  {
    var c := Solo(w, u, s);
    AskedPicked(w, plan, eps, cs, exclusions, ranked, o, circle, inc, u, Some(s));
    SoloWanted(EngineOf(plan, ranked), Offer(circle.id, inc.code), c);
    p := PickOfItem(w, plan, eps, cs, exclusions, ranked, o, SingleItem(Ranked(c, 1.0)));
    SoloClear(w, u, s);
    SinglePickReaches(cs, p, c, o.byId);
  }

  lemma SoloWanted(rs: seq<Ranked>, k: Offer, c: Candidate)
    ensures SingleItem(Ranked(c, 1.0)) in Wanted(rs, k, Some(c))
  {
    assert Wanted(rs, k, Some(c))[1] == SingleItem(Ranked(c, 1.0));
  }

  lemma SoloClear(w: World, u: string, s: Incentive)
    requires Sane(w) && s in w.incentives && !s.isGroup && u in Scored(w, w.users)
    ensures Solo(w, u, s) in AllCandidates(w) && !("group:" <= u)
  {
    SoloListed(w, u, s);
    CandidateIdsDistinct(w);
  }

  // ---------------------------------------------------------------- exactly whom a run can reach

  // A finished run with these arms, threshold and budget, whatever its scores, priorities and solver.
  ghost predicate RunWith(w: World, arms: string -> Arm, threshold: real, budget: nat, o: Outcome) {
    exists plan, eps, exclusions, ranked ::
      PlanFor(plan, arms, threshold, budget) && Finished(w, plan, eps, AllCandidates(w), exclusions, ranked, o)
  }

  ghost predicate PlanFor(plan: Plan, arms: string -> Arm, threshold: real, budget: nat) {
    plan.arms == arms && plan.threshold == threshold && plan.budget == budget
  }

  function AllPicks(o: Outcome): seq<Pick> {
    o.enginePicks + o.naivePicks
  }

  ghost predicate Reached(w: World, o: Outcome, u: string) {
    exists p :: p in AllPicks(o) && Reaches(AllCandidates(w), p, u)
  }

  ghost predicate ReachedInCircle(w: World, o: Outcome, u: string) {
    exists p :: p in o.enginePicks && InCircleOf(w, p, u)
  }

  // The user belongs to a circle with an affordable offer that stands.
  ghost predicate OfferedInCircle(w: World, arms: string -> Arm, budget: nat, u: string) {
    exists circle, inc ::
      Standing(w, arms, circle, inc) && u in Scored(w, circle.members) && OfferCost(w, circle, inc) <= budget
  }

  // Both an offer to the user's circle and an individual one, which the engine pays for if it makes it.
  ghost predicate OfferedTwice(w: World, arms: string -> Arm, threshold: real, budget: nat, u: string) {
    exists circle, inc, s ::
      && Standing(w, arms, circle, inc) && u in Scored(w, circle.members) && SoloStanding(w, arms, threshold, u, s)
      && OfferCost(w, circle, inc) + (if arms(u) == Engine then s.cost else 0) <= budget
  }

  lemma CircleReachNeeds(w: World, arms: string -> Arm, threshold: real, budget: nat, o: Outcome, u: string)
    requires RunWith(w, arms, threshold, budget, o) && ReachedInCircle(w, o, u)
    ensures OfferedInCircle(w, arms, budget, u)
  {
    var plan, eps, exclusions, ranked :|
      PlanFor(plan, arms, threshold, budget) && Finished(w, plan, eps, AllCandidates(w), exclusions, ranked, o);
    var p :| p in o.enginePicks && InCircleOf(w, p, u);
    var circle, inc := GroupPickStands(w, plan, eps, AllCandidates(w), exclusions, ranked, o, p);
    SpentIsPickCosts(w, plan, eps, AllCandidates(w), exclusions, ranked, o);
    PickWithinSpent(o, p);
    InThatCircle(w, p, circle, u);
  }

  lemma PickWithinSpent(o: Outcome, p: Pick)
    requires p in o.enginePicks
    ensures p.cost <= PickCosts(o.enginePicks)
  {
    var i :| 0 <= i < |o.enginePicks| && o.enginePicks[i] == p;
    OneCost(o.enginePicks, i);
  }

  lemma InThatCircle(w: World, p: Pick, circle: Circle, u: string)
    requires Sane(w) && circle in w.circles && InCircleOf(w, p, u) && p.group.value == circle.id
    ensures u in Scored(w, circle.members)
  {
    var other :| other in w.circles && other.id == p.group.value && u in other.members;
    OneCircle(w.circles, circle, other);
    CircleMember(w, circle, u);
  }

  lemma CircleReachSuffices(w: World, arms: string -> Arm, threshold: real, budget: nat, u: string)
    returns (o: Outcome)
    requires Sane(w) && OfferedInCircle(w, arms, budget, u)
    ensures RunWith(w, arms, threshold, budget, o) && ReachedInCircle(w, o, u)
  {
    var circle, inc :|
      Standing(w, arms, circle, inc) && u in Scored(w, circle.members) && OfferCost(w, circle, inc) <= budget;
    var plan := AskedPlan(w, arms, threshold, budget, circle, inc, u, None);
    var exclusions, ranked;
    exclusions, ranked, o := RunExists(w, plan, 0.0);
    assert PlanFor(plan, arms, threshold, budget);
    var p := AskedCircleReaches(w, plan, 0.0, AllCandidates(w), exclusions, ranked, o, circle, inc, u, None);
  }

  /**
   A user whose own unit is held out can be reached by some run if and only if the user is a scored member of a
   large enough circle in the ENGINE arm with a group incentive that no scored member is denied and the budget
   can pay for.
   */
  lemma ControlReachableExactly(w: World, arms: string -> Arm, threshold: real, budget: nat, u: string)
    requires Sane(w) && arms(u) == Control
    ensures (exists o :: RunWith(w, arms, threshold, budget, o) && Reached(w, o, u)) <==>
      OfferedInCircle(w, arms, budget, u)
  {
    if o :| RunWith(w, arms, threshold, budget, o) && Reached(w, o, u) {
      ControlInCircle(w, arms, threshold, budget, o, u);
      CircleReachNeeds(w, arms, threshold, budget, o, u);
    }
    if OfferedInCircle(w, arms, budget, u) {
      var o := CircleReachSuffices(w, arms, threshold, budget, u);
      ControlInCircle(w, arms, threshold, budget, o, u);
    }
  }

  lemma ControlInCircle(w: World, arms: string -> Arm, threshold: real, budget: nat, o: Outcome, u: string)
    requires RunWith(w, arms, threshold, budget, o) && arms(u) == Control
    ensures Reached(w, o, u) <==> ReachedInCircle(w, o, u)
  {
    var plan, eps, exclusions, ranked :|
      PlanFor(plan, arms, threshold, budget) && Finished(w, plan, eps, AllCandidates(w), exclusions, ranked, o);
    ControlReachedExactly(w, plan, eps, AllCandidates(w), exclusions, ranked, o, u);
  }

  // ---------------------------------------------------------------- exactly who can get two picks

  ghost predicate ReachedTwice(w: World, o: Outcome, u: string) {
    ReachedBy(AllCandidates(w), AllPicks(o), u, false) && ReachedBy(AllCandidates(w), AllPicks(o), u, true)
  }

  // A group pick that reaches the user is an engine pick for a circle of the user.
  lemma GroupAt(w: World, plan: Plan, eps: real, exclusions: map<string, Reason>, ranked: seq<Ranked>, o: Outcome,
                u: string) returns (j: nat)
    requires Finished(w, plan, eps, AllCandidates(w), exclusions, ranked, o)
    requires ReachedBy(AllCandidates(w), AllPicks(o), u, true)
    ensures j < |o.enginePicks| && o.enginePicks[j].group.Some? && InCircleOf(w, o.enginePicks[j], u)
  {
    var cs := AllCandidates(w);
    var p := GroupIn(AllPicks(o), cs, u);
    GroupPicksAreEngine(w, plan, eps, cs, exclusions, ranked, o, p);
    GroupPickReaches(w, plan, eps, cs, exclusions, ranked, o, p, u);
    j := PickIndex(o.enginePicks, p);
  }

  lemma GroupIn(picks: seq<Pick>, cs: seq<Candidate>, u: string) returns (p: Pick)
    requires ReachedBy(cs, picks, u, true)
    ensures p in picks && Reaches(cs, p, u) && p.group.Some?
  {
    var i: nat :| i < |picks| && Reaches(cs, picks[i], u) && picks[i].group.Some?;
    p := picks[i];
  }

  lemma PickIndex(picks: seq<Pick>, p: Pick) returns (j: nat)
    requires p in picks
    ensures j < |picks| && picks[j] == p
  {
    j :| 0 <= j < |picks| && picks[j] == p;
  }

  lemma SoloAt(o: Outcome, cs: seq<Candidate>, u: string) returns (p: Pick)
    requires ReachedBy(cs, AllPicks(o), u, false)
    ensures p in o.enginePicks || p in o.naivePicks
    ensures Reaches(cs, p, u) && p.group.None?
  {
    var i: nat :| i < |AllPicks(o)| && Reaches(cs, AllPicks(o)[i], u) && !AllPicks(o)[i].group.Some?;
    p := AllPicks(o)[i];
  }

  lemma TwicePaid(w: World, plan: Plan, eps: real, exclusions: map<string, Reason>, ranked: seq<Ranked>, o: Outcome,
                  p: Pick, j: nat)
    requires Finished(w, plan, eps, AllCandidates(w), exclusions, ranked, o)
    requires j < |o.enginePicks| && o.enginePicks[j].group.Some? && p.group.None?
    ensures o.enginePicks[j].cost <= plan.budget
    ensures p in o.enginePicks ==> o.enginePicks[j].cost + p.cost <= plan.budget
  {
    SpentIsPickCosts(w, plan, eps, AllCandidates(w), exclusions, ranked, o);
    OneCost(o.enginePicks, j);
    PairCost(o.enginePicks, p, j);
  }

  lemma PairCost(picks: seq<Pick>, p: Pick, j: nat)
    requires j < |picks| && picks[j] != p
    ensures p in picks ==> picks[j].cost + p.cost <= PickCosts(picks)
  {
    if p in picks {
      var i :| 0 <= i < |picks| && picks[i] == p;
      TwoCosts(picks, i, j);
    }
  }

  lemma TwiceNeeds(w: World, arms: string -> Arm, threshold: real, budget: nat, o: Outcome, u: string)
    requires RunWith(w, arms, threshold, budget, o) && ReachedTwice(w, o, u)
    ensures OfferedTwice(w, arms, threshold, budget, u)
  {
    var cs := AllCandidates(w);
    var plan, eps, exclusions, ranked :|
      PlanFor(plan, arms, threshold, budget) && Finished(w, plan, eps, AllCandidates(w), exclusions, ranked, o);
    var j := GroupAt(w, plan, eps, exclusions, ranked, o, u);
    var p := SoloAt(o, cs, u);
    TwicePaid(w, plan, eps, exclusions, ranked, o, p, j);
    var circle, inc := GroupPickStands(w, plan, eps, cs, exclusions, ranked, o, o.enginePicks[j]);
    InThatCircle(w, o.enginePicks[j], circle, u);
    var s := SoloPickStands(w, plan, eps, cs, exclusions, ranked, o, p, u);
  }

  lemma SoloPickStands(w: World, plan: Plan, eps: real, cs: seq<Candidate>, exclusions: map<string, Reason>,
                       ranked: seq<Ranked>, o: Outcome, p: Pick, u: string) returns (s: Incentive)
    requires Finished(w, plan, eps, cs, exclusions, ranked, o) && p.group.None? && Reaches(cs, p, u)
    requires p in o.enginePicks || p in o.naivePicks
    ensures SoloStanding(w, plan.arms, plan.threshold, u, s)
    ensures plan.arms(u) == Engine ==> p in o.enginePicks && p.cost == s.cost
  {
    if p in o.enginePicks {
      s := EngineSoloStands(w, plan, eps, cs, exclusions, ranked, o, p, u);
    } else {
      s := NaiveSoloStands(w, plan, eps, cs, exclusions, ranked, o, p, u);
    }
  }

  lemma AtIndex(cs: seq<Candidate>, picks: seq<Pick>, p: Pick, u: string)
    requires p in picks && Reaches(cs, p, u)
    ensures ReachedBy(cs, picks, u, p.group.Some?)
  {
    var i :| 0 <= i < |picks| && picks[i] == p;
  }

  lemma AskTwice(w: World, arms: string -> Arm, threshold: real, budget: nat, u: string)
    returns (circle: Circle, inc: Incentive, s: Incentive, asked: Option<Incentive>)
    requires OfferedTwice(w, arms, threshold, budget, u)
    ensures SoloStanding(w, arms, threshold, u, s) && asked == if arms(u) == Engine then Some(s) else None
    ensures Asked(w, arms, threshold, budget, circle, inc, u, asked)
  {
    circle, inc, s :|
      && Standing(w, arms, circle, inc) && u in Scored(w, circle.members) && SoloStanding(w, arms, threshold, u, s)
      && OfferCost(w, circle, inc) + (if arms(u) == Engine then s.cost else 0) <= budget;
    asked := if arms(u) == Engine then Some(s) else None;
  }

  lemma TwiceSuffices(w: World, arms: string -> Arm, threshold: real, budget: nat, u: string) returns (o: Outcome)
    requires Sane(w) && OfferedTwice(w, arms, threshold, budget, u)
    ensures RunWith(w, arms, threshold, budget, o) && ReachedTwice(w, o, u)
  {
    var circle, inc, s, asked := AskTwice(w, arms, threshold, budget, u);
    var plan := AskedPlan(w, arms, threshold, budget, circle, inc, u, asked);
    var exclusions, ranked;
    exclusions, ranked, o := RunExists(w, plan, 0.0);
    assert PlanFor(plan, arms, threshold, budget);
    AskedTwice(w, plan, 0.0, AllCandidates(w), exclusions, ranked, o, circle, inc, u, s);
  }

  lemma AskedTwice(w: World, plan: Plan, eps: real, cs: seq<Candidate>, exclusions: map<string, Reason>,
                   ranked: seq<Ranked>, o: Outcome, circle: Circle, inc: Incentive, u: string, s: Incentive)
    requires Finished(w, plan, eps, cs, exclusions, ranked, o) && SoloStanding(w, plan.arms, plan.threshold, u, s)
    requires var asked := if plan.arms(u) == Engine then Some(s) else None;
      && Asked(w, plan.arms, plan.threshold, plan.budget, circle, inc, u, asked)
      && plan == AskedPlan(w, plan.arms, plan.threshold, plan.budget, circle, inc, u, asked)
    ensures ReachedTwice(w, o, u)
  {
    var asked := if plan.arms(u) == Engine then Some(s) else None;
    var p := AskedCircleReaches(w, plan, eps, cs, exclusions, ranked, o, circle, inc, u, asked);
    GroupPickReaches(w, plan, eps, cs, exclusions, ranked, o, p, u);
    AtIndex(cs, AllPicks(o), p, u);
    var q: Pick;
    if plan.arms(u) == Engine {
      q := AskedSoloReaches(w, plan, eps, cs, exclusions, ranked, o, circle, inc, u, s);
    } else {
      q := NaiveServed(w, plan, eps, cs, exclusions, ranked, o, u, s);
    }
    AtIndex(cs, AllPicks(o), q, u);
  }

  lemma NaiveServed(w: World, plan: Plan, eps: real, cs: seq<Candidate>, exclusions: map<string, Reason>,
                    ranked: seq<Ranked>, o: Outcome, u: string, s: Incentive) returns (p: Pick)
    requires Finished(w, plan, eps, cs, exclusions, ranked, o)
    requires plan.arms(u) == Naive && SoloStanding(w, plan.arms, plan.threshold, u, s)
    ensures p in o.naivePicks && p.group.None? && Reaches(cs, p, u)
  {
    SoloListed(w, u, s);
    var c;
    p, c := NaiveUsersServed(w, plan, eps, cs, exclusions, ranked, o, Solo(w, u, s));
    assert Carries(cs, p, c);
  }

  /**
   A user can get both an individual and a group pick in some run if and only if an individual incentive and an
   offer to a circle of the user both stand and the budget can pay for what the engine makes of them.
   */
  lemma TwiceReachableExactly(w: World, arms: string -> Arm, threshold: real, budget: nat, u: string)
    requires Sane(w)
    ensures (exists o :: RunWith(w, arms, threshold, budget, o) && ReachedTwice(w, o, u)) <==>
      OfferedTwice(w, arms, threshold, budget, u)
  {
    if o :| RunWith(w, arms, threshold, budget, o) && ReachedTwice(w, o, u) {
      TwiceNeeds(w, arms, threshold, budget, o, u);
    }
    if OfferedTwice(w, arms, threshold, budget, u) {
      var o := TwiceSuffices(w, arms, threshold, budget, u);
    }
  }

  // Counting the picks of the run as contacts, the user is over the frequency cap.
  ghost predicate OverCap(w: World, o: Outcome, u: string)
    requires w.policy.maxContacts.Some? && w.policy.windowDays.Some?
  {
    && Reached(w, o, u)
    && Contacts(w.facts(u), w.policy.windowDays.value) + |Reaching(AllCandidates(w), AllPicks(o), u)| >
      w.policy.maxContacts.value
  }

  lemma OverCapMeans(w: World, arms: string -> Arm, threshold: real, budget: nat, o: Outcome, u: string)
    requires RunWith(w, arms, threshold, budget, o) && DisjointCircles(w.circles)
    requires w.policy.maxContacts.Some? && w.policy.windowDays.Some?
    ensures OverCap(w, o, u) <==>
      Contacts(w.facts(u), w.policy.windowDays.value) + 1 == w.policy.maxContacts.value && ReachedTwice(w, o, u)
  {
    var plan, eps, exclusions, ranked :|
      PlanFor(plan, arms, threshold, budget) && Finished(w, plan, eps, AllCandidates(w), exclusions, ranked, o);
    TwiceIsReached(w, o, u);
    if Reached(w, o, u) {
      CapExceededExactly(w, plan, eps, AllCandidates(w), exclusions, ranked, o, u);
    }
  }

  lemma TwiceIsReached(w: World, o: Outcome, u: string)
    ensures ReachedTwice(w, o, u) ==> Reached(w, o, u)
  {
    if ReachedTwice(w, o, u) {
      var p := SoloAt(o, AllCandidates(w), u);
      assert p in AllPicks(o);
    }
  }

  /**
   Some run takes a user over the frequency cap if and only if exactly one contact is left and both an individual
   incentive and an affordable offer to a circle of the user stand.
   */
  lemma CapExceedableExactly(w: World, arms: string -> Arm, threshold: real, budget: nat, u: string)
    requires Sane(w) && DisjointCircles(w.circles) && w.policy.maxContacts.Some? && w.policy.windowDays.Some?
    ensures (exists o :: RunWith(w, arms, threshold, budget, o) && OverCap(w, o, u)) <==>
      && Contacts(w.facts(u), w.policy.windowDays.value) + 1 == w.policy.maxContacts.value
      && OfferedTwice(w, arms, threshold, budget, u)
  {
    TwiceReachableExactly(w, arms, threshold, budget, u);
    forall o | RunWith(w, arms, threshold, budget, o)
      ensures OverCap(w, o, u) <==>
        Contacts(w.facts(u), w.policy.windowDays.value) + 1 == w.policy.maxContacts.value && ReachedTwice(w, o, u)
    {
      OverCapMeans(w, arms, threshold, budget, o, u);
    }
  }
}
