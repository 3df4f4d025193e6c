/** What a run records about every candidate, and what a baseline pick shows. */
module Fates {
  import opened Contracts
  import opened Ordering
  import opened PolicyGuard
  import opened Bundles
  import opened Candidates
  import opened Accounting
  import opened Decisions
  import opened PickSafety
  import opened Terms
  import Baseline
  import Worth

  // ---------------------------------------------------------------- the records

  /** Some record tells the candidate lost, for this reason and with this priority. */
  ghost predicate ToldIn(ds: seq<Decision>, c: Candidate, reason: Reason, priority: real) {
    exists d :: d in ds && Tells(d, c, reason, priority)
  }

  ghost predicate Tells(d: Decision, c: Candidate, reason: Reason, priority: real) {
    && d.candidateId == c.id && d.key == (if c.group.Some? then "group:" + c.group.value else c.user)
    && !d.selected && d.rank == None && !d.isRunnerUp && d.cost == c.cost
    && d.priority == priority && d.reason == Some(reason)
  }

  lemma ToldAmong(ds: seq<Decision>, all: seq<Decision>, c: Candidate, reason: Reason, priority: real)
    requires ToldIn(ds, c, reason, priority) && forall d :: d in ds ==> d in all
    ensures ToldIn(all, c, reason, priority)
  {
    var d :| d in ds && Tells(d, c, reason, priority);
    assert d in all;
  }

  lemma ToldLast(ds: seq<Decision>, c: Candidate, reason: Reason, priority: real)
    ensures ToldIn(ds + [Extra(c, reason, priority)], c, reason, priority)
  {
    var d := Extra(c, reason, priority);
    assert d in ds + [d] && Tells(d, c, reason, priority);
  }

  lemma {:induction false} ExcludedTold(arms: string -> Arm, exclusions: map<string, Reason>, cs: seq<Candidate>,
                                        c: Candidate)
    requires c in cs && c.id in exclusions && arms(Unit(c)) != Naive
    ensures ToldIn(ExcludedExtras(arms, exclusions, cs), c, exclusions[c.id], 0.0)
  {
    var before, last := cs[..|cs| - 1], cs[|cs| - 1];
    assert cs == before + [last];
    if c in before {
      ExcludedTold(arms, exclusions, before, c);
      ToldAmong(ExcludedExtras(arms, exclusions, before), ExcludedExtras(arms, exclusions, cs), c, exclusions[c.id],
                0.0);
    } else {
      ToldLast(ExcludedExtras(arms, exclusions, before), c, exclusions[c.id], 0.0);
    }
  }

  lemma {:induction false} HoldoutTold(rs: seq<Ranked>, r: Ranked)
    requires r in rs
    ensures ToldIn(HoldoutExtras(rs), r.candidate, ControlHoldout, r.priority)
  {
    var before, last := rs[..|rs| - 1], rs[|rs| - 1];
    assert rs == before + [last];
    if r in before {
      HoldoutTold(before, r);
      ToldAmong(HoldoutExtras(before), HoldoutExtras(rs), r.candidate, ControlHoldout, r.priority);
    } else {
      ToldLast(HoldoutExtras(before), r.candidate, ControlHoldout, r.priority);
    }
  }

  lemma {:induction false} GroupTold(arms: string -> Arm, cs: seq<Candidate>, c: Candidate)
    requires c in cs && arms(Unit(c)) == Naive && c.group.Some?
    ensures ToldIn(Baseline.GroupExtras(arms, cs), c, NaiveNotChosen, 0.0)
  {
    var before, last := cs[..|cs| - 1], cs[|cs| - 1];
    assert cs == before + [last];
    if c in before {
      GroupTold(arms, before, c);
      ToldAmong(Baseline.GroupExtras(arms, before), Baseline.GroupExtras(arms, cs), c, NaiveNotChosen, 0.0);
    } else {
      ToldLast(Baseline.GroupExtras(arms, before), c, NaiveNotChosen, 0.0);
    }
  }

  lemma {:induction false} AllTold(cs: seq<Candidate>, reason: Reason, c: Candidate)
    requires c in cs
    ensures ToldIn(Baseline.ExtraAll(cs, reason), c, reason, 0.0)
  {
    var before, last := cs[..|cs| - 1], cs[|cs| - 1];
    assert cs == before + [last];
    if c in before {
      AllTold(before, reason, c);
      ToldAmong(Baseline.ExtraAll(before, reason), Baseline.ExtraAll(cs, reason), c, reason, 0.0);
    } else {
      ToldLast(Baseline.ExtraAll(before, reason), c, reason, 0.0);
    }
  }

  lemma {:induction false} RestTold(cs: seq<Candidate>, c: Candidate)
    requires c in cs
    ensures ToldIn(Baseline.NotChosen(cs), c, NaiveNotChosen, c.churnRisk)
  {
    var before, last := cs[..|cs| - 1], cs[|cs| - 1];
    assert cs == before + [last];
    if c in before {
      RestTold(before, c);
      ToldAmong(Baseline.NotChosen(before), Baseline.NotChosen(cs), c, NaiveNotChosen, c.churnRisk);
    } else {
      ToldLast(Baseline.NotChosen(before), c, NaiveNotChosen, c.churnRisk);
    }
  }

  lemma {:induction false} FailingTold(w: World, cs: seq<Candidate>, c: Candidate)
    requires c in cs && !Baseline.Passes(w, c)
    ensures ToldIn(Baseline.Failing(w, cs), c, ExclusionFor(Baseline.HardVerdict(w, c), c.segment), 0.0)
  {
    var reason := ExclusionFor(Baseline.HardVerdict(w, c), c.segment);
    var before, last := cs[..|cs| - 1], cs[|cs| - 1];
    assert cs == before + [last];
    if c in before {
      FailingTold(w, before, c);
      ToldAmong(Baseline.Failing(w, before), Baseline.Failing(w, cs), c, reason, 0.0);
    } else {
      ToldLast(Baseline.Failing(w, before), c, reason, 0.0);
    }
  }

  // ---------------------------------------------------------------- the true reasons

  /** The first hard rule that the offer breaks, or else the segment, in terms of history and limits. */
  ghost function FirstDenial(c: Candidate, facts: UserFacts, policy: PolicyConfig): Reason {
    if c.encouragesBorrowing && Recent(facts.lateAt, policy.lookbackDays, facts.now) >= policy.minLate
    then PolicyResponsibleLending
    else if policy.maxContacts.None? || policy.windowDays.None?
      || Recent(facts.contactedAt, policy.windowDays.value, facts.now) >= policy.maxContacts.value
    then PolicyFrequencyCap
    else if c.changesCreditTerms then PolicyNoCreditDecision
    else Reason.SegmentExcluded(c.segment)
  }

  lemma DenialIsFirst(c: Candidate, facts: UserFacts, policy: PolicyConfig)
    requires !Evaluate(c, facts, policy).allowed
    ensures ExclusionFor(Evaluate(c, facts, policy), c.segment) == FirstDenial(c, facts, policy)
  {
    ReasonIsTrue(c, facts, policy);
    RecentIsInside(facts.lateAt, policy.lookbackDays, facts.now);
    if policy.windowDays.Some? {
      RecentIsInside(facts.contactedAt, policy.windowDays.value, facts.now);
    }
  }

  /** Why a candidate is excluded: its own first denial, or else that a fellow member of its offer is denied. */
  lemma ExclusionTells(w: World, cs: seq<Candidate>, c: Candidate)
    ensures Denied(w, c) ==> Exclusion(w, cs, c) == Some(FirstDenial(c, w.facts(c.user), w.policy))
    ensures !Denied(w, c) && (exists m :: m in cs && m.group == c.group && c.group.Some? && m.incentive == c.incentive
                                 && Denied(w, m)) ==>
      Exclusion(w, cs, c) == Some(GroupMemberDenied)
    ensures !Denied(w, c) && !(exists m :: m in cs && m.group == c.group && c.group.Some? && m.incentive == c.incentive
                                  && Denied(w, m)) ==>
      Exclusion(w, cs, c) == None
  {
    if Denied(w, c) {
      DenialIsFirst(c, w.facts(c.user), Limits(w, true));
      assert FirstDenial(c, w.facts(c.user), Limits(w, true)) == FirstDenial(c, w.facts(c.user), w.policy);
    }
    if m :| m in cs && m.group == c.group && c.group.Some? && m.incentive == c.incentive && Denied(w, m) {
      assert OfferKey(m) == OfferKey(c);
    }
  }

  // ---------------------------------------------------------------- one user of the baseline

  lemma {:induction false} UserTold(w: World, arms: string -> Arm, threshold: real, cs: seq<Candidate>,
                                    users: seq<string>, user: string)
    requires user in users
    ensures forall d :: d in Baseline.UserExtras(w, threshold, user, Baseline.OfUser(arms, cs, user)) ==>
      d in Baseline.ExtrasOf(w, arms, threshold, cs, users)
    ensures forall p :: p in Baseline.UserPicks(w, threshold, user, Baseline.OfUser(arms, cs, user)) ==>
      p in Baseline.PicksOf(w, arms, threshold, cs, users)
  {
    var before, last := users[..|users| - 1], users[|users| - 1];
    assert users == before + [last];
    if user in before {
      UserTold(w, arms, threshold, cs, before, user);
    }
  }

  // The user's own candidates that pass the hard rules, cheapest first.
  ghost function Passing(w: World, arms: string -> Arm, cs: seq<Candidate>, user: string): seq<Candidate> {
    Baseline.Passing(w, SortBy(Baseline.OfUser(arms, cs, user), Baseline.ByCost))
  }

  // An individual candidate of a NAIVE user that passes the hard rules.
  ghost predicate Eligible(w: World, arms: string -> Arm, cs: seq<Candidate>, user: string, c: Candidate) {
    c in cs && c.user == user && c.group.None? && arms(user) == Naive && PassesHardRules(c, w.facts(user), w.policy)
  }

  // Costs no more, and is named no later where the costs are equal.
  ghost predicate NoDearer(c: Candidate, d: Candidate) {
    c.cost < d.cost || (c.cost == d.cost && (c.incentive == d.incentive || StrLt(c.incentive, d.incentive)))
  }

  lemma {:induction false} PassingDistinct(w: World, cs: seq<Candidate>)
    requires Distinct(cs)
    ensures Distinct(Baseline.Passing(w, cs))
  {
    if cs != [] {
      var before, last := cs[..|cs| - 1], cs[|cs| - 1];
      assert cs == before + [last];
      PassingDistinct(w, before);
      Baseline.PassingListed(w, before);
      assert last !in before;
    }
  }

  lemma {:induction false} OfUserDistinct(arms: string -> Arm, cs: seq<Candidate>, user: string)
    requires Distinct(cs)
    ensures Distinct(Baseline.OfUser(arms, cs, user))
  {
    if cs != [] {
      var before, last := cs[..|cs| - 1], cs[|cs| - 1];
      assert cs == before + [last];
      OfUserDistinct(arms, before, user);
      Baseline.OfUserListed(arms, before, user);
      assert last !in before;
    }
  }

  lemma PassingFacts(w: World, arms: string -> Arm, cs: seq<Candidate>, user: string)
    requires Distinct(cs)
    ensures forall c :: c in Passing(w, arms, cs, user) <==> Eligible(w, arms, cs, user, c)
    ensures Distinct(Passing(w, arms, cs, user)) && SortedBy(Passing(w, arms, cs, user), NoDearer)
  {
    var mine := Baseline.OfUser(arms, cs, user);
    var sorted := SortBy(mine, Baseline.ByCost);
    Baseline.OfUserListed(arms, cs, user);
    OfUserDistinct(arms, cs, user);
    SortByMembers(mine, Baseline.ByCost);
    SortByDistinct(mine, Baseline.ByCost);
    Baseline.CostOrder();
    SortBySorted(mine, Baseline.ByCost);
    Baseline.PassingListed(w, sorted);
    PassingDistinct(w, sorted);
    forall c ensures c in Baseline.Passing(w, sorted) <==> Eligible(w, arms, cs, user, c) {
      Baseline.PassesExactly(w, c);
    }
    CostMeans(Baseline.Passing(w, sorted));
  }

  lemma CostMeans(cs: seq<Candidate>)
    requires SortedBy(cs, Baseline.ByCost)
    ensures SortedBy(cs, NoDearer)
  {
    forall i, j | 0 <= i < j < |cs| ensures NoDearer(cs[i], cs[j]) {
      assert Baseline.ByCost(cs[i], cs[j]);
    }
  }

  // Another candidate of the same user that passes the hard rules.
  ghost predicate Rival(w: World, arms: string -> Arm, cs: seq<Candidate>, c: Candidate, d: Candidate) {
    Eligible(w, arms, cs, c.user, d) && d != c
  }

  /**
   A baseline pick offers the cheapest eligible candidate, unranked, at the user's risk, and shows the cheapest of the
   others as runner-up, if there is one.
   */
  ghost predicate NaiveShows(w: World, arms: string -> Arm, cs: seq<Candidate>, p: Pick, c: Candidate) {
    && Eligible(w, arms, cs, c.user, c) && (forall d :: Rival(w, arms, cs, c, d) ==> NoDearer(c, d))
    && p.arm == Naive && p.ids == [c.id] && p.cost == c.cost && p.group == None && p.members == []
    && p.rank == None && p.priority == c.churnRisk
    && (p.runnerUpIds == [] <==> !exists d :: Rival(w, arms, cs, c, d))
    && (p.runnerUpIds != [] ==> exists d :: SecondBest(w, arms, cs, p, c, d))
  }

  ghost predicate SecondBest(w: World, arms: string -> Arm, cs: seq<Candidate>, p: Pick, c: Candidate, d: Candidate) {
    && p.runnerUpIds == [d.id] && Rival(w, arms, cs, c, d)
    && forall e :: Rival(w, arms, cs, c, e) && e != d ==> NoDearer(d, e)
  }

  lemma FirstTwo(w: World, arms: string -> Arm, cs: seq<Candidate>, user: string)
    requires Distinct(cs) && Passing(w, arms, cs, user) != []
    ensures var passing := Passing(w, arms, cs, user);
      passing[0].user == user && NaiveShows(w, arms, cs, Baseline.NaivePick(passing), passing[0])
  {
    var passing := Passing(w, arms, cs, user);
    PassingFacts(w, arms, cs, user);
    var c, p := passing[0], Baseline.NaivePick(passing);
    assert c in passing;
    forall d | Rival(w, arms, cs, c, d) ensures NoDearer(c, d) && |passing| > 1 {
      var i := Place(passing, d);
    }
    if |passing| > 1 {
      var d := passing[1];
      assert d in passing && d != c;
      forall e | Rival(w, arms, cs, c, e) && e != d ensures NoDearer(d, e) {
        var i := Place(passing, e);
      }
      assert SecondBest(w, arms, cs, p, c, d);
    }
  }

  lemma Place<T>(s: seq<T>, x: T) returns (i: nat)
    requires x in s
    ensures i < |s| && s[i] == x
  {
    i :| 0 <= i < |s| && s[i] == x;
  }

  lemma {:induction false} PickOwner(w: World, arms: string -> Arm, threshold: real, cs: seq<Candidate>,
                                     users: seq<string>, p: Pick) returns (user: string)
    requires p in Baseline.PicksOf(w, arms, threshold, cs, users)
    ensures user in users && w.churn(user) >= threshold && Passing(w, arms, cs, user) != []
    ensures p == Baseline.NaivePick(Passing(w, arms, cs, user))
  {
    var before, last := users[..|users| - 1], users[|users| - 1];
    assert users == before + [last];
    if p in Baseline.PicksOf(w, arms, threshold, cs, before) {
      user := PickOwner(w, arms, threshold, cs, before, p);
    } else {
      user := last;
      assert p in Baseline.UserPicks(w, threshold, user, Baseline.OfUser(arms, cs, user));
    }
  }

  lemma NaivePickShows(w: World, plan: Plan, eps: real, cs: seq<Candidate>, exclusions: map<string, Reason>,
                       ranked: seq<Ranked>, o: Outcome, p: Pick) returns (c: Candidate)
    requires Finished(w, plan, eps, cs, exclusions, ranked, o) && p in o.naivePicks
    ensures NaiveShows(w, plan.arms, cs, p, c) && w.churn(c.user) >= plan.threshold && p.priority == w.churn(c.user)
  {
    CandidatesExactly(w);
    var user := PickOwner(w, plan.arms, plan.threshold, cs, Baseline.SortedUsers(plan.arms, cs), p);
    FirstTwo(w, plan.arms, cs, user);
    c := Passing(w, plan.arms, cs, user)[0];
    var inc := CandidateTerms(w, c);
  }

  // ---------------------------------------------------------------- what becomes of an individual NAIVE candidate

  lemma NaiveFate(w: World, arms: string -> Arm, threshold: real, cs: seq<Candidate>, c: Candidate)
    requires Distinct(cs) && c in cs && c.group.None? && arms(c.user) == Naive
    ensures var mine := Baseline.OfUser(arms, cs, c.user);
      var extras := Baseline.UserExtras(w, threshold, c.user, mine);
      && (w.churn(c.user) < threshold ==> ToldIn(extras, c, NaiveBelowThreshold, 0.0))
      && (w.churn(c.user) >= threshold && !PassesHardRules(c, w.facts(c.user), w.policy) ==>
            ToldIn(extras, c, FirstDenial(c, w.facts(c.user), w.policy), 0.0))
      && (w.churn(c.user) >= threshold && PassesHardRules(c, w.facts(c.user), w.policy) ==>
            (exists p :: p in Baseline.UserPicks(w, threshold, c.user, mine) && p.ids == [c.id])
            || ToldIn(extras, c, NaiveNotChosen, c.churnRisk))
  {
    var mine := Baseline.OfUser(arms, cs, c.user);
    var sorted := SortBy(mine, Baseline.ByCost);
    Baseline.OfUserListed(arms, cs, c.user);
    SortByMembers(mine, Baseline.ByCost);
    Baseline.PassesExactly(w, c);
    if w.churn(c.user) < threshold {
      AllTold(mine, NaiveBelowThreshold, c);
    } else if !Baseline.Passes(w, c) {
      FailingTold(w, sorted, c);
      HardDenial(w, c);
      ToldAmong(Baseline.Failing(w, sorted), Baseline.UserExtras(w, threshold, c.user, mine), c,
                FirstDenial(c, w.facts(c.user), w.policy), 0.0);
    } else {
      PassingFate(w, threshold, c.user, mine, c);
    }
  }

  lemma HardDenial(w: World, c: Candidate)
    requires !Baseline.Passes(w, c)
    ensures ExclusionFor(Baseline.HardVerdict(w, c), c.segment) == FirstDenial(c, w.facts(c.user), w.policy)
  {
    DenialIsFirst(c, w.facts(c.user), Limits(w, false));
    assert FirstDenial(c, w.facts(c.user), Limits(w, false)) == FirstDenial(c, w.facts(c.user), w.policy);
  }

  lemma PassingFate(w: World, threshold: real, user: string, mine: seq<Candidate>, c: Candidate)
    requires w.churn(user) >= threshold && c in mine && Baseline.Passes(w, c)
    ensures (exists p :: p in Baseline.UserPicks(w, threshold, user, mine) && p.ids == [c.id])
      || ToldIn(Baseline.UserExtras(w, threshold, user, mine), c, NaiveNotChosen, c.churnRisk)
  {
    var sorted := SortBy(mine, Baseline.ByCost);
    var passing := Baseline.Passing(w, sorted);
    SortByMembers(mine, Baseline.ByCost);
    Baseline.PassingListed(w, sorted);
    var i := Place(passing, c);
    if i == 0 {
      var p := Baseline.NaivePick(passing);
      assert p in Baseline.UserPicks(w, threshold, user, mine);
    } else {
      assert passing[1..][i - 1] == c;
      RestTold(passing[1..], c);
      ToldAmong(Baseline.NotChosen(passing[1..]), Baseline.UserExtras(w, threshold, user, mine), c, NaiveNotChosen,
                c.churnRisk);
    }
  }

  // ---------------------------------------------------------------- what becomes of every candidate

  // The unit of assignment: the circle for a group candidate, otherwise the user.
  ghost function ArmOf(plan: Plan, c: Candidate): Arm {
    plan.arms(if c.group.Some? then "group:" + c.group.value else c.user)
  }

  /** A candidate of an excluded offer is recorded with the true reason, unless its arm is the baseline's. */
  lemma ExcludedFate(w: World, plan: Plan, eps: real, cs: seq<Candidate>, exclusions: map<string, Reason>,
                     ranked: seq<Ranked>, o: Outcome, c: Candidate)
    requires Finished(w, plan, eps, cs, exclusions, ranked, o) && c in cs && ArmOf(plan, c) != Naive
    requires Exclusion(w, cs, c).Some?
    ensures ToldIn(o.extra, c, Exclusion(w, cs, c).value, 0.0)
  {
    assert Lookup(exclusions, c.id) == Exclusion(w, cs, c);
    ExcludedTold(plan.arms, exclusions, cs, c);
    ToldAmong(ExcludedExtras(plan.arms, exclusions, cs), o.extra, c, exclusions[c.id], 0.0);
  }

  lemma StandingRanked(w: World, plan: Plan, cs: seq<Candidate>, exclusions: map<string, Reason>, ranked: seq<Ranked>,
                       c: Candidate)
    requires Ready(w, plan, cs, exclusions, ranked) && c in cs && Exclusion(w, cs, c).None?
    ensures Ranked(c, plan.priority(c)) in InArm(plan.arms, ArmOf(plan, c), ranked)
  {
    assert Lookup(exclusions, c.id) == Exclusion(w, cs, c);
    RankedListed(exclusions, cs, plan.priority);
    InArmListed(plan.arms, ArmOf(plan, c), ranked);
  }

  /** A standing candidate of a CONTROL unit is recorded as held out, with its priority. */
  lemma ControlFate(w: World, plan: Plan, eps: real, cs: seq<Candidate>, exclusions: map<string, Reason>,
                    ranked: seq<Ranked>, o: Outcome, c: Candidate)
    requires Finished(w, plan, eps, cs, exclusions, ranked, o) && c in cs && ArmOf(plan, c) == Control
    requires Exclusion(w, cs, c).None?
    ensures ToldIn(o.extra, c, ControlHoldout, plan.priority(c))
  {
    StandingRanked(w, plan, cs, exclusions, ranked, c);
    var held := InArm(plan.arms, Control, ranked);
    HoldoutTold(held, Ranked(c, plan.priority(c)));
    ToldAmong(HoldoutExtras(held), o.extra, c, ControlHoldout, plan.priority(c));
  }

  /** A standing candidate of an ENGINE unit is decided by the allocator, at its own priority. */
  lemma EngineFate(w: World, plan: Plan, eps: real, cs: seq<Candidate>, exclusions: map<string, Reason>,
                   ranked: seq<Ranked>, o: Outcome, c: Candidate) returns (d: Decision)
    requires Finished(w, plan, eps, cs, exclusions, ranked, o) && c in cs && ArmOf(plan, c) == Engine
    requires Exclusion(w, cs, c).None?
    ensures d in o.result.decisions && d.candidateId == c.id
    ensures Ranked(c, plan.priority(c)) in EngineOf(plan, ranked)
  {
    StandingRanked(w, plan, cs, exclusions, ranked, c);
    RunSettled(w, plan, eps, cs, exclusions, ranked, o);
    d := Worth.DecisionFor(EngineOf(plan, ranked), o.ids, o.chosen, o.result.decisions, Ranked(c, plan.priority(c)));
  }

  /**
   A candidate of a NAIVE unit: a group candidate is never chosen; an individual one is recorded as below the threshold,
   or with the first hard rule it breaks, or is the offer of a pick, or is recorded as not chosen, at the user's risk.
   */
  lemma BaselineFate(w: World, plan: Plan, eps: real, cs: seq<Candidate>, exclusions: map<string, Reason>,
                     ranked: seq<Ranked>, o: Outcome, c: Candidate)
    requires Finished(w, plan, eps, cs, exclusions, ranked, o) && c in cs && ArmOf(plan, c) == Naive
    ensures c.group.Some? ==> ToldIn(o.extra, c, NaiveNotChosen, 0.0)
    ensures c.group.None? && w.churn(c.user) < plan.threshold ==> ToldIn(o.extra, c, NaiveBelowThreshold, 0.0)
    ensures c.group.None? && w.churn(c.user) >= plan.threshold && !PassesHardRules(c, w.facts(c.user), w.policy) ==>
      ToldIn(o.extra, c, FirstDenial(c, w.facts(c.user), w.policy), 0.0)
    ensures c.group.None? && w.churn(c.user) >= plan.threshold && PassesHardRules(c, w.facts(c.user), w.policy) ==>
      (exists p :: p in o.naivePicks && p.ids == [c.id]) || ToldIn(o.extra, c, NaiveNotChosen, w.churn(c.user))
  {
    var users := Baseline.SortedUsers(plan.arms, cs);
    if c.group.Some? {
      GroupTold(plan.arms, cs, c);
      ToldAmong(Baseline.GroupExtras(plan.arms, cs), o.extra, c, NaiveNotChosen, 0.0);
    } else {
      CandidatesExactly(w);
      Baseline.SortedUsersListed(plan.arms, cs);
      NaiveFate(w, plan.arms, plan.threshold, cs, c);
      UserTold(w, plan.arms, plan.threshold, cs, users, c.user);
      var inc := CandidateTerms(w, c);
      SoloLifted(Baseline.UserExtras(w, plan.threshold, c.user, Baseline.OfUser(plan.arms, cs, c.user)), o.extra, c);
    }
  }

  // The records of one user are among those of the run.
  lemma SoloLifted(extras: seq<Decision>, all: seq<Decision>, c: Candidate)
    requires forall d :: d in extras ==> d in all
    ensures forall reason, priority :: ToldIn(extras, c, reason, priority) ==> ToldIn(all, c, reason, priority)
  {
    forall reason, priority | ToldIn(extras, c, reason, priority) ensures ToldIn(all, c, reason, priority) {
      ToldAmong(extras, all, c, reason, priority);
    }
  }
}
