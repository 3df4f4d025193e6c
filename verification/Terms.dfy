/** The terms of an offer: every candidate carries the terms of its incentive, and every pick respects them. */
module Terms {
  import opened Contracts
  import opened PolicyGuard
  import opened Bundles
  import opened Candidates
  import opened Accounting
  import opened Decisions
  import opened PickSafety
  import opened Reach
  import opened Reachable
  import Baseline

  // The candidate is this incentive's, field by field.
  ghost predicate CarriesTerms(c: Candidate, inc: Incentive) {
    && c.incentive == inc.code && c.cost == inc.cost && c.group.Some? == inc.isGroup
    && c.encouragesBorrowing == inc.encouragesBorrowing && c.changesCreditTerms == inc.changesCreditTerms
  }

  ghost predicate IdFrom(w: World, c: Candidate, inc: Incentive) {
    c.id == w.newId(c.user, inc.code, if c.group.Some? then c.group.value else "")
  }

  /**
   Every candidate has the code, cost, kind and rule flags of one incentive, the risk and segment of its scored user,
   an id hashed from user, code and circle, and, if it is a group candidate, a circle that holds the user.
   */
  lemma CandidateTerms(w: World, c: Candidate) returns (inc: Incentive)
    requires Sane(w) && c in AllCandidates(w)
    ensures inc in w.incentives && CarriesTerms(c, inc) && IdFrom(w, c, inc)
    ensures c.churnRisk == w.churn(c.user) && c.segment == w.segment(c.user) && c.user in w.scored
    ensures if c.group.None? then c.user in w.users
      else exists circle :: circle in w.circles && circle.id == c.group.value && c.user in circle.members
  {
    CandidatesExactly(w);
    ScoredOnly(w, w.users);
    if IsSolo(w, Scored(w, w.users), w.incentives, c) {
      inc :| inc in w.incentives && SoloOf(w, c, inc);
    } else {
      var circle :| circle in w.circles && FromCircle(w, circle, c);
      ScoredOnly(w, circle.members);
      inc :| inc in w.incentives && OfferOf(w, c, inc, circle.id);
    }
  }

  // How many of the times lie in the window of so many days before now, in seconds.
  ghost function Recent(times: seq<int>, days: int, now: int): nat {
    |set i | 0 <= i < |times| && now - days * 24 * 60 * 60 <= times[i] <= now|
  }

  /** The hard rules in terms of the incentive, the user's history and the configured limits. */
  ghost predicate Respects(inc: Incentive, facts: UserFacts, policy: PolicyConfig) {
    && !inc.changesCreditTerms
    && (inc.encouragesBorrowing ==> Recent(facts.lateAt, policy.lookbackDays, facts.now) < policy.minLate)
    && policy.maxContacts.Some? && policy.windowDays.Some?
    && Recent(facts.contactedAt, policy.windowDays.value, facts.now) < policy.maxContacts.value
  }

  lemma RecentIsInside(times: seq<int>, days: int, now: int)
    ensures Recent(times, days, now) == |Inside(times, now - days * DAY, now)|
  {
    assert days * 24 * 60 * 60 == days * DAY;
    assert Inside(times, now - days * DAY, now) ==
      set i | 0 <= i < |times| && now - days * 24 * 60 * 60 <= times[i] <= now;
  }

  /** A candidate passes the hard rules exactly when its incentive respects them for the user. */
  lemma PassesExactlyWhenRespected(c: Candidate, inc: Incentive, facts: UserFacts, policy: PolicyConfig)
    requires CarriesTerms(c, inc)
    ensures PassesHardRules(c, facts, policy) <==> Respects(inc, facts, policy)
  {
    RecentIsInside(facts.lateAt, policy.lookbackDays, facts.now);
    if policy.windowDays.Some? {
      RecentIsInside(facts.contactedAt, policy.windowDays.value, facts.now);
    }
  }

  /** Before any allocation: a candidate is denied exactly when its incentive breaks a rule or the segment is wrong. */
  lemma DeniedExactly(w: World, c: Candidate) returns (inc: Incentive)
    requires Sane(w) && c in AllCandidates(w)
    ensures inc in w.incentives && inc.code == c.incentive
    ensures Denied(w, c) <==> !Respects(inc, w.facts(c.user), w.policy) || w.segment(c.user) != Persuadable
  {
    inc := CandidateTerms(w, c);
    AllowedExactly(c, w.facts(c.user), Limits(w, true));
    PassesExactlyWhenRespected(c, inc, w.facts(c.user), w.policy);
  }

  /**
   Every candidate a pick stands for, in whatever arm, is for an incentive that changes no credit terms, urges no
   over-indebted user to borrow and keeps the frequency cap. The engine's are persuadable, the baseline's at risk.
   */
  lemma PickTerms(w: World, plan: Plan, eps: real, cs: seq<Candidate>, exclusions: map<string, Reason>,
                  ranked: seq<Ranked>, o: Outcome, p: Pick, c: Candidate) returns (inc: Incentive)
    requires Finished(w, plan, eps, cs, exclusions, ranked, o) && p in AllPicks(o) && Carries(cs, p, c)
    ensures inc in w.incentives && CarriesTerms(c, inc) && Respects(inc, w.facts(c.user), w.policy)
    ensures p in o.enginePicks ==> w.segment(c.user) == Persuadable
    ensures p !in o.enginePicks ==> w.churn(c.user) >= plan.threshold && plan.arms(c.user) == Naive && !inc.isGroup
  {
    inc := CandidateTerms(w, c);
    PassesExactlyWhenRespected(c, inc, w.facts(c.user), w.policy);
    if p in o.enginePicks {
      CarriedIsIndexed(w, plan, eps, cs, exclusions, ranked, o, p, c);
    } else {
      NaivePicksCheapest(w, plan, eps, cs, exclusions, ranked, o, p);
      NaiveTerms(w, plan, cs, p, c);
    }
  }

  lemma NaiveTerms(w: World, plan: Plan, cs: seq<Candidate>, p: Pick, c: Candidate)
    requires Sane(w) && cs == AllCandidates(w) && Carries(cs, p, c)
    requires exists d :: Baseline.Offers(w, plan.arms, plan.threshold, cs, p, d)
    ensures c.group.None? && plan.arms(c.user) == Naive && w.churn(c.user) >= plan.threshold
    ensures PassesHardRules(c, w.facts(c.user), w.policy)
  {
    var d :| Baseline.Offers(w, plan.arms, plan.threshold, cs, p, d);
    IdIdentifies(w, c, d);
  }
}
