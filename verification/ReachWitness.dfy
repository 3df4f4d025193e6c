/** One small world in which a held-out user is reached, and one in which a user goes over the frequency cap. */
module ReachWitness {
  import opened Contracts
  import opened PolicyGuard
  import opened Bundles
  import opened Candidates
  import opened Accounting
  import opened Decisions
  import opened Reach
  import opened Reachable

  // Two users in one circle, one individual and one group incentive, and one contact allowed per day.
  const CIRCLE := Circle("c", ["u", "v"])
  const GIFT := Incentive("g", 10, false, false, false)
  const PARTY := Incentive("p", 10, true, false, false)

  function Facts(): UserFacts {
    UserFacts(0, [], [])
  }

  function Pair(): World {
    World(["u", "v"], {"u", "v"}, [CIRCLE], [GIFT, PARTY], 2,
          (u: string) => 0.5, (u: string) => Persuadable, (u: string) => Facts(),
          (u: string, i: string, g: string) => "#" + u + i + g, PolicyConfig(30, 1, Some(1), Some(1), true))
  }

  lemma PairHashes(u: string, i: string, g: string, u': string, i': string, g': string)
    requires |u| == 1 && |u'| == 1 && |i| == 1 && |i'| == 1
    requires "#" + u + i + g == "#" + u' + i' + g'
    ensures u == u' && i == i' && g == g'
  {
    var s, t := "#" + u + i + g, "#" + u' + i' + g';
    assert s[1] == u[0] && t[1] == u'[0] && s[2] == i[0] && t[2] == i'[0];
    assert s[3..] == g && t[3..] == g';
  }

  lemma PairIsSane()
    ensures Sane(Pair()) && DisjointCircles(Pair().circles)
  {
    var w := Pair();
    forall u, i, g | Hashed(w, u, i, g) ensures |u| == 1 && |i| == 1 && !("bundle:" <= w.newId(u, i, g)) {
      assert w.newId(u, i, g)[0] == '#';
    }
    forall u, i, g, u', i', g' | Hashed(w, u, i, g) && Hashed(w, u', i', g') && w.newId(u, i, g) == w.newId(u', i', g')
      ensures u == u' && i == i' && g == g'
    {
      PairHashes(u, i, g, u', i', g');
    }
  }

  lemma NobodyDenied(c: Candidate)
    requires c.segment == Persuadable && !c.encouragesBorrowing && !c.changesCreditTerms
    ensures !Denied(Pair(), c) && PassesHardRules(c, Facts(), Pair().policy)
  {
    assert Inside([], -DAY, 0) == {};
    AllowedExactly(c, Facts(), Limits(Pair(), true));
  }

  lemma {:induction false} AllScored(w: World, users: seq<string>)
    requires forall u :: u in users ==> u in w.scored
    ensures Scored(w, users) == users
  {
    if users != [] {
      AllScored(w, users[..|users| - 1]);
      assert users == users[..|users| - 1] + [users[|users| - 1]];
    }
  }

  lemma PairStands(arms: string -> Arm)
    requires arms(GroupKey("c")) == Engine
    ensures Standing(Pair(), arms, CIRCLE, PARTY) && OfferCost(Pair(), CIRCLE, PARTY) == 20
    ensures Scored(Pair(), CIRCLE.members) == ["u", "v"] == Scored(Pair(), Pair().users)
  {
    AllScored(Pair(), ["u", "v"]);
    forall m | m in ["u", "v"] ensures !Denied(Pair(), NewCandidate(Pair(), m, PARTY, Some("c"))) {
      NobodyDenied(NewCandidate(Pair(), m, PARTY, Some("c")));
    }
  }

  /** The user "u" is held out and the circle is not: a run with a budget of 20 reaches "u". */
  lemma ControlUserReached() returns (arms: string -> Arm, o: Outcome)
    ensures arms("u") == Control && RunWith(Pair(), arms, 0.0, 20, o) && Reached(Pair(), o, "u")
  {
    arms := (unit: string) => if unit == "u" then Control else Engine;
    PairIsSane();
    PairStands(arms);
    assert OfferedInCircle(Pair(), arms, 20, "u");
    o := CircleReachSuffices(Pair(), arms, 0.0, 20, "u");
    ControlInCircle(Pair(), arms, 0.0, 20, o, "u");
  }

  /** One contact a day is allowed and none was made: a run with a budget of 30 contacts "u" twice. */
  lemma CapIsExceeded() returns (arms: string -> Arm, o: Outcome)
    ensures RunWith(Pair(), arms, 0.0, 30, o) && OverCap(Pair(), o, "u")
    ensures Pair().policy.maxContacts == Some(1) && |Reaching(AllCandidates(Pair()), AllPicks(o), "u")| == 2
  {
    arms := (unit: string) => Engine;
    PairIsSane();
    PairOfferedTwice(arms);
    o := TwiceSuffices(Pair(), arms, 0.0, 30, "u");
    NoContacts();
    OverCapMeans(Pair(), arms, 0.0, 30, o, "u");
    CountOfTwice(arms, 0.0, 30, o);
  }

  lemma PairOfferedTwice(arms: string -> Arm)
    requires arms("u") == Engine && arms(GroupKey("c")) == Engine
    ensures OfferedTwice(Pair(), arms, 0.0, 30, "u")
  {
    PairStands(arms);
    NobodyDenied(Solo(Pair(), "u", GIFT));
    assert SoloStanding(Pair(), arms, 0.0, "u", GIFT);
  }

  lemma NoContacts()
    ensures Contacts(Facts(), 1) == 0
  {
    assert Inside([], -DAY, 0) == {};
  }

  lemma CountOfTwice(arms: string -> Arm, threshold: real, budget: nat, o: Outcome)
    requires RunWith(Pair(), arms, threshold, budget, o) && ReachedTwice(Pair(), o, "u")
    ensures |Reaching(AllCandidates(Pair()), AllPicks(o), "u")| == 2
  {
    PairIsSane();
    var w, cs := Pair(), AllCandidates(Pair());
    var plan, eps, exclusions, ranked :|
      PlanFor(plan, arms, threshold, budget) && Finished(w, plan, eps, cs, exclusions, ranked, o);
    PicksApart(w, plan, eps, cs, exclusions, ranked, o, "u");
    CountApart(cs, AllPicks(o), "u");
  }
}
