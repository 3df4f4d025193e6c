/** Which users the picks of a run reach, and when one user is reached twice. */
module Reach {
  import opened Contracts
  import opened Ordering
  import opened PolicyGuard
  import opened Bundles
  import opened Candidates
  import opened Accounting
  import opened Decisions
  import opened PickSafety
  import Baseline
  import Circles
  import Connectivity

  // The pick stands for a candidate of this user.
  ghost predicate Reaches(cs: seq<Candidate>, p: Pick, u: string) {
    exists c :: Carries(cs, p, c) && c.user == u
  }

  ghost predicate Carries(cs: seq<Candidate>, p: Pick, c: Candidate) {
    c in cs && c.id in p.ids
  }

  // The pick is a group pick and the user is a scored member of its circle.
  ghost predicate InCircleOf(w: World, p: Pick, u: string) {
    && p.group.Some? && u in w.scored
    && exists circle :: circle in w.circles && circle.id == p.group.value && u in circle.members
  }

  ghost predicate DisjointCircles(circles: seq<Circle>) {
    forall c, d, u :: c in circles && d in circles && u in c.members && u in d.members ==> c == d
  }

  /** Circles found in the graph are disjoint. */
  lemma FoundCirclesDisjoint(edges: seq<Connectivity.Edge>, minSize: int, digest: seq<string> -> string,
                             cs: seq<Circle>)
    requires Circles.AreCircles(edges, minSize, digest, cs)
    ensures DisjointCircles(cs)
  {
    forall c, d, u | c in cs && d in cs && u in c.members && u in d.members ensures c == d {
      var i :| 0 <= i < |cs| && cs[i] == c;
      var j :| 0 <= j < |cs| && cs[j] == d;
      Circles.CirclesDisjoint(edges, minSize, digest, cs, i, j, u);
    }
  }

  // ---------------------------------------------------------------- whom a pick reaches

  // The index finds the candidate of every id of an engine pick.
  lemma CarriedIsIndexed(w: World, plan: Plan, eps: real, cs: seq<Candidate>, exclusions: map<string, Reason>,
                         ranked: seq<Ranked>, o: Outcome, p: Pick, c: Candidate)
    requires Finished(w, plan, eps, cs, exclusions, ranked, o) && p in o.enginePicks && Carries(cs, p, c)
    ensures c.id in o.byId && o.byId[c.id].candidate == c && EngineApproved(w, plan, cs, c) && c.group == p.group
  {
    EnginePicksApproved(w, plan, eps, cs, exclusions, ranked, o, p, c.id);
    IdIdentifies(w, c, o.byId[c.id].candidate);
    if p.group.Some? {
      var x := ItemOfPick(w, plan, eps, cs, exclusions, ranked, o, p);
      UnitIsKey(w, plan, eps, cs, exclusions, ranked, o, p, x, c.id);
      assert Unit(c) == GroupKey(c.group.value) && Unit(c) == GroupKey(p.group.value);
      assert Unit(c)[6..] == c.group.value && Unit(c)[6..] == p.group.value;
    } else {
      SoloPickIsSingle(w, plan, eps, cs, exclusions, ranked, o, p, c.id);
    }
  }

  lemma OneCircle(circles: seq<Circle>, a: Circle, b: Circle)
    requires DistinctCircles(circles) && a in circles && b in circles && a.id == b.id
    ensures a == b
  {
    var i :| 0 <= i < |circles| && circles[i] == a;
    var j :| 0 <= j < |circles| && circles[j] == b;
    assert i == j;
  }

  /** A group pick reaches exactly the scored members of its circle. */
  lemma GroupPickReaches(w: World, plan: Plan, eps: real, cs: seq<Candidate>, exclusions: map<string, Reason>,
                         ranked: seq<Ranked>, o: Outcome, p: Pick, u: string)
    requires Finished(w, plan, eps, cs, exclusions, ranked, o) && p in o.enginePicks && p.group.Some?
    ensures Reaches(cs, p, u) <==> InCircleOf(w, p, u)
  {
    var circle := GroupPickIsWhole(w, plan, eps, cs, exclusions, ranked, o, p);
    MembersFromMultiset(p.members, Scored(w, circle.members));
    ScoredOnly(w, circle.members);
    MembersReached(w, plan, eps, cs, exclusions, ranked, o, p, u);
    if other :| other in w.circles && other.id == p.group.value && u in other.members {
      OneCircle(w.circles, circle, other);
    }
  }

  lemma MembersReached(w: World, plan: Plan, eps: real, cs: seq<Candidate>, exclusions: map<string, Reason>,
                       ranked: seq<Ranked>, o: Outcome, p: Pick, u: string)
    requires Finished(w, plan, eps, cs, exclusions, ranked, o) && p in o.enginePicks && p.group.Some?
    ensures Reaches(cs, p, u) <==> u in p.members
  {
    var k, r := PickOffer(w, plan, eps, cs, exclusions, ranked, o, p);
    forall id | id in p.ids ensures IndexedIn(cs, o.byId, id) {
      EnginePicksApproved(w, plan, eps, cs, exclusions, ranked, o, p, id);
    }
    forall c | Carries(cs, p, c) ensures c.id in o.byId && o.byId[c.id].candidate == c {
      CarriedIsIndexed(w, plan, eps, cs, exclusions, ranked, o, p, c);
    }
    UsersAreMembers(cs, o.byId, p, u);
  }

  ghost predicate IndexedIn(cs: seq<Candidate>, byId: map<string, Ranked>, id: string) {
    id in byId && byId[id].candidate in cs && byId[id].candidate.id == id
  }

  lemma UsersAreMembers(cs: seq<Candidate>, byId: map<string, Ranked>, p: Pick, u: string)
    requires |p.members| == |p.ids| && forall id :: id in p.ids ==> IndexedIn(cs, byId, id)
    requires forall i :: 0 <= i < |p.ids| ==> p.ids[i] in byId && p.members[i] == byId[p.ids[i]].candidate.user
    requires forall c :: Carries(cs, p, c) ==> c.id in byId && byId[c.id].candidate == c
    ensures Reaches(cs, p, u) <==> u in p.members
  {
    if c :| Carries(cs, p, c) && c.user == u {
      var i :| 0 <= i < |p.ids| && p.ids[i] == c.id;
      assert p.members[i] == u;
    }
    if u in p.members {
      var i :| 0 <= i < |p.members| && p.members[i] == u;
      assert IndexedIn(cs, byId, p.ids[i]);
      assert Carries(cs, p, byId[p.ids[i]].candidate);
    }
  }

  // A pick for the one candidate c.
  ghost predicate StandsForOne(cs: seq<Candidate>, p: Pick, c: Candidate) {
    c in cs && forall id :: id in p.ids <==> id == c.id
  }

  lemma OnlyUser(w: World, cs: seq<Candidate>, p: Pick, c: Candidate)
    requires Sane(w) && cs == AllCandidates(w) && StandsForOne(cs, p, c)
    ensures forall u :: Reaches(cs, p, u) <==> u == c.user
  {
    assert Carries(cs, p, c);
    forall d | Carries(cs, p, d) ensures d == c {
      IdIdentifies(w, c, d);
    }
  }

  lemma OneId(cs: seq<Candidate>, byId: map<string, Ranked>, p: Pick, id: string)
    requires IndexedIn(cs, byId, id) && multiset(p.ids) == multiset([id])
    ensures StandsForOne(cs, p, byId[id].candidate)
  {
    MembersFromMultiset(p.ids, [id]);
  }

  lemma EngineSolo(w: World, plan: Plan, eps: real, cs: seq<Candidate>, exclusions: map<string, Reason>,
                   ranked: seq<Ranked>, o: Outcome, p: Pick) returns (c: Candidate)
    requires Finished(w, plan, eps, cs, exclusions, ranked, o) && p in o.enginePicks && p.group.None?
    ensures StandsForOne(cs, p, c) && EngineApproved(w, plan, cs, c) && c.group.None?
  {
    var id := PickHasId(w, plan, eps, cs, exclusions, ranked, o, p);
    EnginePicksApproved(w, plan, eps, cs, exclusions, ranked, o, p, id);
    SoloPickIsSingle(w, plan, eps, cs, exclusions, ranked, o, p, id);
    c := o.byId[id].candidate;
    OneId(cs, o.byId, p, id);
  }

  lemma OfferedOne(w: World, plan: Plan, cs: seq<Candidate>, p: Pick) returns (c: Candidate)
    requires exists d :: Baseline.Offers(w, plan.arms, plan.threshold, cs, p, d)
    ensures StandsForOne(cs, p, c) && plan.arms(c.user) == Naive && c.group.None?
    ensures p.group.None? && p.arm == Naive && PassesHardRules(c, w.facts(c.user), w.policy)
  {
    c :| Baseline.Offers(w, plan.arms, plan.threshold, cs, p, c);
  }

  lemma NaiveSolo(w: World, plan: Plan, eps: real, cs: seq<Candidate>, exclusions: map<string, Reason>,
                  ranked: seq<Ranked>, o: Outcome, p: Pick) returns (c: Candidate)
    requires Finished(w, plan, eps, cs, exclusions, ranked, o) && p in o.naivePicks
    ensures StandsForOne(cs, p, c) && plan.arms(c.user) == Naive && c.group.None?
    ensures p.group.None? && p.arm == Naive && PassesHardRules(c, w.facts(c.user), w.policy)
  {
    NaivePicksCheapest(w, plan, eps, cs, exclusions, ranked, o, p);
    c := OfferedOne(w, plan, cs, p);
  }

  /** A solo pick reaches one user, of the pick's own arm, who passes the hard rules. */
  lemma SoloPickReaches(w: World, plan: Plan, eps: real, cs: seq<Candidate>, exclusions: map<string, Reason>,
                        ranked: seq<Ranked>, o: Outcome, p: Pick) returns (c: Candidate)
    requires Finished(w, plan, eps, cs, exclusions, ranked, o)
    requires p in o.enginePicks + o.naivePicks && p.group.None?
    ensures c in cs && plan.arms(c.user) == (if p in o.enginePicks then Engine else Naive)
    ensures PassesHardRules(c, w.facts(c.user), w.policy)
    ensures forall u :: Reaches(cs, p, u) <==> u == c.user
  {
    if p in o.enginePicks {
      c := EngineSolo(w, plan, eps, cs, exclusions, ranked, o, p);
    } else {
      c := NaiveSolo(w, plan, eps, cs, exclusions, ranked, o, p);
    }
    OnlyUser(w, cs, p, c);
  }

  // ---------------------------------------------------------------- two picks for one user

  /** Two engine picks that share a user are not both solo, and not both for one circle. */
  lemma SharedUser(w: World, plan: Plan, eps: real, cs: seq<Candidate>, exclusions: map<string, Reason>,
                   ranked: seq<Ranked>, o: Outcome, i: nat, j: nat, u: string)
    requires Finished(w, plan, eps, cs, exclusions, ranked, o) && i < j < |o.enginePicks|
    requires Reaches(cs, o.enginePicks[i], u) && Reaches(cs, o.enginePicks[j], u)
    ensures o.enginePicks[i].group != o.enginePicks[j].group
  {
    var c := ReachedUnit(w, plan, eps, cs, exclusions, ranked, o, o.enginePicks[i], u);
    var d := ReachedUnit(w, plan, eps, cs, exclusions, ranked, o, o.enginePicks[j], u);
    OnePickPerUnit(w, plan, eps, cs, exclusions, ranked, o, i, j);
    UnitsApart(o.byId, o.enginePicks[i], o.enginePicks[j], c, d);
  }

  lemma UnitsApart(byId: map<string, Ranked>, p: Pick, q: Pick, c: Candidate, d: Candidate)
    requires c.id in p.ids && c.id in byId && byId[c.id].candidate == c && c.group == p.group
    requires d.id in q.ids && d.id in byId && byId[d.id].candidate == d && d.group == q.group && c.user == d.user
    requires forall a, b :: a in p.ids && b in q.ids && a in byId && b in byId ==>
      Unit(byId[a].candidate) != Unit(byId[b].candidate)
    ensures p.group != q.group
  {
    assert Unit(c) != Unit(d);
  }

  lemma ReachedUnit(w: World, plan: Plan, eps: real, cs: seq<Candidate>, exclusions: map<string, Reason>,
                    ranked: seq<Ranked>, o: Outcome, p: Pick, u: string) returns (c: Candidate)
    requires Finished(w, plan, eps, cs, exclusions, ranked, o) && p in o.enginePicks && Reaches(cs, p, u)
    ensures c.id in p.ids && c.user == u && c.id in o.byId && o.byId[c.id].candidate == c && c.group == p.group
    ensures PassesHardRules(c, w.facts(u), w.policy)
  {
    c :| Carries(cs, p, c) && c.user == u;
    CarriedIsIndexed(w, plan, eps, cs, exclusions, ranked, o, p, c);
  }

  // The first pick goes to one user, who is a scored member of the second pick's circle.
  ghost predicate SoloInsideCircle(w: World, cs: seq<Candidate>, p: Pick, q: Pick) {
    p.group.None? && exists u :: Reaches(cs, p, u) && InCircleOf(w, q, u)
  }

  /**
   When circles are disjoint, two engine picks share a user exactly when one of them is a solo pick whose
   user is a scored member of the other one's circle.
   */
  lemma SharedUserExactly(w: World, plan: Plan, eps: real, cs: seq<Candidate>, exclusions: map<string, Reason>,
                          ranked: seq<Ranked>, o: Outcome, i: nat, j: nat)
    requires Finished(w, plan, eps, cs, exclusions, ranked, o) && i < j < |o.enginePicks| && DisjointCircles(w.circles)
    ensures var p, q := o.enginePicks[i], o.enginePicks[j];
      (exists u :: Reaches(cs, p, u) && Reaches(cs, q, u)) <==>
        SoloInsideCircle(w, cs, p, q) || SoloInsideCircle(w, cs, q, p)
  {
    var p, q := o.enginePicks[i], o.enginePicks[j];
    assert p in o.enginePicks && q in o.enginePicks;
    forall u ensures p.group.Some? ==> (Reaches(cs, p, u) <==> InCircleOf(w, p, u))
      ensures q.group.Some? ==> (Reaches(cs, q, u) <==> InCircleOf(w, q, u))
    {
      if p.group.Some? { GroupPickReaches(w, plan, eps, cs, exclusions, ranked, o, p, u); }
      if q.group.Some? { GroupPickReaches(w, plan, eps, cs, exclusions, ranked, o, q, u); }
    }
    if u :| Reaches(cs, p, u) && Reaches(cs, q, u) {
      SharedUser(w, plan, eps, cs, exclusions, ranked, o, i, j, u);
      assert p.group.Some? && q.group.Some? ==> p.group == q.group;
    }
  }

  // ---------------------------------------------------------------- held-out users

  /** A user whose own unit is held out is reached exactly when an engine group pick's circle holds the user. */
  lemma ControlReachedExactly(w: World, plan: Plan, eps: real, cs: seq<Candidate>, exclusions: map<string, Reason>,
                              ranked: seq<Ranked>, o: Outcome, u: string)
    requires Finished(w, plan, eps, cs, exclusions, ranked, o) && plan.arms(u) == Control
    ensures (exists p :: p in o.enginePicks + o.naivePicks && Reaches(cs, p, u)) <==>
      (exists p :: p in o.enginePicks && InCircleOf(w, p, u))
  {
    if p :| p in o.enginePicks + o.naivePicks && Reaches(cs, p, u) {
      if p.group.None? {
        var c := SoloPickReaches(w, plan, eps, cs, exclusions, ranked, o, p);
      } else {
        GroupPicksAreEngine(w, plan, eps, cs, exclusions, ranked, o, p);
        GroupPickReaches(w, plan, eps, cs, exclusions, ranked, o, p, u);
      }
    }
    if p :| p in o.enginePicks && InCircleOf(w, p, u) {
      GroupPickReaches(w, plan, eps, cs, exclusions, ranked, o, p, u);
      assert p in o.enginePicks + o.naivePicks;
    }
  }

  lemma GroupPicksAreEngine(w: World, plan: Plan, eps: real, cs: seq<Candidate>, exclusions: map<string, Reason>,
                            ranked: seq<Ranked>, o: Outcome, p: Pick)
    requires Finished(w, plan, eps, cs, exclusions, ranked, o) && p in o.enginePicks + o.naivePicks && p.group.Some?
    ensures p in o.enginePicks
  {
    if p in o.naivePicks {
      var c := NaiveSolo(w, plan, eps, cs, exclusions, ranked, o, p);
    }
  }

  // ---------------------------------------------------------------- the frequency cap over a whole run

  // The positions of the picks that reach a user.
  ghost function Reaching(cs: seq<Candidate>, picks: seq<Pick>, u: string): set<nat> {
    set i: nat | i < |picks| && Reaches(cs, picks[i], u)
  }

  // Two picks of one kind never reach one user.
  ghost predicate Apart(cs: seq<Candidate>, picks: seq<Pick>, i: nat, j: nat, u: string)
    requires i < |picks| && j < |picks|
  {
    Reaches(cs, picks[i], u) && Reaches(cs, picks[j], u) ==> (picks[i].group.Some? <==> picks[j].group.None?)
  }

  lemma EngineApart(w: World, plan: Plan, eps: real, cs: seq<Candidate>, exclusions: map<string, Reason>,
                    ranked: seq<Ranked>, o: Outcome, i: nat, j: nat, u: string)
    requires Finished(w, plan, eps, cs, exclusions, ranked, o) && i < j < |o.enginePicks| && DisjointCircles(w.circles)
    ensures Apart(cs, o.enginePicks, i, j, u)
  {
    var p, q := o.enginePicks[i], o.enginePicks[j];
    assert p in o.enginePicks && q in o.enginePicks;
    if Reaches(cs, p, u) && Reaches(cs, q, u) {
      SharedUser(w, plan, eps, cs, exclusions, ranked, o, i, j, u);
      if p.group.Some? && q.group.Some? {
        GroupPickReaches(w, plan, eps, cs, exclusions, ranked, o, p, u);
        GroupPickReaches(w, plan, eps, cs, exclusions, ranked, o, q, u);
      }
    }
  }

  lemma NaiveApart(w: World, plan: Plan, eps: real, cs: seq<Candidate>, exclusions: map<string, Reason>,
                   ranked: seq<Ranked>, o: Outcome, i: nat, j: nat, u: string)
    requires Finished(w, plan, eps, cs, exclusions, ranked, o) && i < j < |o.naivePicks|
    ensures !(Reaches(cs, o.naivePicks[i], u) && Reaches(cs, o.naivePicks[j], u))
  {
    var users := Baseline.SortedUsers(plan.arms, cs);
    Baseline.SortedUsersListed(plan.arms, cs);
    var owners := Baseline.OnePickPerUser(w, plan.arms, plan.threshold, cs, users);
    NaiveOwner(w, plan, cs, o.naivePicks[i], owners[i], u);
    NaiveOwner(w, plan, cs, o.naivePicks[j], owners[j], u);
  }

  lemma NaiveOwner(w: World, plan: Plan, cs: seq<Candidate>, p: Pick, owner: string, u: string)
    requires Sane(w) && cs == AllCandidates(w) && Baseline.OffersTo(w, plan.arms, plan.threshold, cs, p, owner)
    ensures Reaches(cs, p, u) ==> u == owner
  {
    var d :| Baseline.Offers(w, plan.arms, plan.threshold, cs, p, d) && d.user == owner;
    OnlyUser(w, cs, p, d);
  }

  ghost predicate CircleThenSolo(cs: seq<Candidate>, p: Pick, q: Pick, u: string) {
    Reaches(cs, p, u) && Reaches(cs, q, u) ==> p.group.Some? && q.group.None?
  }

  lemma MixedApart(w: World, plan: Plan, eps: real, cs: seq<Candidate>, exclusions: map<string, Reason>,
                   ranked: seq<Ranked>, o: Outcome, p: Pick, q: Pick, u: string)
    requires Finished(w, plan, eps, cs, exclusions, ranked, o) && p in o.enginePicks && q in o.naivePicks
    ensures CircleThenSolo(cs, p, q, u)
  {
    var d := NaiveSolo(w, plan, eps, cs, exclusions, ranked, o, q);
    OnlyUser(w, cs, q, d);
    if p.group.None? {
      var c := SoloPickReaches(w, plan, eps, cs, exclusions, ranked, o, p);
    }
  }

  ghost predicate AllApart(cs: seq<Candidate>, picks: seq<Pick>, u: string) {
    forall i: nat, j: nat :: i < j < |picks| ==> Apart(cs, picks, i, j, u)
  }

  ghost predicate ArmsApart(cs: seq<Candidate>, e: seq<Pick>, n: seq<Pick>, u: string) {
    forall p, q :: p in e && q in n ==> CircleThenSolo(cs, p, q, u)
  }

  lemma ApartJoined(cs: seq<Candidate>, e: seq<Pick>, n: seq<Pick>, u: string)
    requires AllApart(cs, e, u) && AllApart(cs, n, u)
    requires ArmsApart(cs, e, n, u)
    ensures AllApart(cs, e + n, u)
  {
    forall i: nat, j: nat | i < j < |e + n| ensures Apart(cs, e + n, i, j, u) {
      if j < |e| {
        assert Apart(cs, e, i, j, u);
      } else if i >= |e| {
        assert Apart(cs, n, i - |e|, j - |e|, u);
      } else {
        assert (e + n)[i] in e && (e + n)[j] in n;
      }
    }
  }

  /** When circles are disjoint, of two picks for one user one is a solo pick and the other a group pick. */
  lemma PicksApart(w: World, plan: Plan, eps: real, cs: seq<Candidate>, exclusions: map<string, Reason>,
                   ranked: seq<Ranked>, o: Outcome, u: string)
    requires Finished(w, plan, eps, cs, exclusions, ranked, o) && DisjointCircles(w.circles)
    ensures AllApart(cs, o.enginePicks + o.naivePicks, u)
  {
    EnginesApart(w, plan, eps, cs, exclusions, ranked, o, u);
    NaivesApart(w, plan, eps, cs, exclusions, ranked, o, u);
    AllMixedApart(w, plan, eps, cs, exclusions, ranked, o, u);
    ApartJoined(cs, o.enginePicks, o.naivePicks, u);
  }

  lemma EnginesApart(w: World, plan: Plan, eps: real, cs: seq<Candidate>, exclusions: map<string, Reason>,
                     ranked: seq<Ranked>, o: Outcome, u: string)
    requires Finished(w, plan, eps, cs, exclusions, ranked, o) && DisjointCircles(w.circles)
    ensures AllApart(cs, o.enginePicks, u)
  {
    forall i: nat, j: nat | i < j < |o.enginePicks| ensures Apart(cs, o.enginePicks, i, j, u) {
      EngineApart(w, plan, eps, cs, exclusions, ranked, o, i, j, u);
    }
  }

  lemma NaivesApart(w: World, plan: Plan, eps: real, cs: seq<Candidate>, exclusions: map<string, Reason>,
                    ranked: seq<Ranked>, o: Outcome, u: string)
    requires Finished(w, plan, eps, cs, exclusions, ranked, o)
    ensures AllApart(cs, o.naivePicks, u)
  {
    forall i: nat, j: nat | i < j < |o.naivePicks| ensures Apart(cs, o.naivePicks, i, j, u) {
      NaiveApart(w, plan, eps, cs, exclusions, ranked, o, i, j, u);
    }
  }

  lemma AllMixedApart(w: World, plan: Plan, eps: real, cs: seq<Candidate>, exclusions: map<string, Reason>,
                      ranked: seq<Ranked>, o: Outcome, u: string)
    requires Finished(w, plan, eps, cs, exclusions, ranked, o)
    ensures ArmsApart(cs, o.enginePicks, o.naivePicks, u)
  {
    forall p, q | p in o.enginePicks && q in o.naivePicks ensures CircleThenSolo(cs, p, q, u) {
      MixedApart(w, plan, eps, cs, exclusions, ranked, o, p, q, u);
    }
  }

  ghost predicate ReachedBy(cs: seq<Candidate>, picks: seq<Pick>, u: string, inCircle: bool) {
    exists i: nat :: i < |picks| && Reaches(cs, picks[i], u) && picks[i].group.Some? == inCircle
  }

  // At most one pick of each kind reaches the user, so the number of picks says which kinds do.
  lemma CountApart(cs: seq<Candidate>, picks: seq<Pick>, u: string)
    requires AllApart(cs, picks, u)
    ensures |Reaching(cs, picks, u)| ==
      (if ReachedBy(cs, picks, u, false) then 1 else 0) + if ReachedBy(cs, picks, u, true) then 1 else 0
  {
    var solo := set i: nat | i in Reaching(cs, picks, u) && picks[i].group.None?;
    var circle := set i: nat | i in Reaching(cs, picks, u) && picks[i].group.Some?;
    assert Reaching(cs, picks, u) == solo + circle && solo !! circle;
    KindOnce(cs, picks, u, solo, false);
    KindOnce(cs, picks, u, circle, true);
  }

  lemma KindOnce(cs: seq<Candidate>, picks: seq<Pick>, u: string, at: set<nat>, inCircle: bool)
    requires AllApart(cs, picks, u)
    requires forall i: nat :: i in at <==> i < |picks| && Reaches(cs, picks[i], u) && picks[i].group.Some? == inCircle
    ensures |at| == if ReachedBy(cs, picks, u, inCircle) then 1 else 0
  {
    if i :| i in at {
      forall j | j in at ensures j == i {
        assert i < j ==> Apart(cs, picks, i, j, u);
        assert j < i ==> Apart(cs, picks, j, i, u);
      }
      assert at == {i};
    } else {
      assert at == {};
    }
  }

  // How often the user was contacted inside the cap's window.
  ghost function Contacts(facts: UserFacts, windowDays: int): nat {
    |Inside(facts.contactedAt, facts.now - windowDays * DAY, facts.now)|
  }

  lemma ReachedUncapped(w: World, plan: Plan, eps: real, cs: seq<Candidate>, exclusions: map<string, Reason>,
                        ranked: seq<Ranked>, o: Outcome, p: Pick, u: string)
    requires Finished(w, plan, eps, cs, exclusions, ranked, o) && p in o.enginePicks + o.naivePicks && Reaches(cs, p, u)
    ensures !Capped(w.facts(u), w.policy)
  {
    if p in o.enginePicks {
      var c := ReachedUnit(w, plan, eps, cs, exclusions, ranked, o, p, u);
    } else {
      var c := NaiveSolo(w, plan, eps, cs, exclusions, ranked, o, p);
      OnlyUser(w, cs, p, c);
    }
  }

  /**
   The frequency cap is tested for each candidate alone. Counting the picks of the run as contacts, a reached
   user goes over the cap exactly when one contact was left and both a solo and a group pick reach the user.
   */
  lemma CapExceededExactly(w: World, plan: Plan, eps: real, cs: seq<Candidate>, exclusions: map<string, Reason>,
                           ranked: seq<Ranked>, o: Outcome, u: string)
    requires Finished(w, plan, eps, cs, exclusions, ranked, o) && DisjointCircles(w.circles)
    requires w.policy.maxContacts.Some? && w.policy.windowDays.Some?
    requires exists p :: p in o.enginePicks + o.naivePicks && Reaches(cs, p, u)
    ensures var picks, used := o.enginePicks + o.naivePicks, Contacts(w.facts(u), w.policy.windowDays.value);
      used + |Reaching(cs, picks, u)| > w.policy.maxContacts.value <==>
        used + 1 == w.policy.maxContacts.value && ReachedBy(cs, picks, u, false) && ReachedBy(cs, picks, u, true)
  {
    var p :| p in o.enginePicks + o.naivePicks && Reaches(cs, p, u);
    ReachedUncapped(w, plan, eps, cs, exclusions, ranked, o, p, u);
    PicksApart(w, plan, eps, cs, exclusions, ranked, o, u);
    CapByKind(cs, o.enginePicks + o.naivePicks, p, u, w.facts(u), w.policy);
  }

  lemma CapByKind(cs: seq<Candidate>, picks: seq<Pick>, p: Pick, u: string, facts: UserFacts, policy: PolicyConfig)
    requires AllApart(cs, picks, u) && p in picks && Reaches(cs, p, u)
    requires !Capped(facts, policy)
    ensures var used := Contacts(facts, policy.windowDays.value);
      used + |Reaching(cs, picks, u)| > policy.maxContacts.value <==>
        used + 1 == policy.maxContacts.value && ReachedBy(cs, picks, u, false) && ReachedBy(cs, picks, u, true)
  {
    CountApart(cs, picks, u);
  }
}
