/** The NAIVE measurement arm: every at-risk user gets the cheapest individual incentive the hard rules allow. */
module Baseline {
  import opened Contracts
  import opened Ordering
  import opened PolicyGuard
  import opened Candidates
  import opened Accounting

  // ---------------------------------------------------------------- one user

  predicate ByCost(a: Candidate, b: Candidate) {
    a.cost < b.cost || (a.cost == b.cost && StrLe(a.incentive, b.incentive))
  }

  lemma CostOrder()
    ensures TotalPreorder(ByCost)
  {
    StrOrder();
    forall a: Candidate, b: Candidate ensures ByCost(a, b) || ByCost(b, a) {
      assert StrLe(a.incentive, b.incentive) || StrLe(b.incentive, a.incentive);
    }
    forall a: Candidate, b: Candidate, c: Candidate | ByCost(a, b) && ByCost(b, c) ensures ByCost(a, c) {
      if a.cost == c.cost {
        StrLeTrans(a.incentive, b.incentive, c.incentive);
      }
    }
  }

  function HardVerdict(w: World, c: Candidate): PolicyDecision {
    Evaluate(c, w.facts(c.user), Limits(w, false))
  }

  function Passing(w: World, cs: seq<Candidate>): seq<Candidate> {
    if cs == [] then []
    else if HardVerdict(w, cs[|cs| - 1]).allowed then Passing(w, cs[..|cs| - 1]) + [cs[|cs| - 1]]
    else Passing(w, cs[..|cs| - 1])
  }

  function Failing(w: World, cs: seq<Candidate>): seq<Decision> {
    if cs == [] then [] else
    var before, c := Failing(w, cs[..|cs| - 1]), cs[|cs| - 1];
    if HardVerdict(w, c).allowed then before else before + [Extra(c, ExclusionFor(HardVerdict(w, c), c.segment), 0.0)]
  }

  function ExtraAll(cs: seq<Candidate>, reason: Reason): seq<Decision> {
    if cs == [] then [] else ExtraAll(cs[..|cs| - 1], reason) + [Extra(cs[|cs| - 1], reason, 0.0)]
  }

  function NotChosen(cs: seq<Candidate>): seq<Decision> {
    if cs == [] then [] else NotChosen(cs[..|cs| - 1]) + [Extra(cs[|cs| - 1], NaiveNotChosen, cs[|cs| - 1].churnRisk)]
  }

  function NaivePick(passing: seq<Candidate>): Pick
    requires passing != []
  {
    Pick(Naive, [passing[0].id], if |passing| > 1 then [passing[1].id] else [], None, passing[0].cost,
         passing[0].churnRisk, None, [])
  }

  function UserExtras(w: World, threshold: real, user: string, mine: seq<Candidate>): seq<Decision> {
    if w.churn(user) < threshold then ExtraAll(mine, NaiveBelowThreshold) else
    var passing := Passing(w, SortBy(mine, ByCost));
    Failing(w, SortBy(mine, ByCost)) + if passing == [] then [] else NotChosen(passing[1..])
  }

  function UserPicks(w: World, threshold: real, user: string, mine: seq<Candidate>): seq<Pick> {
    var passing := Passing(w, SortBy(mine, ByCost));
    if w.churn(user) < threshold || passing == [] then [] else [NaivePick(passing)]
  }

  method ScreenByCost(w: World, sorted: seq<Candidate>) returns (passing: seq<Candidate>, extra: seq<Decision>)
    ensures passing == Passing(w, sorted) && extra == Failing(w, sorted)
  {
    passing, extra := [], [];
    for n := 0 to |sorted|
      invariant passing == Passing(w, sorted[..n]) && extra == Failing(w, sorted[..n])
    {
      assert sorted[..n + 1][..n] == sorted[..n];
      var c := sorted[n];
      var decision := Evaluate(c, w.facts(c.user), Limits(w, false));
      if decision.allowed {
        passing := passing + [c];
      } else {
        extra := extra + [Extra(c, ExclusionFor(decision, c.segment), 0.0)];
      }
    }
    assert sorted[..|sorted|] == sorted;
  }

  method ExcludeAll(cs: seq<Candidate>, reason: Reason) returns (extra: seq<Decision>)
    ensures extra == ExtraAll(cs, reason)
  {
    extra := [];
    for n := 0 to |cs|
      invariant extra == ExtraAll(cs[..n], reason)
    {
      assert cs[..n + 1][..n] == cs[..n];
      extra := extra + [Extra(cs[n], reason, 0.0)];
    }
    assert cs[..|cs|] == cs;
  }

  method ExcludeRest(cs: seq<Candidate>) returns (extra: seq<Decision>)
    ensures extra == NotChosen(cs)
  {
    extra := [];
    for n := 0 to |cs|
      invariant extra == NotChosen(cs[..n])
    {
      assert cs[..n + 1][..n] == cs[..n];
      extra := extra + [Extra(cs[n], NaiveNotChosen, cs[n].churnRisk)];
    }
    assert cs[..|cs|] == cs;
  }

  method DecideUser(w: World, threshold: real, user: string, mine: seq<Candidate>)
    returns (extra: seq<Decision>, picks: seq<Pick>)
    ensures extra == UserExtras(w, threshold, user, mine) && picks == UserPicks(w, threshold, user, mine)
  {
    if w.churn(user) < threshold {
      extra := ExcludeAll(mine, NaiveBelowThreshold);
      return extra, [];
    }
    var passing, screened := ScreenByCost(w, SortBy(mine, ByCost));
    if passing == [] {
      return screened, [];
    }
    var rest := ExcludeRest(passing[1..]);
    extra := screened + rest;
    picks := [NaivePick(passing)];
  }

  // ---------------------------------------------------------------- all users of the arm

  predicate InBaseline(arms: string -> Arm, c: Candidate) {
    arms(Unit(c)) == Naive
  }

  predicate Individual(arms: string -> Arm, c: Candidate) {
    InBaseline(arms, c) && c.group.None?
  }

  function OfUser(arms: string -> Arm, cs: seq<Candidate>, user: string): seq<Candidate> {
    if cs == [] then []
    else if Individual(arms, cs[|cs| - 1]) && cs[|cs| - 1].user == user
    then OfUser(arms, cs[..|cs| - 1], user) + [cs[|cs| - 1]]
    else OfUser(arms, cs[..|cs| - 1], user)
  }

  // The users with individual candidates in the arm, in order of first appearance.
  function BaselineUsers(arms: string -> Arm, cs: seq<Candidate>): seq<string> {
    if cs == [] then [] else
    var before, c := BaselineUsers(arms, cs[..|cs| - 1]), cs[|cs| - 1];
    if Individual(arms, c) && c.user !in before then before + [c.user] else before
  }

  function GroupExtras(arms: string -> Arm, cs: seq<Candidate>): seq<Decision> {
    if cs == [] then [] else
    var before, c := GroupExtras(arms, cs[..|cs| - 1]), cs[|cs| - 1];
    if InBaseline(arms, c) && c.group.Some? then before + [Extra(c, NaiveNotChosen, 0.0)] else before
  }

  function ExtrasOf(w: World, arms: string -> Arm, threshold: real, cs: seq<Candidate>,
                    users: seq<string>): seq<Decision> {
    if users == [] then [] else
    var user := users[|users| - 1];
    ExtrasOf(w, arms, threshold, cs, users[..|users| - 1]) + UserExtras(w, threshold, user, OfUser(arms, cs, user))
  }

  function PicksOf(w: World, arms: string -> Arm, threshold: real, cs: seq<Candidate>, users: seq<string>): seq<Pick> {
    if users == [] then [] else
    var user := users[|users| - 1];
    PicksOf(w, arms, threshold, cs, users[..|users| - 1]) + UserPicks(w, threshold, user, OfUser(arms, cs, user))
  }

  // The individual candidates filed under their users.
  ghost predicate FiledByUser(arms: string -> Arm, cs: seq<Candidate>, order: seq<string>,
                              byUser: map<string, seq<Candidate>>) {
    && order == BaselineUsers(arms, cs) && (forall u :: u in byUser <==> u in order)
    && forall u :: OfUser(arms, cs, u) == if u in byUser then byUser[u] else []
  }

  lemma FileUser(arms: string -> Arm, cs: seq<Candidate>, order: seq<string>, byUser: map<string, seq<Candidate>>,
                 c: Candidate)
    requires FiledByUser(arms, cs, order, byUser)
    ensures !Individual(arms, c) ==> FiledByUser(arms, cs + [c], order, byUser)
    ensures Individual(arms, c) ==>
      FiledByUser(arms, cs + [c], if c.user in order then order else order + [c.user],
                  byUser[c.user := (if c.user in byUser then byUser[c.user] else []) + [c]])
  {
    assert (cs + [c])[..|cs|] == cs;
    forall u
      ensures OfUser(arms, cs + [c], u) == OfUser(arms, cs, u) + if Individual(arms, c) && c.user == u then [c] else []
    {
    }
  }

  lemma GroupExtrasOne(arms: string -> Arm, cs: seq<Candidate>, c: Candidate)
    ensures GroupExtras(arms, cs + [c]) ==
      GroupExtras(arms, cs) + if InBaseline(arms, c) && c.group.Some? then [Extra(c, NaiveNotChosen, 0.0)] else []
  {
    assert (cs + [c])[..|cs|] == cs;
  }

  method FileByUser(arms: string -> Arm, cs: seq<Candidate>)
    returns (extra: seq<Decision>, order: seq<string>, byUser: map<string, seq<Candidate>>)
    ensures extra == GroupExtras(arms, cs) && FiledByUser(arms, cs, order, byUser)
  {
    extra, order, byUser := [], [], map[];
    for n := 0 to |cs|
      invariant extra == GroupExtras(arms, cs[..n]) && FiledByUser(arms, cs[..n], order, byUser)
    {
      var c := cs[n];
      assert cs[..n + 1] == cs[..n] + [c];
      GroupExtrasOne(arms, cs[..n], c);
      FileUser(arms, cs[..n], order, byUser, c);
      if InBaseline(arms, c) {
        if c.group.Some? {
          extra := extra + [Extra(c, NaiveNotChosen, 0.0)];
        } else {
          if c.user !in byUser {
            byUser := byUser[c.user := []];
            order := order + [c.user];
          }
          byUser := byUser[c.user := byUser[c.user] + [c]];
        }
      }
    }
    assert cs[..|cs|] == cs;
  }

  method DecideUsers(w: World, threshold: real, users: seq<string>, byUser: map<string, seq<Candidate>>,
                     ghost arms: string -> Arm, ghost cs: seq<Candidate>)
    returns (extra: seq<Decision>, picks: seq<Pick>)
    requires forall u :: u in users ==> u in byUser && byUser[u] == OfUser(arms, cs, u)
    ensures extra == ExtrasOf(w, arms, threshold, cs, users) && picks == PicksOf(w, arms, threshold, cs, users)
  {
    extra, picks := [], [];
    for n := 0 to |users|
      invariant extra == ExtrasOf(w, arms, threshold, cs, users[..n])
      invariant picks == PicksOf(w, arms, threshold, cs, users[..n])
    {
      assert users[..n + 1][..n] == users[..n];
      var moreExtra, morePicks := DecideUser(w, threshold, users[n], byUser[users[n]]);
      extra := extra + moreExtra;
      picks := picks + morePicks;
    }
    assert users[..|users|] == users;
  }

  method NaiveArm(w: World, arms: string -> Arm, threshold: real, cs: seq<Candidate>)
    returns (extra: seq<Decision>, picks: seq<Pick>)
    ensures var users := SortBy(BaselineUsers(arms, cs), StrLe);
      && extra == GroupExtras(arms, cs) + ExtrasOf(w, arms, threshold, cs, users)
      && picks == PicksOf(w, arms, threshold, cs, users)
  {
    var grouped, order, byUser := FileByUser(arms, cs);
    var users := SortBy(order, StrLe);
    SortByMembers(order, StrLe);
    var individual;
    individual, picks := DecideUsers(w, threshold, users, byUser, arms, cs);
    extra := grouped + individual;
  }

  // ---------------------------------------------------------------- nobody in the arm is lost or counted twice

  lemma {:induction false} ExtraAllIds(cs: seq<Candidate>, reason: Reason)
    ensures DecisionIds(ExtraAll(cs, reason)) == Ids(cs)
  {
    if cs != [] {
      ExtraAllIds(cs[..|cs| - 1], reason);
      assert Ids(cs) == Ids(cs[..|cs| - 1]) + [cs[|cs| - 1].id];
    }
  }

  lemma {:induction false} NotChosenIds(cs: seq<Candidate>)
    ensures DecisionIds(NotChosen(cs)) == Ids(cs)
  {
    if cs != [] {
      NotChosenIds(cs[..|cs| - 1]);
      assert Ids(cs) == Ids(cs[..|cs| - 1]) + [cs[|cs| - 1].id];
    }
  }

  lemma IdsOne(cs: seq<Candidate>, c: Candidate)
    ensures multiset(Ids(cs + [c])) == multiset(Ids(cs)) + Single(c.id, true)
  {
    assert Ids(cs + [c]) == Ids(cs) + [c.id];
  }

  lemma {:induction false} ScreeningLosesNobody(w: World, cs: seq<Candidate>)
    ensures multiset(DecisionIds(Failing(w, cs))) + multiset(Ids(Passing(w, cs))) == multiset(Ids(cs))
  {
    if cs != [] {
      var before, c := cs[..|cs| - 1], cs[|cs| - 1];
      assert cs == before + [c];
      ScreeningLosesNobody(w, before);
      ScreenNext(w, before, c);
    }
  }

  lemma ScreenNext(w: World, before: seq<Candidate>, c: Candidate)
    requires multiset(DecisionIds(Failing(w, before))) + multiset(Ids(Passing(w, before))) == multiset(Ids(before))
    ensures multiset(DecisionIds(Failing(w, before + [c]))) + multiset(Ids(Passing(w, before + [c]))) ==
      multiset(Ids(before + [c]))
  {
    assert (before + [c])[..|before|] == before;
    ScreenOne(before, c, Failing(w, before), Passing(w, before), ExclusionFor(HardVerdict(w, c), c.segment));
  }

  // One more candidate goes to one of the two lists.
  lemma ScreenOne(before: seq<Candidate>, c: Candidate, failing: seq<Decision>, passing: seq<Candidate>, reason: Reason)
    requires multiset(DecisionIds(failing)) + multiset(Ids(passing)) == multiset(Ids(before))
    ensures multiset(DecisionIds(failing + [Extra(c, reason, 0.0)])) + multiset(Ids(passing)) ==
      multiset(Ids(before + [c]))
    ensures multiset(DecisionIds(failing)) + multiset(Ids(passing + [c])) == multiset(Ids(before + [c]))
  {
    IdsOne(before, c);
    IdsOne(passing, c);
    ExtraIdsOne(failing, Extra(c, reason, 0.0));
  }

  lemma IdsPermuted(a: seq<Candidate>, b: seq<Candidate>)
    requires multiset(a) == multiset(b)
    ensures multiset(Ids(a)) == multiset(Ids(b))
  {
    var everyone := (c: Candidate) => true;
    IdsWherePermuted(a, b, everyone);
    IdsWhereAll(a, everyone);
    IdsWhereAll(b, everyone);
  }

  lemma {:induction false} OnePickIds(p: Pick)
    ensures PickIds([p]) == p.ids
  {
    assert [p][..0] == [];
  }

  lemma FirstAndRest(cs: seq<Candidate>)
    requires cs != []
    ensures multiset(Ids(cs)) == multiset([cs[0].id]) + multiset(Ids(cs[1..]))
  {
    assert Ids(cs) == [cs[0].id] + Ids(cs[1..]);
  }

  lemma PassingAccounted(w: World, sorted: seq<Candidate>)
    requires Passing(w, sorted) != []
    ensures var passing := Passing(w, sorted);
      multiset(DecisionIds(Failing(w, sorted) + NotChosen(passing[1..]))) + multiset([passing[0].id]) ==
        multiset(Ids(sorted))
  {
    var passing := Passing(w, sorted);
    ScreeningLosesNobody(w, sorted);
    NotChosenIds(passing[1..]);
    ExtraIdsConcat(Failing(w, sorted), NotChosen(passing[1..]));
    FirstAndRest(passing);
  }

  lemma UserAccounted(w: World, threshold: real, user: string, mine: seq<Candidate>)
    ensures multiset(DecisionIds(UserExtras(w, threshold, user, mine))) +
      multiset(PickIds(UserPicks(w, threshold, user, mine)))
      == multiset(Ids(mine))
  {
    if w.churn(user) < threshold {
      ExtraAllIds(mine, NaiveBelowThreshold);
    } else {
      var sorted := SortBy(mine, ByCost);
      IdsPermuted(sorted, mine);
      if Passing(w, sorted) == [] {
        ScreeningLosesNobody(w, sorted);
        assert Failing(w, sorted) + [] == Failing(w, sorted);
      } else {
        PassingAccounted(w, sorted);
        OnePickIds(NaivePick(Passing(w, sorted)));
      }
    }
  }

  // The ids of the individual candidates of the given users.
  ghost function UserIds(arms: string -> Arm, cs: seq<Candidate>, users: seq<string>): multiset<string> {
    if users == [] then multiset{}
    else UserIds(arms, cs, users[..|users| - 1]) + multiset(Ids(OfUser(arms, cs, users[|users| - 1])))
  }

  lemma CountBoth(e: seq<Decision>, f: seq<Decision>, p: seq<Pick>, q: seq<Pick>)
    ensures multiset(DecisionIds(e + f)) + multiset(PickIds(p + q)) ==
      multiset(DecisionIds(e)) + multiset(PickIds(p)) + (multiset(DecisionIds(f)) + multiset(PickIds(q)))
  {
    ExtraIdsConcat(e, f);
    PickIdsConcat(p, q);
  }

  lemma {:induction false} UsersAccounted(w: World, arms: string -> Arm, threshold: real, cs: seq<Candidate>,
                                          users: seq<string>)
    ensures multiset(DecisionIds(ExtrasOf(w, arms, threshold, cs, users))) +
      multiset(PickIds(PicksOf(w, arms, threshold, cs, users)))
      == UserIds(arms, cs, users)
  {
    if users != [] {
      var before, user := users[..|users| - 1], users[|users| - 1];
      var mine := OfUser(arms, cs, user);
      UsersAccounted(w, arms, threshold, cs, before);
      UserAccounted(w, threshold, user, mine);
      CountBoth(ExtrasOf(w, arms, threshold, cs, before), UserExtras(w, threshold, user, mine),
                PicksOf(w, arms, threshold, cs, before), UserPicks(w, threshold, user, mine));
    }
  }

  lemma OfUserOne(arms: string -> Arm, cs: seq<Candidate>, c: Candidate, user: string)
    ensures multiset(Ids(OfUser(arms, cs + [c], user))) ==
      multiset(Ids(OfUser(arms, cs, user))) + Single(c.id, Individual(arms, c) && c.user == user)
  {
    assert (cs + [c])[..|cs|] == cs;
    IdsOne(OfUser(arms, cs, user), c);
  }

  lemma {:induction false} UserIdsOne(arms: string -> Arm, cs: seq<Candidate>, c: Candidate, users: seq<string>)
    requires Distinct(users)
    ensures UserIds(arms, cs + [c], users) ==
      UserIds(arms, cs, users) + Single(c.id, Individual(arms, c) && c.user in users)
  {
    if users != [] {
      var before, user := users[..|users| - 1], users[|users| - 1];
      assert users == before + [user] && user !in before;
      UserIdsOne(arms, cs, c, before);
      OfUserOne(arms, cs, c, user);
    }
  }

  lemma {:induction false} NoUserIds(arms: string -> Arm, users: seq<string>)
    ensures UserIds(arms, [], users) == multiset{}
  {
    if users != [] {
      NoUserIds(arms, users[..|users| - 1]);
    }
  }

  lemma {:induction false} IndividualsByUser(arms: string -> Arm, cs: seq<Candidate>, users: seq<string>,
                                             p: Candidate -> bool)
    requires Distinct(users) && forall c :: c in cs ==> (p(c) <==> Individual(arms, c)) && (p(c) ==> c.user in users)
    ensures UserIds(arms, cs, users) == IdsWhere(cs, p)
  {
    if cs == [] {
      NoUserIds(arms, users);
    } else {
      var before, c := cs[..|cs| - 1], cs[|cs| - 1];
      assert cs == before + [c];
      assert c in cs;
      IndividualsByUser(arms, before, users, p);
      UserIdsOne(arms, before, c, users);
    }
  }

  lemma {:induction false} GroupExtrasIds(arms: string -> Arm, cs: seq<Candidate>, p: Candidate -> bool)
    requires forall c :: c in cs ==> (p(c) <==> InBaseline(arms, c) && c.group.Some?)
    ensures multiset(DecisionIds(GroupExtras(arms, cs))) == IdsWhere(cs, p)
  {
    if cs != [] {
      var before, c := cs[..|cs| - 1], cs[|cs| - 1];
      assert c in cs;
      GroupExtrasIds(arms, before, p);
      ExtraIdsOne(GroupExtras(arms, before), Extra(c, NaiveNotChosen, 0.0));
    }
  }

  lemma {:induction false} BaselineUsersListed(arms: string -> Arm, cs: seq<Candidate>)
    ensures Distinct(BaselineUsers(arms, cs))
    ensures forall c :: c in cs && Individual(arms, c) ==> c.user in BaselineUsers(arms, cs)
    ensures forall u :: u in BaselineUsers(arms, cs) ==> exists c :: c in cs && Individual(arms, c) && c.user == u
  {
    if cs != [] {
      var before, c := cs[..|cs| - 1], cs[|cs| - 1];
      assert cs == before + [c];
      BaselineUsersListed(arms, before);
      forall u | u in BaselineUsers(arms, cs) ensures exists d :: d in cs && Individual(arms, d) && d.user == u {
        if d :| d in before && Individual(arms, d) && d.user == u {
          assert d in cs;
        } else {
          assert c in cs;
        }
      }
    }
  }

  function SortedUsers(arms: string -> Arm, cs: seq<Candidate>): seq<string> {
    SortBy(BaselineUsers(arms, cs), StrLe)
  }

  lemma SortedUsersListed(arms: string -> Arm, cs: seq<Candidate>)
    ensures Distinct(SortedUsers(arms, cs))
    ensures forall c :: c in cs && Individual(arms, c) ==> c.user in SortedUsers(arms, cs)
    ensures forall u :: u in SortedUsers(arms, cs) ==> exists c :: c in cs && Individual(arms, c) && c.user == u
  {
    BaselineUsersListed(arms, cs);
    SortByMembers(BaselineUsers(arms, cs), StrLe);
    SortByDistinct(BaselineUsers(arms, cs), StrLe);
  }

  /** Every candidate of the arm is either excluded for one reason or is the one pick of its user. */
  lemma BaselineAccounted(w: World, arms: string -> Arm, threshold: real, cs: seq<Candidate>, p: Candidate -> bool)
    requires forall c :: c in cs ==> (p(c) <==> InBaseline(arms, c))
    ensures var users := SortedUsers(arms, cs);
      IdsWhere(cs, p) ==
        multiset(DecisionIds(GroupExtras(arms, cs))) + multiset(DecisionIds(ExtrasOf(w, arms, threshold, cs, users)))
        + multiset(PickIds(PicksOf(w, arms, threshold, cs, users)))
  {
    var users := SortedUsers(arms, cs);
    var q := (c: Candidate) => InBaseline(arms, c) && c.group.Some?;
    var r := (c: Candidate) => Individual(arms, c);
    SortedUsersListed(arms, cs);
    UsersAccounted(w, arms, threshold, cs, users);
    IndividualsByUser(arms, cs, users, r);
    GroupExtrasIds(arms, cs, q);
    IdsWhereSplit(cs, p, q, r);
  }

  // ---------------------------------------------------------------- the pick is the cheapest allowed offer

  predicate Passes(w: World, c: Candidate) {
    HardVerdict(w, c).allowed
  }

  lemma {:induction false} PassingListed(w: World, cs: seq<Candidate>)
    ensures forall c :: c in Passing(w, cs) <==> c in cs && Passes(w, c)
    ensures SortedBy(cs, ByCost) ==> SortedBy(Passing(w, cs), ByCost)
  {
    if cs != [] {
      var before, c := cs[..|cs| - 1], cs[|cs| - 1];
      assert cs == before + [c];
      PassingListed(w, before);
      if SortedBy(cs, ByCost) {
        assert SortedBy(before, ByCost);
        forall d | d in before ensures ByCost(d, c) {
          var i :| 0 <= i < |before| && before[i] == d;
          assert cs[i] == d && cs[|cs| - 1] == c;
        }
      }
    }
  }

  lemma {:induction false} OfUserListed(arms: string -> Arm, cs: seq<Candidate>, user: string)
    ensures forall c :: c in OfUser(arms, cs, user) <==> c in cs && Individual(arms, c) && c.user == user
  {
    if cs != [] {
      assert cs == cs[..|cs| - 1] + [cs[|cs| - 1]];
      OfUserListed(arms, cs[..|cs| - 1], user);
    }
  }

  /** What it means that a baseline pick offers one candidate. */
  ghost predicate Offers(w: World, arms: string -> Arm, threshold: real, cs: seq<Candidate>, p: Pick, c: Candidate) {
    && c in cs && Individual(arms, c) && p.arm == Naive && p.ids == [c.id] && p.cost == c.cost && p.group.None?
    && w.churn(c.user) >= threshold && PassesHardRules(c, w.facts(c.user), w.policy)
    && forall d :: d in cs && Individual(arms, d) && d.user == c.user && Passes(w, d) ==> ByCost(c, d)
  }

  lemma PassesExactly(w: World, c: Candidate)
    ensures Passes(w, c) <==> PassesHardRules(c, w.facts(c.user), w.policy)
  {
    AllowedExactly(c, w.facts(c.user), Limits(w, false));
  }

  lemma FirstIsCheapest(w: World, arms: string -> Arm, threshold: real, cs: seq<Candidate>, user: string)
    requires var passing := Passing(w, SortBy(OfUser(arms, cs, user), ByCost));
      w.churn(user) >= threshold && passing != []
    ensures var passing := Passing(w, SortBy(OfUser(arms, cs, user), ByCost));
      passing[0].user == user && Offers(w, arms, threshold, cs, NaivePick(passing), passing[0])
  {
    var mine := OfUser(arms, cs, user);
    var sorted := SortBy(mine, ByCost);
    var passing := Passing(w, sorted);
    OfUserListed(arms, cs, user);
    SortByMembers(mine, ByCost);
    CostOrder();
    SortBySorted(mine, ByCost);
    PassingListed(w, sorted);
    var c := passing[0];
    assert c in passing;
    PassesExactly(w, c);
    forall d | d in cs && Individual(arms, d) && d.user == c.user && Passes(w, d) ensures ByCost(c, d) {
      assert d in passing;
      var i :| 0 <= i < |passing| && passing[i] == d;
      assert i > 0 ==> ByCost(passing[0], passing[i]);
      assert ByCost(c, c);
    }
  }

  /** Every baseline pick is an at-risk user's cheapest offer that passes the three hard rules. */
  lemma {:induction false} PicksAreCheapest(w: World, arms: string -> Arm, threshold: real, cs: seq<Candidate>,
                                            users: seq<string>, p: Pick)
    requires p in PicksOf(w, arms, threshold, cs, users)
    ensures exists c :: Offers(w, arms, threshold, cs, p, c)
  {
    var before, user := users[..|users| - 1], users[|users| - 1];
    if p in PicksOf(w, arms, threshold, cs, before) {
      PicksAreCheapest(w, arms, threshold, cs, before, p);
    } else {
      assert p in UserPicks(w, threshold, user, OfUser(arms, cs, user));
      FirstIsCheapest(w, arms, threshold, cs, user);
    }
  }

  lemma UserGetsPick(w: World, arms: string -> Arm, threshold: real, cs: seq<Candidate>, d: Candidate)
    returns (p: Pick, c: Candidate)
    requires d in cs && Individual(arms, d) && w.churn(d.user) >= threshold
    requires PassesHardRules(d, w.facts(d.user), w.policy)
    ensures p in UserPicks(w, threshold, d.user, OfUser(arms, cs, d.user))
    ensures Offers(w, arms, threshold, cs, p, c) && c.user == d.user
  {
    var passing := Passing(w, SortBy(OfUser(arms, cs, d.user), ByCost));
    PassesExactly(w, d);
    AmongPassing(w, arms, cs, d);
    FirstIsCheapest(w, arms, threshold, cs, d.user);
    p, c := NaivePick(passing), passing[0];
  }

  lemma AmongPassing(w: World, arms: string -> Arm, cs: seq<Candidate>, d: Candidate)
    requires d in cs && Individual(arms, d) && Passes(w, d)
    ensures d in Passing(w, SortBy(OfUser(arms, cs, d.user), ByCost))
  {
    var mine := OfUser(arms, cs, d.user);
    OfUserListed(arms, cs, d.user);
    SortByMembers(mine, ByCost);
    PassingListed(w, SortBy(mine, ByCost));
  }

  /** An at-risk user with an offer that passes the hard rules gets a pick. */
  lemma {:induction false} AtRiskGetsPick(w: World, arms: string -> Arm, threshold: real, cs: seq<Candidate>,
                                          users: seq<string>, d: Candidate)
    returns (p: Pick, c: Candidate)
    requires d in cs && Individual(arms, d) && d.user in users && w.churn(d.user) >= threshold
    requires PassesHardRules(d, w.facts(d.user), w.policy)
    ensures p in PicksOf(w, arms, threshold, cs, users) && Offers(w, arms, threshold, cs, p, c) && c.user == d.user
  {
    var before, user := users[..|users| - 1], users[|users| - 1];
    assert users == before + [user];
    if d.user in before {
      p, c := AtRiskGetsPick(w, arms, threshold, cs, before, d);
    } else {
      p, c := UserGetsPick(w, arms, threshold, cs, d);
    }
  }

  // Whom each pick is for.
  ghost predicate Owners(w: World, arms: string -> Arm, threshold: real, cs: seq<Candidate>, picks: seq<Pick>,
                         owners: seq<string>) {
    && |owners| == |picks| && Distinct(owners)
    && forall i :: 0 <= i < |picks| ==> OffersTo(w, arms, threshold, cs, picks[i], owners[i])
  }

  ghost predicate OffersTo(w: World, arms: string -> Arm, threshold: real, cs: seq<Candidate>, p: Pick, user: string) {
    exists c :: Offers(w, arms, threshold, cs, p, c) && c.user == user
  }

  lemma UserPickIsFor(w: World, arms: string -> Arm, threshold: real, cs: seq<Candidate>, user: string)
    ensures var picks := UserPicks(w, threshold, user, OfUser(arms, cs, user));
      picks == [] || (|picks| == 1 && OffersTo(w, arms, threshold, cs, picks[0], user))
  {
    if UserPicks(w, threshold, user, OfUser(arms, cs, user)) != [] {
      FirstIsCheapest(w, arms, threshold, cs, user);
    }
  }

  lemma OwnersOne(w: World, arms: string -> Arm, threshold: real, cs: seq<Candidate>, picks: seq<Pick>,
                  owners: seq<string>, more: seq<Pick>, user: string)
    requires Owners(w, arms, threshold, cs, picks, owners) && user !in owners
    requires |more| == 1 && OffersTo(w, arms, threshold, cs, more[0], user)
    ensures Owners(w, arms, threshold, cs, picks + more, owners + [user])
  {
  }

  /** No user gets two baseline picks: the picks go to different users, in user order. */
  lemma {:induction false} OnePickPerUser(w: World, arms: string -> Arm, threshold: real, cs: seq<Candidate>,
                                          users: seq<string>)
    returns (owners: seq<string>)
    requires Distinct(users)
    ensures Owners(w, arms, threshold, cs, PicksOf(w, arms, threshold, cs, users), owners)
    ensures forall u :: u in owners ==> u in users
  {
    if users == [] {
      owners := [];
    } else {
      var before, user := users[..|users| - 1], users[|users| - 1];
      assert users == before + [user] && user !in before;
      var earlier := OnePickPerUser(w, arms, threshold, cs, before);
      var picks, more := PicksOf(w, arms, threshold, cs, before), UserPicks(w, threshold, user, OfUser(arms, cs, user));
      UserPickIsFor(w, arms, threshold, cs, user);
      if more == [] {
        owners := earlier;
        assert picks + more == picks;
      } else {
        OwnersOne(w, arms, threshold, cs, picks, earlier, more, user);
        owners := earlier + [user];
      }
    }
  }
}
