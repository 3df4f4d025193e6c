/** The POLICY stage: which (user, incentive) pairs are considered, and which of them may not be offered. */
module Candidates {
  import opened Contracts
  import opened Ordering
  import opened Bundles
  import opened PolicyGuard
  import Circles
  import Connectivity

  datatype Incentive = Incentive(
    code: string, cost: nat, isGroup: bool, encouragesBorrowing: bool, changesCreditTerms: bool)

  /** What the earlier stages hand over. Scores, segments and the id hash are arbitrary functions. */
  datatype World = World(
    users: seq<string>, scored: set<string>, circles: seq<Circle>, incentives: seq<Incentive>, minSize: int,
    churn: string -> real, segment: string -> Segment, facts: string -> UserFacts,
    newId: (string, string, string) -> string, policy: PolicyConfig)

  // The strings a run makes ids from: a scored user, an incentive code, and a circle id or nothing.
  ghost predicate Hashed(w: World, user: string, code: string, group: string) {
    && user in w.scored && code in CodesOf(w.incentives)
    && (group == "" || exists circle :: circle in w.circles && circle.id == group)
  }

  /** Among the strings a run hashes, different ones get different ids, and no id looks like a bundle id. */
  ghost predicate IdsTellApart(w: World) {
    && (forall u, i, g, u', i', g' :: Hashed(w, u, i, g) && Hashed(w, u', i', g') ==>
          w.newId(u, i, g) == w.newId(u', i', g') ==> u == u' && i == i' && g == g')
    && (forall u, i, g :: Hashed(w, u, i, g) ==> !("bundle:" <= w.newId(u, i, g)))
  }

  ghost predicate DistinctCodes(incentives: seq<Incentive>) {
    forall i, j :: 0 <= i < j < |incentives| ==> incentives[i].code != incentives[j].code
  }

  ghost predicate DistinctCircles(circles: seq<Circle>) {
    && (forall i, j :: 0 <= i < j < |circles| ==> circles[i].id != circles[j].id)
    && (forall c :: c in circles ==> Distinct(c.members) && c.id != "" && ':' !in c.id)
  }

  /**
   What the producers of these values guarantee: no user, incentive code or circle twice, no circle with
   an empty id, hashed ids that tell the run's candidates apart, and no pseudonym that looks like a derived key.
   */
  ghost predicate Sane(w: World) {
    && Distinct(w.users) && DistinctCodes(w.incentives) && DistinctCircles(w.circles) && IdsTellApart(w)
    && (forall u :: u in w.scored ==> !("group:" <= u))
  }

  /** The circles found in the graph are fit for this stage when the digest tells their member lists apart. */
  lemma FoundCirclesFit(edges: seq<Connectivity.Edge>, minSize: int, digest: seq<string> -> string, cs: seq<Circle>)
    requires Circles.AreCircles(edges, minSize, digest, cs)
    requires forall a, b :: a in cs && b in cs && digest(a.members) == digest(b.members) ==> a.members == b.members
    requires forall c :: c in cs ==> ':' !in digest(c.members)
    ensures DistinctCircles(cs)
  {
    forall c | c in cs ensures Distinct(c.members) && c.id == "circle-" + digest(c.members) && ':' !in c.id {
      var x :| Circles.IsCircle(edges, minSize, digest, c, x);
      assert ':' !in "circle-";
    }
    forall i, j | 0 <= i < j < |cs| ensures cs[i].id != cs[j].id {
      assert cs[i] in cs && cs[j] in cs;
      assert cs[i].id[7..] == digest(cs[i].members) && cs[j].id[7..] == digest(cs[j].members);
    }
  }

  function NewCandidate(w: World, user: string, inc: Incentive, group: Option<string>): Candidate {
    Candidate(w.newId(user, inc.code, if group.Some? then group.value else ""), user, inc.code, inc.cost, group,
              inc.encouragesBorrowing, inc.changesCreditTerms, w.churn(user), w.segment(user))
  }

  // ---------------------------------------------------------------- building the candidates

  function Scored(w: World, users: seq<string>): seq<string> {
    if users == [] then []
    else if users[|users| - 1] in w.scored then Scored(w, users[..|users| - 1]) + [users[|users| - 1]]
    else Scored(w, users[..|users| - 1])
  }

  function SoloFor(w: World, user: string, incs: seq<Incentive>): seq<Candidate> {
    if incs == [] then [] else
    var before, inc := SoloFor(w, user, incs[..|incs| - 1]), incs[|incs| - 1];
    if inc.isGroup then before else before + [NewCandidate(w, user, inc, None)]
  }

  function Solos(w: World, users: seq<string>): seq<Candidate> {
    if users == [] then []
    else Solos(w, users[..|users| - 1]) + SoloFor(w, users[|users| - 1], w.incentives)
  }

  function OfferTo(w: World, inc: Incentive, group: string, members: seq<string>): seq<Candidate> {
    if members == [] then []
    else OfferTo(w, inc, group, members[..|members| - 1]) + [NewCandidate(w, members[|members| - 1], inc, Some(group))]
  }

  function OffersFor(w: World, group: string, members: seq<string>, incs: seq<Incentive>): seq<Candidate> {
    if incs == [] then [] else
    var before, inc := OffersFor(w, group, members, incs[..|incs| - 1]), incs[|incs| - 1];
    if inc.isGroup then before + OfferTo(w, inc, group, members) else before
  }

  function GroupOffers(w: World, circles: seq<Circle>): seq<Candidate> {
    if circles == [] then [] else
    var before, circle := GroupOffers(w, circles[..|circles| - 1]), circles[|circles| - 1];
    var members := Scored(w, circle.members);
    if |members| < w.minSize then before else before + OffersFor(w, circle.id, members, w.incentives)
  }

  function AllCandidates(w: World): seq<Candidate> {
    Solos(w, Scored(w, w.users)) + GroupOffers(w, w.circles)
  }

  method ScoredMembers(w: World, users: seq<string>) returns (members: seq<string>)
    ensures members == Scored(w, users)
  {
    members := [];
    for n := 0 to |users|
      invariant members == Scored(w, users[..n])
    {
      assert users[..n + 1][..n] == users[..n];
      if users[n] in w.scored {
        members := members + [users[n]];
      }
    }
    assert users[..|users|] == users;
  }

  method BuildSolos(w: World) returns (cs: seq<Candidate>)
    ensures cs == Solos(w, Scored(w, w.users))
  {
    var users := ScoredMembers(w, w.users);
    cs := [];
    for n := 0 to |users|
      invariant cs == Solos(w, users[..n])
    {
      assert users[..n + 1][..n] == users[..n];
      ghost var before := cs;
      for m := 0 to |w.incentives|
        invariant cs == before + SoloFor(w, users[n], w.incentives[..m])
      {
        assert w.incentives[..m + 1][..m] == w.incentives[..m];
        if !w.incentives[m].isGroup {
          cs := cs + [NewCandidate(w, users[n], w.incentives[m], None)];
        }
      }
      assert w.incentives[..|w.incentives|] == w.incentives;
    }
    assert users[..|users|] == users;
  }

  method BuildOffer(w: World, inc: Incentive, group: string, members: seq<string>) returns (cs: seq<Candidate>)
    ensures cs == OfferTo(w, inc, group, members)
  {
    cs := [];
    for n := 0 to |members|
      invariant cs == OfferTo(w, inc, group, members[..n])
    {
      assert members[..n + 1][..n] == members[..n];
      cs := cs + [NewCandidate(w, members[n], inc, Some(group))];
    }
    assert members[..|members|] == members;
  }

  method BuildGroupOffers(w: World) returns (cs: seq<Candidate>)
    ensures cs == GroupOffers(w, w.circles)
  {
    cs := [];
    for n := 0 to |w.circles|
      invariant cs == GroupOffers(w, w.circles[..n])
    {
      assert w.circles[..n + 1][..n] == w.circles[..n];
      var circle := w.circles[n];
      var members := ScoredMembers(w, circle.members);
      if |members| < w.minSize {
        continue;
      }
      ghost var before := cs;
      for m := 0 to |w.incentives|
        invariant cs == before + OffersFor(w, circle.id, members, w.incentives[..m])
      {
        assert w.incentives[..m + 1][..m] == w.incentives[..m];
        if w.incentives[m].isGroup {
          var more := BuildOffer(w, w.incentives[m], circle.id, members);
          cs := cs + more;
        }
      }
      assert w.incentives[..|w.incentives|] == w.incentives;
    }
    assert w.circles[..|w.circles|] == w.circles;
  }

  method BuildCandidates(w: World) returns (cs: seq<Candidate>)
    ensures cs == AllCandidates(w)
  {
    cs := BuildSolos(w);
    var more := BuildGroupOffers(w);
    cs := cs + more;
  }

  // ---------------------------------------------------------------- which candidates there are

  // The two kinds of candidates.
  ghost predicate SoloOf(w: World, c: Candidate, inc: Incentive) {
    !inc.isGroup && c == NewCandidate(w, c.user, inc, None)
  }

  ghost predicate OfferOf(w: World, c: Candidate, inc: Incentive, group: string) {
    inc.isGroup && c == NewCandidate(w, c.user, inc, Some(group))
  }

  ghost predicate IsSolo(w: World, users: seq<string>, incs: seq<Incentive>, c: Candidate) {
    c.user in users && exists inc :: inc in incs && SoloOf(w, c, inc)
  }

  ghost predicate IsOffer(w: World, members: seq<string>, incs: seq<Incentive>, group: string, c: Candidate) {
    c.user in members && exists inc :: inc in incs && OfferOf(w, c, inc, group)
  }

  // A circle large enough, and the candidate offers one of its scored members a group incentive.
  ghost predicate FromCircle(w: World, circle: Circle, c: Candidate) {
    |Scored(w, circle.members)| >= w.minSize && IsOffer(w, Scored(w, circle.members), w.incentives, circle.id, c)
  }

  ghost predicate IsGroupOffer(w: World, circles: seq<Circle>, c: Candidate) {
    exists circle :: circle in circles && FromCircle(w, circle, c)
  }

  lemma DistinctConcat<T>(a: seq<T>, b: seq<T>)
    requires Distinct(a) && Distinct(b) && forall x :: x in a ==> x !in b
    ensures Distinct(a + b)
  {
    forall i, j | 0 <= i < j < |a + b| ensures (a + b)[i] != (a + b)[j] {
      assert i < |a| ==> (a + b)[i] in a;
      assert j >= |a| ==> (a + b)[j] in b;
    }
  }

  lemma {:induction false} ScoredOnly(w: World, users: seq<string>)
    requires Distinct(users)
    ensures Distinct(Scored(w, users))
    ensures forall u :: u in Scored(w, users) <==> u in users && u in w.scored
  {
    if users != [] {
      var n := |users| - 1;
      assert users == users[..n] + [users[n]];
      ScoredOnly(w, users[..n]);
      assert users[n] !in users[..n];
    }
  }

  lemma {:induction false} SoloForExactly(w: World, user: string, incs: seq<Incentive>)
    requires DistinctCodes(incs)
    ensures Distinct(SoloFor(w, user, incs))
    ensures forall c :: c in SoloFor(w, user, incs) <==> c.user == user && IsSolo(w, [user], incs, c)
  {
    if incs != [] {
      var n := |incs| - 1;
      var before, inc := incs[..n], incs[n];
      assert incs == before + [inc];
      SoloForExactly(w, user, before);
      forall c ensures c in SoloFor(w, user, incs) <==> c.user == user && IsSolo(w, [user], incs, c) {
        if i :| i in incs && SoloOf(w, c, i) {
          assert i in before ==> c.user == user ==> IsSolo(w, [user], before, c);
        }
        if i :| i in before && SoloOf(w, c, i) {
          assert i in incs;
        }
        assert !inc.isGroup ==> SoloOf(w, NewCandidate(w, user, inc, None), inc);
      }
      assert inc.code !in CodesOf(before);
      forall c | c in SoloFor(w, user, before) ensures c.incentive != inc.code {
        var i :| i in before && SoloOf(w, c, i);
        assert i.code in CodesOf(before);
      }
    }
  }

  function CodesOf(incs: seq<Incentive>): set<string> {
    set i | 0 <= i < |incs| :: incs[i].code
  }

  lemma {:induction false} SolosExactly(w: World, users: seq<string>)
    requires Distinct(users) && DistinctCodes(w.incentives)
    ensures Distinct(Solos(w, users))
    ensures forall c :: c in Solos(w, users) <==> IsSolo(w, users, w.incentives, c)
  {
    if users != [] {
      var n := |users| - 1;
      var before, user := users[..n], users[n];
      assert users == before + [user];
      assert user !in before;
      SolosExactly(w, before);
      SoloForExactly(w, user, w.incentives);
      DistinctConcat(Solos(w, before), SoloFor(w, user, w.incentives));
    }
  }

  lemma {:induction false} OfferToExactly(w: World, inc: Incentive, group: string, members: seq<string>)
    requires Distinct(members) && inc.isGroup
    ensures Distinct(OfferTo(w, inc, group, members))
    ensures forall c :: c in OfferTo(w, inc, group, members) <==> c.user in members && OfferOf(w, c, inc, group)
  {
    if members != [] {
      var n := |members| - 1;
      assert members == members[..n] + [members[n]];
      assert members[n] !in members[..n];
      OfferToExactly(w, inc, group, members[..n]);
    }
  }

  lemma {:induction false} OffersForExactly(w: World, group: string, members: seq<string>, incs: seq<Incentive>)
    requires Distinct(members) && DistinctCodes(incs)
    ensures Distinct(OffersFor(w, group, members, incs))
    ensures forall c :: c in OffersFor(w, group, members, incs) <==> IsOffer(w, members, incs, group, c)
  {
    if incs != [] {
      var n := |incs| - 1;
      var before, inc := incs[..n], incs[n];
      assert incs == before + [inc];
      OffersForExactly(w, group, members, before);
      if inc.isGroup {
        OfferToExactly(w, inc, group, members);
        assert inc.code !in CodesOf(before);
        forall c | c in OffersFor(w, group, members, before) ensures c !in OfferTo(w, inc, group, members) {
          var i :| i in before && OfferOf(w, c, i, group);
          assert i.code in CodesOf(before);
        }
        DistinctConcat(OffersFor(w, group, members, before), OfferTo(w, inc, group, members));
      }
      forall c ensures c in OffersFor(w, group, members, incs) <==> IsOffer(w, members, incs, group, c) {
        OfferStep(w, members, before, inc, group, c);
      }
    }
  }

  lemma OfferStep(w: World, members: seq<string>, before: seq<Incentive>, inc: Incentive, group: string, c: Candidate)
    ensures IsOffer(w, members, before + [inc], group, c) <==>
      IsOffer(w, members, before, group, c) || (c.user in members && OfferOf(w, c, inc, group))
  {
    if i :| i in before && OfferOf(w, c, i, group) {
      assert i in before + [inc];
    }
    assert inc in before + [inc];
  }

  lemma {:induction false} GroupOffersExactly(w: World, circles: seq<Circle>)
    requires DistinctCircles(circles) && DistinctCodes(w.incentives)
    ensures Distinct(GroupOffers(w, circles))
    ensures forall c :: c in GroupOffers(w, circles) <==> IsGroupOffer(w, circles, c)
  {
    if circles != [] {
      var n := |circles| - 1;
      var before, circle := circles[..n], circles[n];
      assert circles == before + [circle];
      GroupOffersExactly(w, before);
      var members := Scored(w, circle.members);
      ScoredOnly(w, circle.members);
      OffersForExactly(w, circle.id, members, w.incentives);
      forall c | c in GroupOffers(w, before) ensures c !in OffersFor(w, circle.id, members, w.incentives) {
        var other :| other in before && FromCircle(w, other, c);
        assert other.id != circle.id;
      }
      DistinctConcat(GroupOffers(w, before), OffersFor(w, circle.id, members, w.incentives));
      forall c ensures c in GroupOffers(w, circles) <==> IsGroupOffer(w, circles, c) {
        CircleStep(w, before, circle, c);
      }
    }
  }

  lemma CircleStep(w: World, before: seq<Circle>, circle: Circle, c: Candidate)
    ensures IsGroupOffer(w, before + [circle], c) <==> IsGroupOffer(w, before, c) || FromCircle(w, circle, c)
  {
    if other :| other in before && FromCircle(w, other, c) {
      assert other in before + [circle];
    }
    assert circle in before + [circle];
  }

  /**
   The candidates are, each once: every scored user with every individual incentive, and every scored
   member of every large enough circle with every group incentive.
   */
  lemma CandidatesExactly(w: World)
    requires Sane(w)
    ensures Distinct(AllCandidates(w))
    ensures forall c :: c in AllCandidates(w) <==>
      IsSolo(w, Scored(w, w.users), w.incentives, c) || IsGroupOffer(w, w.circles, c)
  {
    ScoredOnly(w, w.users);
    SolosExactly(w, Scored(w, w.users));
    GroupOffersExactly(w, w.circles);
    forall c | c in Solos(w, Scored(w, w.users)) ensures c !in GroupOffers(w, w.circles) {
      assert c.group == None;
    }
    DistinctConcat(Solos(w, Scored(w, w.users)), GroupOffers(w, w.circles));
  }

  function Ids(cs: seq<Candidate>): (r: seq<string>)
    ensures |r| == |cs| && forall i :: 0 <= i < |cs| ==> r[i] == cs[i].id
  {
    seq(|cs|, i requires 0 <= i < |cs| => cs[i].id)
  }

  // What the id of a candidate was made from.
  ghost predicate MadeFrom(w: World, c: Candidate, inc: Incentive, group: string) {
    && inc in w.incentives && c.id == w.newId(c.user, inc.code, group) && c.incentive == inc.code
    && (if group == "" then SoloOf(w, c, inc) else OfferOf(w, c, inc, group))
  }

  lemma Origin(w: World, c: Candidate) returns (inc: Incentive, group: string)
    requires Sane(w) && c in AllCandidates(w)
    ensures MadeFrom(w, c, inc, group) && ':' !in group
    ensures c.user in w.scored && group == (if c.group.Some? then c.group.value else "")
    ensures Hashed(w, c.user, inc.code, group)
  {
    CandidatesExactly(w);
    ScoredOnly(w, w.users);
    if IsSolo(w, Scored(w, w.users), w.incentives, c) {
      inc :| inc in w.incentives && SoloOf(w, c, inc);
      group := "";
    } else {
      var circle :| circle in w.circles && FromCircle(w, circle, c);
      ScoredOnly(w, circle.members);
      inc :| inc in w.incentives && OfferOf(w, c, inc, circle.id);
      group := circle.id;
    }
  }

  lemma IdIdentifies(w: World, c: Candidate, d: Candidate)
    requires Sane(w) && c in AllCandidates(w) && d in AllCandidates(w) && c.id == d.id
    ensures c == d
  {
    var i, g := Origin(w, c);
    var j, h := Origin(w, d);
    assert i.code == j.code && g == h && c.user == d.user;
    assert i == j;
  }

  /** No two candidates share an id, and every id and user keeps clear of the derived keys. */
  lemma CandidateIdsDistinct(w: World)
    requires Sane(w)
    ensures Distinct(Ids(AllCandidates(w)))
    ensures forall c :: c in AllCandidates(w) ==>
      && !("bundle:" <= c.id) && !("group:" <= c.user) && c.user in w.scored
      && (c.group.Some? ==> ':' !in c.group.value && c.group.value != "")
  {
    var cs := AllCandidates(w);
    CandidatesExactly(w);
    forall i, j | 0 <= i < j < |cs| ensures Ids(cs)[i] != Ids(cs)[j] {
      if cs[i].id == cs[j].id {
        IdIdentifies(w, cs[i], cs[j]);
      }
    }
    forall c | c in cs
      ensures !("bundle:" <= c.id) && !("group:" <= c.user) && c.user in w.scored
      ensures c.group.Some? ==> ':' !in c.group.value && c.group.value != ""
    {
      var i, g := Origin(w, c);
    }
  }

  // ---------------------------------------------------------------- exclusions

  // The configured limits; only the measurement baseline leaves the segment rule out.
  function Limits(w: World, applySegmentRule: bool): PolicyConfig {
    w.policy.(applySegmentRule := applySegmentRule)
  }

  function Verdict(w: World, c: Candidate): PolicyDecision {
    Evaluate(c, w.facts(c.user), Limits(w, true))
  }

  predicate Denied(w: World, c: Candidate) {
    !Verdict(w, c).allowed
  }

  function OfferKey(c: Candidate): Option<Offer> {
    if c.group.Some? then Some(Offer(c.group.value, c.incentive)) else None
  }

  // Some member of the candidate's group offer is denied.
  ghost predicate OfferSpoiled(w: World, cs: seq<Candidate>, key: Option<Offer>) {
    key.Some? && exists m :: m in cs && OfferKey(m) == key && Denied(w, m)
  }

  function OwnDenial(w: World, c: Candidate): Option<Reason> {
    if Denied(w, c) then Some(ExclusionFor(Verdict(w, c), c.segment)) else None
  }

  /** Why a candidate may not be offered, if it may not: its own denial first, then a fellow member's. */
  ghost function Exclusion(w: World, cs: seq<Candidate>, c: Candidate): Option<Reason> {
    if Denied(w, c) then OwnDenial(w, c)
    else if OfferSpoiled(w, cs, OfferKey(c)) then Some(GroupMemberDenied)
    else None
  }

  // The reasons recorded for the first n candidates, whatever the reasons are.
  ghost predicate RecordedSoFar(own: Candidate -> Option<Reason>, cs: seq<Candidate>, n: nat,
                                exclusions: map<string, Reason>)
    requires n <= |cs|
  {
    && (forall id :: id in exclusions ==> id in Ids(cs)[..n])
    && forall i :: 0 <= i < n ==> Lookup(exclusions, cs[i].id) == own(cs[i])
  }

  lemma RecordOne(own: Candidate -> Option<Reason>, cs: seq<Candidate>, n: nat, before: map<string, Reason>)
    requires Distinct(Ids(cs)) && n < |cs| && RecordedSoFar(own, cs, n, before)
    ensures RecordedSoFar(own, cs, n + 1, if own(cs[n]).Some? then before[cs[n].id := own(cs[n]).value] else before)
  {
    FrontLacks(Ids(cs), n);
    TakeOne(Ids(cs), n);
    assert forall i :: 0 <= i < n ==> Ids(cs)[i] in Ids(cs)[..n];
  }

  method ExcludeDenied(w: World, cs: seq<Candidate>) returns (exclusions: map<string, Reason>)
    requires Distinct(Ids(cs))
    ensures exclusions.Keys <= AsSet(Ids(cs))
    ensures forall c :: c in cs ==> Lookup(exclusions, c.id) == OwnDenial(w, c)
  {
    ghost var own := (c: Candidate) => OwnDenial(w, c);
    exclusions := map[];
    for n := 0 to |cs|
      invariant RecordedSoFar(own, cs, n, exclusions)
    {
      var decision := Evaluate(cs[n], w.facts(cs[n].user), Limits(w, true));
      RecordOne(own, cs, n, exclusions);
      if !decision.allowed {
        exclusions := exclusions[cs[n].id := ExclusionFor(decision, cs[n].segment)];
      }
    }
    assert Ids(cs)[..|cs|] == Ids(cs);
    forall c | c in cs ensures Lookup(exclusions, c.id) == own(c) {
    }
  }

  function OfferMembers(cs: seq<Candidate>, k: Offer): seq<Candidate> {
    if cs == [] then []
    else if OfferKey(cs[|cs| - 1]) == Some(k) then OfferMembers(cs[..|cs| - 1], k) + [cs[|cs| - 1]]
    else OfferMembers(cs[..|cs| - 1], k)
  }

  lemma {:induction false} OfferMembersListed(cs: seq<Candidate>, k: Offer)
    ensures forall c :: c in OfferMembers(cs, k) <==> c in cs && OfferKey(c) == Some(k)
  {
    if cs != [] {
      assert cs == cs[..|cs| - 1] + [cs[|cs| - 1]];
      OfferMembersListed(cs[..|cs| - 1], k);
    }
  }

  /** The group offers in order of first appearance. */
  function OfferKeys(cs: seq<Candidate>): seq<Offer> {
    if cs == [] then [] else
    var before, key := OfferKeys(cs[..|cs| - 1]), OfferKey(cs[|cs| - 1]);
    if key.Some? && key.value !in before then before + [key.value] else before
  }

  lemma {:induction false} OfferKeysListed(cs: seq<Candidate>)
    ensures Distinct(OfferKeys(cs))
    ensures forall c :: c in cs && c.group.Some? ==> OfferKey(c).value in OfferKeys(cs)
  {
    if cs != [] {
      assert cs == cs[..|cs| - 1] + [cs[|cs| - 1]];
      OfferKeysListed(cs[..|cs| - 1]);
    }
  }

  // The bundles filled so far.
  ghost predicate Gathered(cs: seq<Candidate>, order: seq<Offer>, bundles: map<Offer, seq<Candidate>>) {
    && order == OfferKeys(cs) && (forall k :: k in bundles <==> k in order)
    && forall k :: OfferMembers(cs, k) == if k in bundles then bundles[k] else []
  }

  lemma GatherOne(cs: seq<Candidate>, order: seq<Offer>, bundles: map<Offer, seq<Candidate>>, c: Candidate)
    requires Gathered(cs, order, bundles)
    ensures c.group.None? ==> Gathered(cs + [c], order, bundles)
    ensures c.group.Some? ==>
      var k := OfferKey(c).value;
      Gathered(cs + [c], if k in order then order else order + [k],
               bundles[k := (if k in bundles then bundles[k] else []) + [c]])
  {
    assert (cs + [c])[..|cs|] == cs;
    forall k ensures OfferMembers(cs + [c], k) == OfferMembers(cs, k) + if OfferKey(c) == Some(k) then [c] else [] {
    }
  }

  method GatherOffers(cs: seq<Candidate>) returns (order: seq<Offer>, bundles: map<Offer, seq<Candidate>>)
    ensures Gathered(cs, order, bundles)
  {
    order, bundles := [], map[];
    for n := 0 to |cs|
      invariant Gathered(cs[..n], order, bundles)
    {
      var c := cs[n];
      assert cs[..n + 1] == cs[..n] + [c];
      GatherOne(cs[..n], order, bundles, c);
      if c.group.Some? {
        var k := Offer(c.group.value, c.incentive);
        if k !in bundles {
          bundles := bundles[k := []];
          order := order + [k];
        }
        bundles := bundles[k := bundles[k] + [c]];
      }
    }
    assert cs[..|cs|] == cs;
  }

  // What spoiling a bundle leaves recorded under an id.
  ghost function AfterSpoiling(marked: seq<string>, before: map<string, Reason>, id: string): Option<Reason> {
    if id !in before && id in marked then Some(GroupMemberDenied) else Lookup(before, id)
  }

  ghost predicate HoldsExcluded(members: seq<Candidate>, before: map<string, Reason>) {
    exists m :: m in members && m.id in before
  }

  /** One excluded member excludes the rest of the bundle; recorded reasons stay. */
  method SpoilBundle(members: seq<Candidate>, before: map<string, Reason>) returns (exclusions: map<string, Reason>)
    ensures Spoils(members, before, exclusions)
  {
    exclusions := before;
    if exists m :: m in members && m.id in before {
      for n := 0 to |members|
        invariant forall id :: Lookup(exclusions, id) == AfterSpoiling(Ids(members)[..n], before, id)
      {
        ghost var was := exclusions;
        assert Ids(members)[..n + 1] == Ids(members)[..n] + [members[n].id];
        assert Lookup(was, members[n].id) == AfterSpoiling(Ids(members)[..n], before, members[n].id);
        if members[n].id !in exclusions {
          exclusions := exclusions[members[n].id := GroupMemberDenied];
        }
        forall id ensures Lookup(exclusions, id) == AfterSpoiling(Ids(members)[..n + 1], before, id) {
          assert Lookup(was, id) == AfterSpoiling(Ids(members)[..n], before, id);
        }
      }
      assert Ids(members)[..|members|] == Ids(members);
    }
  }

  // The reason after the bundles up to n have been looked at.
  ghost function ReasonSoFar(w: World, cs: seq<Candidate>, seen: seq<Offer>, c: Candidate): Option<Reason> {
    if Denied(w, c) || (c.group.Some? && OfferKey(c).value in seen) then Exclusion(w, cs, c) else None
  }

  ghost predicate SpoiledSoFar(w: World, cs: seq<Candidate>, seen: seq<Offer>, exclusions: map<string, Reason>) {
    && exclusions.Keys <= AsSet(Ids(cs))
    && forall c :: c in cs ==> Lookup(exclusions, c.id) == ReasonSoFar(w, cs, seen, c)
  }

  lemma SameIdSameCandidate(cs: seq<Candidate>, c: Candidate, members: seq<Candidate>)
    requires Distinct(Ids(cs)) && c in cs && forall m :: m in members ==> m in cs
    ensures c.id in Ids(members) <==> c in members
  {
    if c.id in Ids(members) {
      var j :| 0 <= j < |members| && Ids(members)[j] == c.id;
      assert members[j] in members;
      var a :| 0 <= a < |cs| && cs[a] == c;
      var b :| 0 <= b < |cs| && cs[b] == members[j];
      assert Ids(cs)[a] == Ids(cs)[b];
    }
    if c in members {
      var j :| 0 <= j < |members| && members[j] == c;
      assert Ids(members)[j] == c.id;
    }
  }

  lemma OfferSpoils(w: World, cs: seq<Candidate>, seen: seq<Offer>, k: Offer, before: map<string, Reason>)
    requires SpoiledSoFar(w, cs, seen, before) && k !in seen
    ensures HoldsExcluded(OfferMembers(cs, k), before) <==> OfferSpoiled(w, cs, Some(k))
  {
    OfferMembersListed(cs, k);
    forall m | m in OfferMembers(cs, k) ensures m.id in before <==> Denied(w, m) {
      assert Lookup(before, m.id) == ReasonSoFar(w, cs, seen, m);
    }
    if m :| m in OfferMembers(cs, k) && m.id in before {
      assert OfferKey(m) == Some(k) && Denied(w, m);
    }
    if m :| m in cs && OfferKey(m) == Some(k) && Denied(w, m) {
      assert m in OfferMembers(cs, k);
    }
  }

  // The map after spoiling one bundle.
  ghost predicate Spoils(members: seq<Candidate>, before: map<string, Reason>, after: map<string, Reason>) {
    forall id :: Lookup(after, id) ==
      AfterSpoiling(if HoldsExcluded(members, before) then Ids(members) else [], before, id)
  }

  lemma SpoilOne(w: World, cs: seq<Candidate>, seen: seq<Offer>, k: Offer, before: map<string, Reason>,
                 after: map<string, Reason>, c: Candidate)
    requires Distinct(Ids(cs)) && SpoiledSoFar(w, cs, seen, before) && k !in seen && c in cs
    requires Spoils(OfferMembers(cs, k), before, after)
    ensures Lookup(after, c.id) == ReasonSoFar(w, cs, seen + [k], c)
  {
    var members := OfferMembers(cs, k);
    OfferMembersListed(cs, k);
    OfferSpoils(w, cs, seen, k, before);
    SameIdSameCandidate(cs, c, members);
    assert Lookup(before, c.id) == ReasonSoFar(w, cs, seen, c);
    assert Lookup(after, c.id) ==
      AfterSpoiling(if HoldsExcluded(members, before) then Ids(members) else [], before, c.id);
  }

  lemma SpoilKeys(cs: seq<Candidate>, k: Offer, before: map<string, Reason>, after: map<string, Reason>)
    requires before.Keys <= AsSet(Ids(cs)) && Spoils(OfferMembers(cs, k), before, after)
    ensures after.Keys <= AsSet(Ids(cs))
  {
    var members := OfferMembers(cs, k);
    OfferMembersListed(cs, k);
    forall id | id in after ensures id in AsSet(Ids(cs)) {
      assert Lookup(after, id).Some?;
      if id !in before {
        var j :| 0 <= j < |members| && Ids(members)[j] == id;
        assert members[j] in members;
        var a :| 0 <= a < |cs| && cs[a] == members[j];
        assert Ids(cs)[a] == id;
      }
    }
  }

  lemma SpoilStep(w: World, cs: seq<Candidate>, seen: seq<Offer>, k: Offer, before: map<string, Reason>,
                  after: map<string, Reason>)
    requires Distinct(Ids(cs)) && SpoiledSoFar(w, cs, seen, before) && k !in seen
    requires Spoils(OfferMembers(cs, k), before, after)
    ensures SpoiledSoFar(w, cs, seen + [k], after)
  {
    SpoilKeys(cs, k, before, after);
    forall c | c in cs ensures Lookup(after, c.id) == ReasonSoFar(w, cs, seen + [k], c) {
      SpoilOne(w, cs, seen, k, before, after, c);
    }
  }

  method SpoilOffers(order: seq<Offer>, bundles: map<Offer, seq<Candidate>>, denied: map<string, Reason>,
                     ghost w: World, ghost cs: seq<Candidate>)
    returns (exclusions: map<string, Reason>)
    requires Distinct(Ids(cs)) && Distinct(order) && SpoiledSoFar(w, cs, [], denied)
    requires forall k :: k in order ==> k in bundles && bundles[k] == OfferMembers(cs, k)
    ensures SpoiledSoFar(w, cs, order, exclusions)
  {
    exclusions := denied;
    for n := 0 to |order|
      invariant SpoiledSoFar(w, cs, order[..n], exclusions)
    {
      ghost var before := exclusions;
      exclusions := SpoilBundle(bundles[order[n]], exclusions);
      SpoilStep(w, cs, order[..n], order[n], before, exclusions);
      TakeOne(order, n);
    }
    assert order[..|order|] == order;
  }

  /** Records why each candidate that may not be offered is excluded, and nothing else. */
  method Exclude(w: World, cs: seq<Candidate>) returns (exclusions: map<string, Reason>)
    requires Distinct(Ids(cs))
    ensures exclusions.Keys <= AsSet(Ids(cs))
    ensures forall c :: c in cs ==> Lookup(exclusions, c.id) == Exclusion(w, cs, c)
  {
    var denied := ExcludeDenied(w, cs);
    var order, bundles := GatherOffers(cs);
    OfferKeysListed(cs);
    forall k | k in order ensures k in bundles && bundles[k] == OfferMembers(cs, k) {
    }
    exclusions := SpoilOffers(order, bundles, denied, w, cs);
    forall c | c in cs ensures Lookup(exclusions, c.id) == Exclusion(w, cs, c) {
      assert Lookup(exclusions, c.id) == ReasonSoFar(w, cs, order, c);
    }
  }

  // ---------------------------------------------------------------- what POLICY guarantees

  /** All members of a group offer are excluded or none is. */
  lemma OffersFallTogether(w: World, cs: seq<Candidate>, a: Candidate, b: Candidate)
    requires a in cs && b in cs && a.group.Some? && OfferKey(a) == OfferKey(b)
    ensures Exclusion(w, cs, a).Some? <==> Exclusion(w, cs, b).Some?
  {
  }

  /** An offer that stands is made to every scored member of the circle, and each of them passed every rule. */
  lemma StandingOffer(w: World, c: Candidate) returns (circle: Circle, inc: Incentive)
    requires Sane(w) && c in AllCandidates(w) && c.group.Some? && Exclusion(w, AllCandidates(w), c).None?
    ensures circle in w.circles && c.group == Some(circle.id) && inc in w.incentives && inc.isGroup
    ensures inc.code == c.incentive
    ensures |Scored(w, circle.members)| >= w.minSize
    ensures forall m :: m in Scored(w, circle.members) ==>
      var d := NewCandidate(w, m, inc, Some(circle.id));
      d in AllCandidates(w) && OfferKey(d) == OfferKey(c) && !Denied(w, d) && Exclusion(w, AllCandidates(w), d).None?
  {
    var cs := AllCandidates(w);
    CandidatesExactly(w);
    assert !IsSolo(w, Scored(w, w.users), w.incentives, c);
    circle :| circle in w.circles && FromCircle(w, circle, c);
    inc :| inc in w.incentives && OfferOf(w, c, inc, circle.id);
    forall m | m in Scored(w, circle.members)
      ensures var d := NewCandidate(w, m, inc, Some(circle.id));
        d in cs && OfferKey(d) == OfferKey(c) && !Denied(w, d) && Exclusion(w, cs, d).None?
    {
      var d := NewCandidate(w, m, inc, Some(circle.id));
      assert OfferOf(w, d, inc, circle.id);
      assert FromCircle(w, circle, d);
      assert IsGroupOffer(w, w.circles, d);
      OffersFallTogether(w, cs, c, d);
    }
  }

  /** Conversely, every member of a standing offer belongs to that circle. */
  lemma OnlyMembers(w: World, circle: Circle, c: Candidate)
    requires Sane(w) && c in AllCandidates(w) && circle in w.circles && c.group == Some(circle.id)
    ensures c.user in Scored(w, circle.members)
  {
    CandidatesExactly(w);
    assert !IsSolo(w, Scored(w, w.users), w.incentives, c);
    var other :| other in w.circles && FromCircle(w, other, c);
    assert other.id == circle.id;
    assert other == circle;
  }
}
