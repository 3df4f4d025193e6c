/** The RANK and ALLOCATE stages: arms, holdouts, the engine's allocation, its picks, and the baseline. */
module Decisions {
  import opened Contracts
  import opened Ordering
  import opened Bundles
  import opened Candidates
  import opened Accounting
  import Baseline
  import Items
  import Selection

  // ---------------------------------------------------------------- ranking

  predicate ByPriority(a: Ranked, b: Ranked) {
    a.priority > b.priority || (a.priority == b.priority && StrLe(a.candidate.id, b.candidate.id))
  }

  function StandingIn(exclusions: map<string, Reason>, cs: seq<Candidate>): seq<Candidate> {
    if cs == [] then []
    else if cs[|cs| - 1].id in exclusions then StandingIn(exclusions, cs[..|cs| - 1])
    else StandingIn(exclusions, cs[..|cs| - 1]) + [cs[|cs| - 1]]
  }

  function WithPriority(cs: seq<Candidate>, priority: Candidate -> real): (r: seq<Ranked>)
    ensures |r| == |cs| && forall i :: 0 <= i < |cs| ==> r[i] == Ranked(cs[i], priority(cs[i]))
  {
    seq(|cs|, i requires 0 <= i < |cs| => Ranked(cs[i], priority(cs[i])))
  }

  function RankedOf(exclusions: map<string, Reason>, cs: seq<Candidate>, priority: Candidate -> real): seq<Ranked> {
    SortBy(WithPriority(StandingIn(exclusions, cs), priority), ByPriority)
  }

  function CandidatesOf(rs: seq<Ranked>): (r: seq<Candidate>)
    ensures |r| == |rs| && forall i :: 0 <= i < |rs| ==> r[i] == rs[i].candidate
  {
    seq(|rs|, i requires 0 <= i < |rs| => rs[i].candidate)
  }

  // ---------------------------------------------------------------- exclusions and holdouts

  function InArm(arms: string -> Arm, arm: Arm, rs: seq<Ranked>): seq<Ranked> {
    if rs == [] then []
    else if arms(Unit(rs[|rs| - 1].candidate)) == arm then InArm(arms, arm, rs[..|rs| - 1]) + [rs[|rs| - 1]]
    else InArm(arms, arm, rs[..|rs| - 1])
  }

  function ExcludedExtras(arms: string -> Arm, exclusions: map<string, Reason>, cs: seq<Candidate>): seq<Decision> {
    if cs == [] then [] else
    var before, c := ExcludedExtras(arms, exclusions, cs[..|cs| - 1]), cs[|cs| - 1];
    if c.id in exclusions && arms(Unit(c)) != Naive then before + [Extra(c, exclusions[c.id], 0.0)] else before
  }

  function HoldoutExtras(rs: seq<Ranked>): seq<Decision> {
    if rs == [] then []
    else HoldoutExtras(rs[..|rs| - 1]) + [Extra(rs[|rs| - 1].candidate, ControlHoldout, rs[|rs| - 1].priority)]
  }

  // ---------------------------------------------------------------- the engine's picks

  function KeysOf(ds: seq<Decision>): seq<string> {
    if ds == [] then [] else
    var before, key := KeysOf(ds[..|ds| - 1]), ds[|ds| - 1].key;
    if key in before then before else before + [key]
  }

  function ForKey(ds: seq<Decision>, key: string): (r: seq<Decision>)
    ensures forall d :: d in r ==> d in ds
  {
    if ds == [] then []
    else if ds[|ds| - 1].key == key then ForKey(ds[..|ds| - 1], key) + [ds[|ds| - 1]]
    else ForKey(ds[..|ds| - 1], key)
  }

  function Chosen(ds: seq<Decision>): (r: seq<Decision>)
    ensures forall d :: d in r ==> d in ds
  {
    if ds == [] then []
    else if ds[|ds| - 1].selected then Chosen(ds[..|ds| - 1]) + [ds[|ds| - 1]]
    else Chosen(ds[..|ds| - 1])
  }

  function Runners(ds: seq<Decision>): seq<Decision> {
    if ds == [] then []
    else if ds[|ds| - 1].isRunnerUp then Runners(ds[..|ds| - 1]) + [ds[|ds| - 1]]
    else Runners(ds[..|ds| - 1])
  }

  ghost predicate Indexed(rs: seq<Ranked>, byId: map<string, Ranked>) {
    && (forall id :: id in byId <==> id in CandidateIds(rs))
    && forall r :: r in rs ==> byId[r.candidate.id] == r
  }

  predicate AllIndexed(byId: map<string, Ranked>, ds: seq<Decision>) {
    forall d :: d in ds ==> d.candidateId in byId
  }

  function Holders(byId: map<string, Ranked>, ds: seq<Decision>): (r: seq<Ranked>)
    requires AllIndexed(byId, ds)
    ensures |r| == |ds| && forall i :: 0 <= i < |ds| ==> r[i] == byId[ds[i].candidateId]
  {
    seq(|ds|, i requires 0 <= i < |ds| => byId[ds[i].candidateId])
  }

  function UsersOf(rs: seq<Ranked>): (r: seq<string>)
    ensures |r| == |rs| && forall i :: 0 <= i < |rs| ==> r[i] == rs[i].candidate.user
  {
    seq(|rs|, i requires 0 <= i < |rs| => rs[i].candidate.user)
  }

  /** The pick of one choice key: all members of the chosen bundle, or the one chosen candidate. */
  function PickFor(byId: map<string, Ranked>, key: string, chosen: seq<Decision>, runners: seq<Decision>): Pick
    requires chosen != [] && AllIndexed(byId, chosen)
  {
    var top := Holders(byId, chosen);
    if "group:" <= key then
      Pick(Engine, DecisionIds(chosen), DecisionIds(runners), chosen[0].rank,
           TotalCost(top), chosen[0].priority, Some(key[6..]), UsersOf(top))
    else
      Pick(Engine, [chosen[0].candidateId], if runners == [] then [] else [runners[0].candidateId], chosen[0].rank,
           top[0].candidate.cost, top[0].priority, None, [])
  }

  function EnginePicks(byId: map<string, Ranked>, ds: seq<Decision>, keys: seq<string>): seq<Pick>
    requires AllIndexed(byId, ds)
  {
    if keys == [] then [] else
    var before, key := EnginePicks(byId, ds, keys[..|keys| - 1]), keys[|keys| - 1];
    var chosen := Chosen(ForKey(ds, key));
    if chosen == [] then before else before + [PickFor(byId, key, chosen, Runners(ForKey(ds, key)))]
  }

  lemma {:induction false} ForKeyListed(ds: seq<Decision>, key: string)
    ensures forall d :: d in ForKey(ds, key) <==> d in ds && d.key == key
  {
    if ds != [] {
      assert ds == ds[..|ds| - 1] + [ds[|ds| - 1]];
      ForKeyListed(ds[..|ds| - 1], key);
    }
  }

  lemma {:induction false} ChosenIn(ds: seq<Decision>)
    ensures forall d :: d in Chosen(ds) <==> d in ds && d.selected
  {
    if ds != [] {
      assert ds == ds[..|ds| - 1] + [ds[|ds| - 1]];
      ChosenIn(ds[..|ds| - 1]);
    }
  }

  lemma ChosenListed(ds: seq<Decision>, key: string)
    ensures forall d :: d in Chosen(ForKey(ds, key)) <==> d in ds && d.key == key && d.selected
  {
    ForKeyListed(ds, key);
    ChosenIn(ForKey(ds, key));
  }

  // ---------------------------------------------------------------- the loops

  method IndexById(rs: seq<Ranked>) returns (byId: map<string, Ranked>)
    requires Distinct(CandidateIds(rs))
    ensures Indexed(rs, byId)
  {
    byId := map[];
    for n := 0 to |rs|
      invariant forall id :: id in byId <==> id in CandidateIds(rs)[..n]
      invariant forall i :: 0 <= i < n ==> byId[rs[i].candidate.id] == rs[i]
    {
      TakeOne(CandidateIds(rs), n);
      assert forall i :: 0 <= i < n ==> CandidateIds(rs)[i] != CandidateIds(rs)[n];
      byId := byId[rs[n].candidate.id := rs[n]];
    }
    assert CandidateIds(rs)[..|rs|] == CandidateIds(rs);
  }

  // The decisions filed under their choice keys.
  ghost predicate FiledByKey(ds: seq<Decision>, order: seq<string>, byKey: map<string, seq<Decision>>) {
    && order == KeysOf(ds) && (forall k :: k in byKey <==> k in order)
    && forall k :: ForKey(ds, k) == if k in byKey then byKey[k] else []
  }

  lemma FileDecision(ds: seq<Decision>, order: seq<string>, byKey: map<string, seq<Decision>>, d: Decision)
    requires FiledByKey(ds, order, byKey)
    ensures FiledByKey(ds + [d], if d.key in order then order else order + [d.key],
                       byKey[d.key := (if d.key in byKey then byKey[d.key] else []) + [d]])
  {
    assert (ds + [d])[..|ds|] == ds;
    forall k ensures ForKey(ds + [d], k) == ForKey(ds, k) + if d.key == k then [d] else [] {
    }
  }

  method FileByKey(ds: seq<Decision>) returns (order: seq<string>, byKey: map<string, seq<Decision>>)
    ensures FiledByKey(ds, order, byKey)
  {
    order, byKey := [], map[];
    for n := 0 to |ds|
      invariant FiledByKey(ds[..n], order, byKey)
    {
      var key := ds[n].key;
      TakeOne(ds, n);
      FileDecision(ds[..n], order, byKey, ds[n]);
      if key !in order {
        order := order + [key];
      }
      byKey := byKey[key := (if key in byKey then byKey[key] else []) + [ds[n]]];
    }
    assert ds[..|ds|] == ds;
  }

  lemma EnginePicksOne(byId: map<string, Ranked>, ds: seq<Decision>, keys: seq<string>, n: nat)
    requires AllIndexed(byId, ds) && n < |keys|
    ensures AllIndexed(byId, Chosen(ForKey(ds, keys[n])))
    ensures var chosen := Chosen(ForKey(ds, keys[n]));
      EnginePicks(byId, ds, keys[..n + 1]) == EnginePicks(byId, ds, keys[..n]) +
        if chosen == [] then [] else [PickFor(byId, keys[n], chosen, Runners(ForKey(ds, keys[n])))]
  {
    assert keys[..n + 1][..n] == keys[..n];
  }

  method PickEach(byId: map<string, Ranked>, keys: seq<string>, byKey: map<string, seq<Decision>>,
                  ghost ds: seq<Decision>)
    returns (picks: seq<Pick>)
    requires AllIndexed(byId, ds) && forall k :: k in keys ==> k in byKey && byKey[k] == ForKey(ds, k)
    ensures picks == EnginePicks(byId, ds, keys)
  {
    picks := [];
    for n := 0 to |keys|
      invariant picks == EnginePicks(byId, ds, keys[..n])
    {
      EnginePicksOne(byId, ds, keys, n);
      var decisions := byKey[keys[n]];
      var chosen := Chosen(decisions);
      if chosen != [] {
        picks := picks + [PickFor(byId, keys[n], chosen, Runners(decisions))];
      }
    }
    assert keys[..|keys|] == keys;
  }

  /** The picks read off the decisions, with the index that finds the ranked candidate of an id. */
  ghost predicate PicksBy(engine: seq<Ranked>, ds: seq<Decision>, picks: seq<Pick>, byId: map<string, Ranked>) {
    Indexed(engine, byId) && AllIndexed(byId, ds) && picks == EnginePicks(byId, ds, SortBy(KeysOf(ds), StrLe))
  }

  method PickAll(engine: seq<Ranked>, ds: seq<Decision>) returns (picks: seq<Pick>)
    requires Distinct(CandidateIds(engine)) && multiset(DecisionIds(ds)) == multiset(CandidateIds(engine))
    ensures exists byId :: PicksBy(engine, ds, picks, byId)
  {
    var byId := IndexById(engine);
    DecisionsIndexed(engine, byId, ds);
    var order, byKey := FileByKey(ds);
    var keys := SortBy(order, StrLe);
    SortByMembers(order, StrLe);
    picks := PickEach(byId, keys, byKey, ds);
    assert PicksBy(engine, ds, picks, byId);
  }

  lemma DecisionsIndexed(engine: seq<Ranked>, byId: map<string, Ranked>, ds: seq<Decision>)
    requires Indexed(engine, byId) && multiset(DecisionIds(ds)) == multiset(CandidateIds(engine))
    ensures AllIndexed(byId, ds)
  {
    MembersFromMultiset(DecisionIds(ds), CandidateIds(engine));
    forall d | d in ds ensures d.candidateId in byId {
      var i :| 0 <= i < |ds| && ds[i] == d;
      assert DecisionIds(ds)[i] in DecisionIds(ds);
    }
  }

  method ExcludeStanding(arms: string -> Arm, exclusions: map<string, Reason>, cs: seq<Candidate>)
    returns (extra: seq<Decision>)
    ensures extra == ExcludedExtras(arms, exclusions, cs)
  {
    extra := [];
    for n := 0 to |cs|
      invariant extra == ExcludedExtras(arms, exclusions, cs[..n])
    {
      assert cs[..n + 1][..n] == cs[..n];
      if cs[n].id in exclusions && arms(Unit(cs[n])) != Naive {
        extra := extra + [Extra(cs[n], exclusions[cs[n].id], 0.0)];
      }
    }
    assert cs[..|cs|] == cs;
  }

  // The engine's list and the decisions for the held-out units.
  method SplitArms(arms: string -> Arm, rs: seq<Ranked>) returns (engine: seq<Ranked>, extra: seq<Decision>)
    ensures engine == InArm(arms, Engine, rs) && extra == HoldoutExtras(InArm(arms, Control, rs))
  {
    engine, extra := [], [];
    for n := 0 to |rs|
      invariant engine == InArm(arms, Engine, rs[..n]) && extra == HoldoutExtras(InArm(arms, Control, rs[..n]))
    {
      assert rs[..n + 1][..n] == rs[..n];
      if arms(Unit(rs[n].candidate)) == Engine {
        engine := engine + [rs[n]];
      }
      if arms(Unit(rs[n].candidate)) == Control {
        assert (InArm(arms, Control, rs[..n]) + [rs[n]])[..|InArm(arms, Control, rs[..n])|] ==
          InArm(arms, Control, rs[..n]);
        extra := extra + [Extra(rs[n].candidate, ControlHoldout, rs[n].priority)];
      }
    }
    assert rs[..|rs|] == rs;
  }

  // ---------------------------------------------------------------- the lists hold what they should

  lemma {:induction false} StandingListed(exclusions: map<string, Reason>, cs: seq<Candidate>)
    ensures forall c :: c in StandingIn(exclusions, cs) <==> c in cs && c.id !in exclusions
    ensures Distinct(Ids(cs)) ==> Distinct(Ids(StandingIn(exclusions, cs)))
  {
    if cs != [] {
      var before, c := cs[..|cs| - 1], cs[|cs| - 1];
      assert cs == before + [c];
      StandingListed(exclusions, before);
      if Distinct(Ids(cs)) {
        FrontIdsDistinct(before, c);
        OneMoreId(before, StandingIn(exclusions, before), c);
      }
    }
  }

  lemma OneMoreId(before: seq<Candidate>, kept: seq<Candidate>, c: Candidate)
    requires Distinct(Ids(kept)) && (forall d :: d in kept ==> d in before)
    requires forall i :: 0 <= i < |before| ==> Ids(before)[i] != c.id
    ensures Distinct(Ids(kept + [c]))
  {
    forall i | 0 <= i < |kept| ensures Ids(kept)[i] != c.id {
      assert kept[i] in before;
      var j :| 0 <= j < |before| && before[j] == kept[i];
      assert Ids(before)[j] == Ids(kept)[i];
    }
    assert Ids(kept + [c]) == Ids(kept) + [c.id];
  }

  lemma FrontIdsDistinct(before: seq<Candidate>, c: Candidate)
    requires Distinct(Ids(before + [c]))
    ensures Distinct(Ids(before)) && forall i :: 0 <= i < |before| ==> Ids(before)[i] != c.id
  {
    var all := Ids(before + [c]);
    assert all == Ids(before) + [c.id];
    forall i | 0 <= i < |before| ensures Ids(before)[i] != c.id {
      assert all[i] != all[|before|];
    }
    forall i, j | 0 <= i < j < |before| ensures Ids(before)[i] != Ids(before)[j] {
      assert all[i] != all[j];
    }
  }

  lemma WithPriorityCandidates(cs: seq<Candidate>, priority: Candidate -> real)
    ensures CandidatesOf(WithPriority(cs, priority)) == cs && CandidateIds(WithPriority(cs, priority)) == Ids(cs)
  {
  }

  lemma {:induction false} CandidatesPermuted(a: seq<Ranked>, b: seq<Ranked>)
    requires multiset(a) == multiset(b)
    ensures multiset(CandidatesOf(a)) == multiset(CandidatesOf(b))
  {
    if a == [] {
      assert |multiset(b)| == 0;
    } else {
      var j := RemoveFirst(a, b);
      CandidatesPermuted(a[1..], b[..j] + b[j + 1..]);
      assert CandidatesOf(a) == [a[0].candidate] + CandidatesOf(a[1..]);
      assert CandidatesOf(b[..j] + b[j + 1..]) == CandidatesOf(b[..j]) + CandidatesOf(b[j + 1..]);
      assert CandidatesOf(b) == CandidatesOf(b[..j]) + ([b[j].candidate] + CandidatesOf(b[j + 1..]));
    }
  }

  /** Ranking loses and duplicates no standing candidate. */
  lemma RankedListed(exclusions: map<string, Reason>, cs: seq<Candidate>, priority: Candidate -> real)
    ensures multiset(CandidatesOf(RankedOf(exclusions, cs, priority))) == multiset(StandingIn(exclusions, cs))
    ensures forall r :: r in RankedOf(exclusions, cs, priority) <==>
      r.candidate in cs && r.candidate.id !in exclusions && r.priority == priority(r.candidate)
    ensures Distinct(Ids(cs)) ==> Distinct(CandidateIds(RankedOf(exclusions, cs, priority)))
  {
    var standing := StandingIn(exclusions, cs);
    var given := WithPriority(standing, priority);
    var ranked := SortBy(given, ByPriority);
    StandingListed(exclusions, cs);
    WithPriorityCandidates(standing, priority);
    CandidatesPermuted(ranked, given);
    SortByMembers(given, ByPriority);
    forall r
      ensures r in ranked <==> r.candidate in cs && r.candidate.id !in exclusions && r.priority == priority(r.candidate)
    {
      if r.candidate in standing && r.priority == priority(r.candidate) {
        var i :| 0 <= i < |standing| && standing[i] == r.candidate;
        assert given[i] == r;
      }
    }
    CandidateIdsPermuted(ranked, given);
    if Distinct(Ids(cs)) {
      DistinctFromMultiset(CandidateIds(given), CandidateIds(ranked));
    }
  }

  lemma {:induction false} InArmListed(arms: string -> Arm, arm: Arm, rs: seq<Ranked>)
    ensures forall r :: r in InArm(arms, arm, rs) <==> r in rs && arms(Unit(r.candidate)) == arm
    ensures Distinct(CandidateIds(rs)) ==> Distinct(CandidateIds(InArm(arms, arm, rs)))
  {
    if rs != [] {
      var before, r := rs[..|rs| - 1], rs[|rs| - 1];
      assert rs == before + [r];
      InArmListed(arms, arm, before);
      if Distinct(CandidateIds(rs)) {
        var all, kept := CandidateIds(rs), InArm(arms, arm, before);
        assert all == CandidateIds(before) + [r.candidate.id];
        DistinctParts(CandidateIds(before), [r.candidate.id]);
        forall i | 0 <= i < |kept| ensures CandidateIds(kept)[i] != r.candidate.id {
          assert kept[i] in before;
          var j :| 0 <= j < |before| && before[j] == kept[i];
          assert CandidateIds(before)[j] in CandidateIds(before);
        }
        assert r.candidate.id !in AsSet(CandidateIds(kept));
        DistinctAppend(CandidateIds(kept), r.candidate.id);
        assert CandidateIds(kept + [r]) == CandidateIds(kept) + [r.candidate.id];
      }
    }
  }

  // ---------------------------------------------------------------- one run of the decision stages

  /** What the allocation is asked to do. Arm assignment and priorities are arbitrary functions. */
  datatype Plan = Plan(
    arms: string -> Arm, priority: Candidate -> real, threshold: real, budget: nat, config: Selection.Config)

  ghost predicate Excludes(w: World, cs: seq<Candidate>, exclusions: map<string, Reason>) {
    && exclusions.Keys <= AsSet(Ids(cs))
    && forall c :: c in cs ==> Lookup(exclusions, c.id) == Exclusion(w, cs, c)
  }

  // The state after RANK.
  ghost predicate Ready(w: World, plan: Plan, cs: seq<Candidate>, exclusions: map<string, Reason>,
                        ranked: seq<Ranked>) {
    && Sane(w) && cs == AllCandidates(w) && Excludes(w, cs, exclusions)
    && ranked == RankedOf(exclusions, cs, plan.priority)
  }

  lemma ReadyRanked(w: World, plan: Plan, cs: seq<Candidate>, exclusions: map<string, Reason>, ranked: seq<Ranked>)
    requires Ready(w, plan, cs, exclusions, ranked)
    ensures Distinct(CandidateIds(ranked))
    ensures forall r :: r in ranked ==>
      r.candidate in cs && r.candidate.id !in exclusions && Exclusion(w, cs, r.candidate).None?
  {
    CandidateIdsDistinct(w);
    RankedListed(exclusions, cs, plan.priority);
    forall r | r in ranked ensures Exclusion(w, cs, r.candidate).None? {
      assert Lookup(exclusions, r.candidate.id) == Exclusion(w, cs, r.candidate);
    }
  }

  lemma EngineWellFormed(w: World, plan: Plan, cs: seq<Candidate>, exclusions: map<string, Reason>, ranked: seq<Ranked>)
    requires Ready(w, plan, cs, exclusions, ranked)
    ensures WellFormed(InArm(plan.arms, Engine, ranked)) && ClearUsers(InArm(plan.arms, Engine, ranked))
  {
    ReadyRanked(w, plan, cs, exclusions, ranked);
    CandidateIdsDistinct(w);
    InArmListed(plan.arms, Engine, ranked);
    ItemsDistinct(InArm(plan.arms, Engine, ranked));
  }

  // No user is named like a group key.
  ghost predicate ClearUsers(rs: seq<Ranked>) {
    forall r :: r in rs ==> !("group:" <= r.candidate.user)
  }

  /** Everything ALLOCATE leaves behind, with the engine's choice and the index it used as witnesses. */
  datatype Outcome = Outcome(
    result: AllocationResult, extra: seq<Decision>, enginePicks: seq<Pick>, naivePicks: seq<Pick>,
    ids: seq<string>, chosen: seq<Items.Item>, byId: map<string, Ranked>)

  ghost predicate EngineDone(engine: seq<Ranked>, plan: Plan, eps: real, result: AllocationResult, picks: seq<Pick>,
                             ids: seq<string>, chosen: seq<Items.Item>, byId: map<string, Ranked>) {
    && plan.config.costScale >= 1 && Selection.Allocated(engine, plan.budget, plan.config, eps, result, ids, chosen)
    && PicksBy(engine, result.decisions, picks, byId)
  }

  ghost predicate AllocatesEngine(plan: Plan, eps: real, ranked: seq<Ranked>, o: Outcome) {
    EngineDone(InArm(plan.arms, Engine, ranked), plan, eps, o.result, o.enginePicks, o.ids, o.chosen, o.byId)
  }

  /** The allocator's run over the engine's list, and the picks read off its decisions. */
  method AllocateEngine(engine: seq<Ranked>, plan: Plan, eps: real) returns (result: AllocationResult, picks: seq<Pick>)
    requires WellFormed(engine) && plan.config.costScale >= 1 && eps >= 0.0
    ensures exists ids, chosen, byId :: EngineDone(engine, plan, eps, result, picks, ids, chosen, byId)
  {
    result := Selection.Allocate(engine, plan.budget, plan.config, eps);
    ghost var ids, chosen :| Selection.Allocated(engine, plan.budget, plan.config, eps, result, ids, chosen);
    Selection.OneDecisionEach(engine, ids, chosen, result.decisions);
    picks := PickAll(engine, result.decisions);
    ghost var byId :| PicksBy(engine, result.decisions, picks, byId);
    assert EngineDone(engine, plan, eps, result, picks, ids, chosen, byId);
  }

  ghost predicate RunsBaseline(w: World, plan: Plan, cs: seq<Candidate>, exclusions: map<string, Reason>,
                               ranked: seq<Ranked>, o: Outcome) {
    var users := Baseline.SortedUsers(plan.arms, cs);
    && o.extra == ExcludedExtras(plan.arms, exclusions, cs) + HoldoutExtras(InArm(plan.arms, Control, ranked))
        + (Baseline.GroupExtras(plan.arms, cs) + Baseline.ExtrasOf(w, plan.arms, plan.threshold, cs, users))
    && o.naivePicks == Baseline.PicksOf(w, plan.arms, plan.threshold, cs, users)
  }

  /** A finished ALLOCATE stage. */
  ghost predicate Finished(w: World, plan: Plan, eps: real, cs: seq<Candidate>, exclusions: map<string, Reason>,
                           ranked: seq<Ranked>, o: Outcome) {
    && Ready(w, plan, cs, exclusions, ranked) && AllocatesEngine(plan, eps, ranked, o)
    && RunsBaseline(w, plan, cs, exclusions, ranked, o)
  }

  // What a run reports are the parts of some finished stage.
  ghost predicate ArmsRun(w: World, plan: Plan, eps: real, cs: seq<Candidate>, exclusions: map<string, Reason>,
                          ranked: seq<Ranked>, result: AllocationResult, extra: seq<Decision>, enginePicks: seq<Pick>,
                          naivePicks: seq<Pick>)
  {
    exists o :: Finished(w, plan, eps, cs, exclusions, ranked, o) && Reports(o, result, extra, enginePicks, naivePicks)
  }

  ghost predicate Reports(o: Outcome, result: AllocationResult, extra: seq<Decision>, enginePicks: seq<Pick>,
                          naivePicks: seq<Pick>) {
    result == o.result && extra == o.extra && enginePicks == o.enginePicks && naivePicks == o.naivePicks
  }

  lemma ArmsDone(w: World, plan: Plan, eps: real, cs: seq<Candidate>, exclusions: map<string, Reason>,
                 ranked: seq<Ranked>, result: AllocationResult, extra: seq<Decision>, enginePicks: seq<Pick>,
                 naivePicks: seq<Pick>)
    requires Ready(w, plan, cs, exclusions, ranked)
    requires exists ids, chosen, byId ::
      EngineDone(InArm(plan.arms, Engine, ranked), plan, eps, result, enginePicks, ids, chosen, byId)
    requires var users := Baseline.SortedUsers(plan.arms, cs);
      && extra == ExcludedExtras(plan.arms, exclusions, cs) + HoldoutExtras(InArm(plan.arms, Control, ranked))
          + (Baseline.GroupExtras(plan.arms, cs) + Baseline.ExtrasOf(w, plan.arms, plan.threshold, cs, users))
      && naivePicks == Baseline.PicksOf(w, plan.arms, plan.threshold, cs, users)
    ensures ArmsRun(w, plan, eps, cs, exclusions, ranked, result, extra, enginePicks, naivePicks)
  {
    var ids, chosen, byId :|
      EngineDone(InArm(plan.arms, Engine, ranked), plan, eps, result, enginePicks, ids, chosen, byId);
    var o := Outcome(result, extra, enginePicks, naivePicks, ids, chosen, byId);
    assert AllocatesEngine(plan, eps, ranked, o) && RunsBaseline(w, plan, cs, exclusions, ranked, o);
    assert Finished(w, plan, eps, cs, exclusions, ranked, o) && Reports(o, result, extra, enginePicks, naivePicks);
  }

  /** The arms one after the other: exclusions, holdouts, the engine, the baseline. */
  method AllocateArms(w: World, plan: Plan, eps: real, cs: seq<Candidate>, exclusions: map<string, Reason>,
                      ranked: seq<Ranked>)
    returns (result: AllocationResult, extra: seq<Decision>, enginePicks: seq<Pick>, naivePicks: seq<Pick>)
    requires Ready(w, plan, cs, exclusions, ranked) && plan.config.costScale >= 1 && eps >= 0.0
    ensures ArmsRun(w, plan, eps, cs, exclusions, ranked, result, extra, enginePicks, naivePicks)
  {
    var excluded := ExcludeStanding(plan.arms, exclusions, cs);
    var engine, heldOut := SplitArms(plan.arms, ranked);
    EngineWellFormed(w, plan, cs, exclusions, ranked);
    result, enginePicks := AllocateEngine(engine, plan, eps);
    var baselineExtra;
    baselineExtra, naivePicks := Baseline.NaiveArm(w, plan.arms, plan.threshold, cs);
    extra := excluded + heldOut + baselineExtra;
    ArmsDone(w, plan, eps, cs, exclusions, ranked, result, extra, enginePicks, naivePicks);
  }

  class Run {
    var candidates: seq<Candidate>
    var exclusions: map<string, Reason>
    var ranked: seq<Ranked>
    var picks: seq<Pick>

    constructor ()
      ensures candidates == [] && exclusions == map[] && ranked == [] && picks == []
    {
      candidates, exclusions, ranked, picks := [], map[], [], [];
    }

    method Policy(w: World)
      requires Sane(w) && candidates == [] && exclusions == map[]
      modifies this`candidates, this`exclusions
      ensures candidates == AllCandidates(w) && Excludes(w, candidates, exclusions)
    {
      CandidateIdsDistinct(w);
      candidates := BuildCandidates(w);
      exclusions := Exclude(w, candidates);
    }

    method Rank(priority: Candidate -> real)
      modifies this`ranked
      ensures ranked == RankedOf(exclusions, candidates, priority)
    {
      var allowed := [];
      for n := 0 to |candidates|
        invariant allowed == StandingIn(exclusions, candidates[..n])
      {
        assert candidates[..n + 1][..n] == candidates[..n];
        if candidates[n].id !in exclusions {
          allowed := allowed + [candidates[n]];
        }
      }
      assert candidates[..|candidates|] == candidates;
      ranked := SortBy(WithPriority(allowed, priority), ByPriority);
    }

    method Allocate(w: World, plan: Plan, eps: real) returns (result: AllocationResult, extra: seq<Decision>)
      requires Ready(w, plan, candidates, exclusions, ranked) && plan.config.costScale >= 1 && eps >= 0.0
      modifies this`picks
      ensures exists e, n ::
        ArmsRun(w, plan, eps, candidates, exclusions, ranked, result, extra, e, n) && picks == old(picks) + e + n
    {
      var enginePicks, naivePicks;
      result, extra, enginePicks, naivePicks := AllocateArms(w, plan, eps, candidates, exclusions, ranked);
      picks := picks + enginePicks + naivePicks;
    }
  }

  // ---------------------------------------------------------------- every candidate has exactly one fate

  lemma {:induction false} ExcludedIds(arms: string -> Arm, exclusions: map<string, Reason>, cs: seq<Candidate>,
                                       p: Candidate -> bool)
    requires forall c :: c in cs ==> (p(c) <==> c.id in exclusions && arms(Unit(c)) != Naive)
    ensures multiset(DecisionIds(ExcludedExtras(arms, exclusions, cs))) == IdsWhere(cs, p)
  {
    if cs != [] {
      var before, c := cs[..|cs| - 1], cs[|cs| - 1];
      assert c in cs;
      ExcludedIds(arms, exclusions, before, p);
      if c.id in exclusions {
        ExtraIdsOne(ExcludedExtras(arms, exclusions, before), Extra(c, exclusions[c.id], 0.0));
      }
    }
  }

  lemma {:induction false} HoldoutIds(rs: seq<Ranked>)
    ensures DecisionIds(HoldoutExtras(rs)) == CandidateIds(rs)
  {
    if rs != [] {
      HoldoutIds(rs[..|rs| - 1]);
      assert CandidateIds(rs) == CandidateIds(rs[..|rs| - 1]) + [rs[|rs| - 1].candidate.id];
    }
  }

  lemma {:induction false} InArmIds(arms: string -> Arm, arm: Arm, rs: seq<Ranked>, p: Candidate -> bool)
    requires forall r :: r in rs ==> (p(r.candidate) <==> arms(Unit(r.candidate)) == arm)
    ensures multiset(CandidateIds(InArm(arms, arm, rs))) == IdsWhere(CandidatesOf(rs), p)
  {
    if rs != [] {
      var before, r := rs[..|rs| - 1], rs[|rs| - 1];
      assert r in rs;
      InArmIds(arms, arm, before, p);
      assert CandidatesOf(rs) == CandidatesOf(before) + [r.candidate];
      IdsWhereOne(CandidatesOf(before), r.candidate, p);
      CandidateIdsOne(InArm(arms, arm, before), r);
    }
  }

  lemma {:induction false} StandingIds(exclusions: map<string, Reason>, cs: seq<Candidate>, p: Candidate -> bool,
                                       q: Candidate -> bool)
    requires forall c :: c in cs ==> (q(c) <==> c.id !in exclusions && p(c))
    ensures IdsWhere(StandingIn(exclusions, cs), p) == IdsWhere(cs, q)
  {
    if cs != [] {
      var before, c := cs[..|cs| - 1], cs[|cs| - 1];
      assert c in cs;
      StandingIds(exclusions, before, p, q);
      IdsWhereOne(StandingIn(exclusions, before), c, p);
    }
  }

  // The ranked candidates of one arm are the standing candidates of that arm.
  lemma ArmIds(w: World, plan: Plan, cs: seq<Candidate>, exclusions: map<string, Reason>, ranked: seq<Ranked>, arm: Arm,
               q: Candidate -> bool)
    requires Ready(w, plan, cs, exclusions, ranked)
    requires forall c :: c in cs ==> (q(c) <==> c.id !in exclusions && plan.arms(Unit(c)) == arm)
    ensures multiset(CandidateIds(InArm(plan.arms, arm, ranked))) == IdsWhere(cs, q)
  {
    var p := (c: Candidate) => plan.arms(Unit(c)) == arm;
    InArmIds(plan.arms, arm, ranked, p);
    RankedListed(exclusions, cs, plan.priority);
    IdsWherePermuted(CandidatesOf(ranked), StandingIn(exclusions, cs), p);
    StandingIds(exclusions, cs, p, q);
  }

  /** The four kinds of candidates: excluded, baseline, held out, and allocated. */
  lemma FourKinds(arms: string -> Arm, exclusions: map<string, Reason>, cs: seq<Candidate>, a: Candidate -> bool,
                  b: Candidate -> bool, c: Candidate -> bool, d: Candidate -> bool)
    requires forall x :: x in cs ==>
      && (a(x) <==> x.id in exclusions && arms(Unit(x)) != Naive) && (b(x) <==> arms(Unit(x)) == Naive)
      && (c(x) <==> x.id !in exclusions && arms(Unit(x)) == Control)
      && (d(x) <==> x.id !in exclusions && arms(Unit(x)) == Engine)
    ensures multiset(Ids(cs)) == IdsWhere(cs, a) + IdsWhere(cs, b) + IdsWhere(cs, c) + IdsWhere(cs, d)
  {
    var everyone := (x: Candidate) => true;
    var notNaive := (x: Candidate) => arms(Unit(x)) != Naive;
    var standing := (x: Candidate) => x.id !in exclusions && arms(Unit(x)) != Naive;
    assert forall x :: x in cs ==> TakenApart(b(x), notNaive(x), a(x), standing(x), c(x), d(x));
    FourParts(cs, everyone, b, notNaive, a, standing, c, d);
  }

  // Everyone is b or the rest, the rest is a or standing, and who is standing is c or d.
  ghost predicate TakenApart(b: bool, rest: bool, a: bool, standing: bool, c: bool, d: bool) {
    (b <==> !rest) && (rest <==> a || standing) && !(a && standing) && (standing <==> c || d) && !(c && d)
  }

  lemma FourParts(cs: seq<Candidate>, everyone: Candidate -> bool, b: Candidate -> bool, rest: Candidate -> bool,
                  a: Candidate -> bool, standing: Candidate -> bool, c: Candidate -> bool, d: Candidate -> bool)
    requires forall x :: x in cs ==> everyone(x) && TakenApart(b(x), rest(x), a(x), standing(x), c(x), d(x))
    ensures multiset(Ids(cs)) == IdsWhere(cs, a) + IdsWhere(cs, b) + IdsWhere(cs, c) + IdsWhere(cs, d)
  {
    IdsWhereAll(cs, everyone);
    IdsWhereSplit(cs, everyone, b, rest);
    IdsWhereSplit(cs, rest, a, standing);
    IdsWhereSplit(cs, standing, c, d);
  }

  // How the candidates of each kind end up.
  lemma KindsEndUp(w: World, plan: Plan, eps: real, cs: seq<Candidate>, exclusions: map<string, Reason>,
                   ranked: seq<Ranked>, o: Outcome, a: Candidate -> bool, c: Candidate -> bool, d: Candidate -> bool)
    requires Ready(w, plan, cs, exclusions, ranked) && AllocatesEngine(plan, eps, ranked, o)
    requires forall x :: x in cs ==>
      && (a(x) <==> x.id in exclusions && plan.arms(Unit(x)) != Naive)
      && (c(x) <==> x.id !in exclusions && plan.arms(Unit(x)) == Control)
      && (d(x) <==> x.id !in exclusions && plan.arms(Unit(x)) == Engine)
    ensures IdsWhere(cs, a) == multiset(DecisionIds(ExcludedExtras(plan.arms, exclusions, cs)))
    ensures IdsWhere(cs, c) == multiset(DecisionIds(HoldoutExtras(InArm(plan.arms, Control, ranked))))
    ensures IdsWhere(cs, d) == multiset(DecisionIds(o.result.decisions))
  {
    ExcludedIds(plan.arms, exclusions, cs, a);
    ArmIds(w, plan, cs, exclusions, ranked, Control, c);
    HoldoutIds(InArm(plan.arms, Control, ranked));
    ArmIds(w, plan, cs, exclusions, ranked, Engine, d);
    EngineWellFormed(w, plan, cs, exclusions, ranked);
    Selection.OneDecisionEach(InArm(plan.arms, Engine, ranked), o.ids, o.chosen, o.result.decisions);
  }

  /**
   Conservation over the whole ALLOCATE stage: every candidate gets exactly one allocator decision, or
   exactly one extra exclusion, or is the offer of exactly one baseline pick, and never two of these.
   */
  lemma CandidatesAccounted(w: World, plan: Plan, eps: real, cs: seq<Candidate>, exclusions: map<string, Reason>,
                            ranked: seq<Ranked>, o: Outcome)
    requires Finished(w, plan, eps, cs, exclusions, ranked, o)
    ensures multiset(Ids(cs)) ==
      multiset(DecisionIds(o.result.decisions)) + multiset(DecisionIds(o.extra)) + multiset(PickIds(o.naivePicks))
    ensures Distinct(Ids(cs))
  {
    var a := (x: Candidate) => x.id in exclusions && plan.arms(Unit(x)) != Naive;
    var b := (x: Candidate) => plan.arms(Unit(x)) == Naive;
    var c := (x: Candidate) => x.id !in exclusions && plan.arms(Unit(x)) == Control;
    var d := (x: Candidate) => x.id !in exclusions && plan.arms(Unit(x)) == Engine;
    CandidateIdsDistinct(w);
    FourKinds(plan.arms, exclusions, cs, a, b, c, d);
    KindsEndUp(w, plan, eps, cs, exclusions, ranked, o, a, c, d);
    var baseline := BaselineEndsUp(w, plan, cs, exclusions, ranked, o, b);
    SumUp(IdsWhere(cs, a), IdsWhere(cs, c), IdsWhere(cs, d), baseline, multiset(PickIds(o.naivePicks)));
  }

  // The baseline's candidates, and with them the whole list of extra decisions.
  lemma BaselineEndsUp(w: World, plan: Plan, cs: seq<Candidate>, exclusions: map<string, Reason>, ranked: seq<Ranked>,
                       o: Outcome, b: Candidate -> bool) returns (baseline: multiset<string>)
    requires RunsBaseline(w, plan, cs, exclusions, ranked, o)
    requires forall x :: x in cs ==> (b(x) <==> plan.arms(Unit(x)) == Naive)
    ensures IdsWhere(cs, b) == baseline + multiset(PickIds(o.naivePicks))
    ensures multiset(DecisionIds(o.extra)) == multiset(DecisionIds(ExcludedExtras(plan.arms, exclusions, cs)))
      + multiset(DecisionIds(HoldoutExtras(InArm(plan.arms, Control, ranked)))) + baseline
  {
    var users := Baseline.SortedUsers(plan.arms, cs);
    baseline := multiset(DecisionIds(Baseline.GroupExtras(plan.arms, cs)))
      + multiset(DecisionIds(Baseline.ExtrasOf(w, plan.arms, plan.threshold, cs, users)));
    Baseline.BaselineAccounted(w, plan.arms, plan.threshold, cs, b);
    ExtrasTotal(w, plan, cs, exclusions, ranked);
  }

  lemma SumUp(a: multiset<string>, c: multiset<string>, d: multiset<string>, baseline: multiset<string>,
              picks: multiset<string>)
    ensures a + (baseline + picks) + c + d == d + (a + c + baseline) + picks
  {
  }

  lemma ExtrasTotal(w: World, plan: Plan, cs: seq<Candidate>, exclusions: map<string, Reason>, ranked: seq<Ranked>)
    ensures var x, y := ExcludedExtras(plan.arms, exclusions, cs), HoldoutExtras(InArm(plan.arms, Control, ranked));
      var g := Baseline.GroupExtras(plan.arms, cs);
      var u := Baseline.ExtrasOf(w, plan.arms, plan.threshold, cs, Baseline.SortedUsers(plan.arms, cs));
      multiset(DecisionIds(x + y + (g + u))) ==
        multiset(DecisionIds(x)) + multiset(DecisionIds(y)) + (multiset(DecisionIds(g)) + multiset(DecisionIds(u)))
  {
    var x, y := ExcludedExtras(plan.arms, exclusions, cs), HoldoutExtras(InArm(plan.arms, Control, ranked));
    var g := Baseline.GroupExtras(plan.arms, cs);
    var u := Baseline.ExtrasOf(w, plan.arms, plan.threshold, cs, Baseline.SortedUsers(plan.arms, cs));
    ExtraIdsConcat(x + y, g + u);
    ExtraIdsConcat(x, y);
    ExtraIdsConcat(g, u);
  }

  // ---------------------------------------------------------------- orders

  lemma PriorityOrder()
    ensures TotalPreorder(ByPriority)
  {
    StrOrder();
    forall a: Ranked, b: Ranked ensures ByPriority(a, b) || ByPriority(b, a) {
      assert StrLe(a.candidate.id, b.candidate.id) || StrLe(b.candidate.id, a.candidate.id);
    }
    forall a: Ranked, b: Ranked, c: Ranked | ByPriority(a, b) && ByPriority(b, c) ensures ByPriority(a, c) {
      if a.priority == c.priority {
        StrLeTrans(a.candidate.id, b.candidate.id, c.candidate.id);
      }
    }
  }

  /** RANK lists the standing candidates by falling priority, and by id where priorities are equal. */
  lemma RankedOrder(exclusions: map<string, Reason>, cs: seq<Candidate>, priority: Candidate -> real, i: nat, j: nat)
    requires i < j < |RankedOf(exclusions, cs, priority)|
    ensures var a, b := RankedOf(exclusions, cs, priority)[i], RankedOf(exclusions, cs, priority)[j];
      a.priority > b.priority ||
      (a.priority == b.priority && (a.candidate.id == b.candidate.id || StrLt(a.candidate.id, b.candidate.id)))
  {
    PriorityOrder();
    SortBySorted(WithPriority(StandingIn(exclusions, cs), priority), ByPriority);
    var ranked := RankedOf(exclusions, cs, priority);
    assert ByPriority(ranked[i], ranked[j]);
  }
}
