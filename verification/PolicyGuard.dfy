/** The hard rules a candidate must pass, and the verdict over all of them. */
module PolicyGuard {
  import opened Contracts

  datatype RuleCode = ResponsibleLending | FrequencyCap | NoCreditDecision | SegmentRule

  datatype RuleResult = RuleResult(code: RuleCode, allowed: bool)

  // Times are in seconds.
  const DAY := 86400

  datatype UserFacts = UserFacts(now: int, lateAt: seq<int>, contactedAt: seq<int>)

  datatype PolicyConfig = PolicyConfig(
    lookbackDays: int, minLate: int, maxContacts: Option<int>, windowDays: Option<int>, applySegmentRule: bool)

  datatype PolicyDecision = PolicyDecision(candidateId: string, user: string, allowed: bool, results: seq<RuleResult>)

  // How many of the times lie in the closed window.
  function CountWithin(times: seq<int>, since: int, now: int): nat {
    if times == [] then 0
    else CountWithin(times[..|times| - 1], since, now) + if since <= times[|times| - 1] <= now then 1 else 0
  }

  function LendingRule(c: Candidate, facts: UserFacts, lookbackDays: int, minLate: int): RuleResult {
    if !c.encouragesBorrowing then RuleResult(ResponsibleLending, true) else
    var late := CountWithin(facts.lateAt, facts.now - lookbackDays * DAY, facts.now);
    RuleResult(ResponsibleLending, late < minLate)
  }

  /** Fails closed when the cap is not configured. */
  function CapRule(facts: UserFacts, maxContacts: Option<int>, windowDays: Option<int>): RuleResult {
    if maxContacts.None? || windowDays.None? then RuleResult(FrequencyCap, false) else
    var contacts := CountWithin(facts.contactedAt, facts.now - windowDays.value * DAY, facts.now);
    RuleResult(FrequencyCap, contacts < maxContacts.value)
  }

  function CreditRule(c: Candidate): RuleResult {
    RuleResult(NoCreditDecision, !c.changesCreditTerms)
  }

  function ExcludedSegment(c: Candidate): RuleResult {
    RuleResult(SegmentRule, c.segment !in {SureThing, LostCause, SleepingDog})
  }

  /** Every rule runs and every denial is reported; one denial denies. */
  function Evaluate(c: Candidate, facts: UserFacts, config: PolicyConfig): PolicyDecision {
    var hard := [
      LendingRule(c, facts, config.lookbackDays, config.minLate),
      CapRule(facts, config.maxContacts, config.windowDays),
      CreditRule(c)];
    var results := if config.applySegmentRule then hard + [ExcludedSegment(c)] else hard;
    PolicyDecision(c.id, c.user, forall r :: r in results ==> r.allowed, results)
  }

  // The codes of the rules that deny, in rule order.
  function Denials(results: seq<RuleResult>): seq<RuleCode> {
    if results == [] then []
    else if results[0].allowed then Denials(results[1..])
    else [results[0].code] + Denials(results[1..])
  }

  function Hard(codes: seq<RuleCode>): seq<RuleCode> {
    if codes == [] then []
    else if codes[0] == SegmentRule then Hard(codes[1..])
    else [codes[0]] + Hard(codes[1..])
  }

  function ReasonOf(code: RuleCode, segment: Segment): Reason {
    match code
    case ResponsibleLending => PolicyResponsibleLending
    case FrequencyCap => PolicyFrequencyCap
    case NoCreditDecision => PolicyNoCreditDecision
    case SegmentRule => Reason.SegmentExcluded(segment)
  }

  /** The first hard denial; the segment only when no hard rule denied. */
  function ExclusionFor(d: PolicyDecision, segment: Segment): Reason {
    var hard := Hard(Denials(d.results));
    if hard != [] then ReasonOf(hard[0], segment) else Reason.SegmentExcluded(segment)
  }

  // ---------------------------------------------------------------- what the rules guarantee

  // The positions of the times inside the window.
  ghost function Inside(times: seq<int>, since: int, now: int): set<int> {
    set i | 0 <= i < |times| && since <= times[i] <= now
  }

  lemma {:induction false} CountIsInside(times: seq<int>, since: int, now: int)
    ensures CountWithin(times, since, now) == |Inside(times, since, now)|
  {
    if times != [] {
      var n := |times| - 1;
      CountIsInside(times[..n], since, now);
      assert Inside(times, since, now) ==
        Inside(times[..n], since, now) + if since <= times[n] <= now then {n} else {};
    }
  }

  // Too many recent late repayments for an offer to borrow.
  ghost predicate Overindebted(c: Candidate, facts: UserFacts, config: PolicyConfig) {
    c.encouragesBorrowing && |Inside(facts.lateAt, facts.now - config.lookbackDays * DAY, facts.now)| >= config.minLate
  }

  // No cap is configured, or the user has been contacted too often.
  ghost predicate Capped(facts: UserFacts, config: PolicyConfig) {
    || config.maxContacts.None? || config.windowDays.None?
    || |Inside(facts.contactedAt, facts.now - config.windowDays.value * DAY, facts.now)| >= config.maxContacts.value
  }

  ghost predicate PassesHardRules(c: Candidate, facts: UserFacts, config: PolicyConfig) {
    !Overindebted(c, facts, config) && !Capped(facts, config) && !c.changesCreditTerms
  }

  /** A candidate is allowed exactly when it passes the three hard rules and, where it applies, the segment rule. */
  lemma AllowedExactly(c: Candidate, facts: UserFacts, config: PolicyConfig)
    ensures Evaluate(c, facts, config).allowed <==>
      PassesHardRules(c, facts, config) && (config.applySegmentRule ==> c.segment == Persuadable)
  {
    CountIsInside(facts.lateAt, facts.now - config.lookbackDays * DAY, facts.now);
    if config.windowDays.Some? {
      CountIsInside(facts.contactedAt, facts.now - config.windowDays.value * DAY, facts.now);
    }
    var results := Evaluate(c, facts, config).results;
    assert results[0] in results && results[1] in results && results[2] in results;
    assert config.applySegmentRule ==> results[3] in results;
    assert Evaluate(c, facts, config).allowed <==>
      results[0].allowed && results[1].allowed && results[2].allowed
      && (config.applySegmentRule ==> results[3].allowed);
  }

  lemma HardStep(r: RuleResult, rest: seq<RuleResult>)
    ensures Hard(Denials([r] + rest)) ==
      if r.allowed || r.code == SegmentRule then Hard(Denials(rest)) else [r.code] + Hard(Denials(rest))
  {
    assert ([r] + rest)[1..] == rest;
    assert ([r.code] + Denials(rest))[1..] == Denials(rest);
  }

  lemma FirstOfThree(a: RuleResult, b: RuleResult, c: RuleResult, rest: seq<RuleResult>)
    requires a.code != SegmentRule && b.code != SegmentRule && c.code != SegmentRule && Hard(Denials(rest)) == []
    ensures var hard := Hard(Denials([a] + ([b] + ([c] + rest))));
      if !a.allowed then hard != [] && hard[0] == a.code
      else if !b.allowed then hard != [] && hard[0] == b.code
      else if !c.allowed then hard != [] && hard[0] == c.code
      else hard == []
  {
    HardStep(a, [b] + ([c] + rest));
    HardStep(b, [c] + rest);
    HardStep(c, rest);
  }

  /** The recorded reason names a rule that truly denied, and the segment only if every hard rule passed. */
  lemma ReasonIsTrue(c: Candidate, facts: UserFacts, config: PolicyConfig)
    requires !Evaluate(c, facts, config).allowed
    ensures match ExclusionFor(Evaluate(c, facts, config), c.segment)
      case PolicyResponsibleLending => Overindebted(c, facts, config)
      case PolicyFrequencyCap => !Overindebted(c, facts, config) && Capped(facts, config)
      case PolicyNoCreditDecision => !Overindebted(c, facts, config) && !Capped(facts, config) && c.changesCreditTerms
      case SegmentExcluded(s) =>
        s == c.segment && s != Persuadable && config.applySegmentRule && PassesHardRules(c, facts, config)
      case _ => false
  {
    CountIsInside(facts.lateAt, facts.now - config.lookbackDays * DAY, facts.now);
    if config.windowDays.Some? {
      CountIsInside(facts.contactedAt, facts.now - config.windowDays.value * DAY, facts.now);
    }
    AllowedExactly(c, facts, config);
    FirstHard(c, facts, config);
  }

  lemma FirstHard(c: Candidate, facts: UserFacts, config: PolicyConfig)
    ensures var rs := Evaluate(c, facts, config).results;
      ExclusionFor(Evaluate(c, facts, config), c.segment) ==
        if !rs[0].allowed then PolicyResponsibleLending
        else if !rs[1].allowed then PolicyFrequencyCap
        else if !rs[2].allowed then PolicyNoCreditDecision
        else Reason.SegmentExcluded(c.segment)
  {
    var rs := Evaluate(c, facts, config).results;
    var rest := rs[3..];
    assert rest != [] ==> rest == [rs[3]] + [];
    if rest != [] {
      HardStep(rs[3], []);
    }
    assert rs == [rs[0]] + ([rs[1]] + ([rs[2]] + rest));
    FirstOfThree(rs[0], rs[1], rs[2], rest);
  }
}
