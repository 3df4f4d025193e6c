/**
 The claim protocol of one pipeline run: any number of workers, crashes, stale reclaim and a retry
 budget. Each step is one atomic repository call on the row.
 */
module RunProtocol {
  import opened Contracts
  import opened RunTable
  import opened Text

  datatype Config = Config(staleSeconds: int, maxRetries: int) {
    // How often a run can be claimed.
    function Cap(): nat {
      if maxRetries > 1 then maxRetries else 1
    }
  }

  // A live execution: the claim it works under, when that claim was made, and the stage writes it may still do.
  datatype Exec = Exec(claim: nat, since: int, writesLeft: nat)

  datatype State = State(row: Row, execs: seq<Exec>, now: int)

  // One pipeline pass writes at most eleven PENDING, eleven RUNNING and eleven result records.
  const MAX_WRITES: nat := 33

  datatype Step =
    | Tick(to: int)
    | Claim
    | Write(who: nat, stage: string, status: StageStatus)
    | Succeed(who: nat)
    | Fail(who: nat, error: Option<string>)
    | Crash(who: nat)
    | Reclaim

  function Without(execs: seq<Exec>, i: nat): seq<Exec>
    requires i < |execs|
  {
    execs[..i] + execs[i + 1..]
  }

  predicate Enabled(cfg: Config, s: State, step: Step) {
    match step
    case Tick(to) => s.now <= to
    case Claim => s.row.status == Queued
    case Write(who, _, _) => who < |s.execs| && s.execs[who].writesLeft > 0
    case Succeed(who) => who < |s.execs|
    case Fail(who, _) => who < |s.execs|
    case Crash(who) => who < |s.execs|
    case Reclaim => IsStale(s.row, s.now, cfg.staleSeconds)
  }

  function Next(cfg: Config, s: State, step: Step): State
    requires Enabled(cfg, s, step)
  {
    match step
    case Tick(to) => s.(now := to)
    case Claim =>
      var row := Claimed(s.row, s.now);
      s.(row := row, execs := s.execs + [Exec(row.attempts, s.now, MAX_WRITES)])
    case Write(who, stage, status) =>
      var e := s.execs[who];
      s.(row := Staged(s.row, stage, status, s.now), execs := s.execs[who := e.(writesLeft := e.writesLeft - 1)])
    case Succeed(who) => s.(row := Finished(s.row, s.now, true, None), execs := Without(s.execs, who))
    case Fail(who, error) => s.(row := Requeued(s.row, s.now, cfg.maxRetries, error), execs := Without(s.execs, who))
    case Crash(who) => s.(execs := Without(s.execs, who))
    case Reclaim => s.(row := Reclaimed(s.row, s.now, cfg.maxRetries))
  }

  function Start(tenant: string, now: int): State {
    State(NewRow(tenant, now), [], now)
  }

  /** The steps are taken one after the other from s and end in t. */
  predicate Run(cfg: Config, s: State, steps: seq<Step>, t: State)
    decreases steps
  {
    if steps == [] then s == t
    else Enabled(cfg, s, steps[0]) && Run(cfg, Next(cfg, s, steps[0]), steps[1..], t)
  }

  function Claims(steps: seq<Step>): nat {
    if steps == [] then 0 else (if steps[0].Claim? then 1 else 0) + Claims(steps[1..])
  }

  // Everything but the passing of time.
  function Actions(steps: seq<Step>): nat {
    if steps == [] then 0 else (if steps[0].Tick? then 0 else 1) + Actions(steps[1..])
  }

  // ---------------------------------------------------------------- the retry bound, under any interleaving

  ghost predicate Bounded(cfg: Config, s: State) {
    && s.row.attempts <= cfg.Cap()
    && (s.row.status == Queued ==> s.row.attempts < cfg.Cap())
    && forall e :: e in s.execs ==> e.writesLeft <= MAX_WRITES
  }

  lemma StepKeepsBound(cfg: Config, s: State, step: Step)
    requires Bounded(cfg, s) && Enabled(cfg, s, step)
    ensures Bounded(cfg, Next(cfg, s, step))
    ensures Next(cfg, s, step).row.attempts == s.row.attempts + if step.Claim? then 1 else 0
  {
  }

  /** In every run `attempts` counts the claims, never exceeds the cap, and a queued run is below it. */
  lemma {:induction false} RetryBound(cfg: Config, s: State, steps: seq<Step>, t: State)
    requires Bounded(cfg, s) && Run(cfg, s, steps, t)
    ensures Bounded(cfg, t)
    ensures t.row.attempts == s.row.attempts + Claims(steps)
    decreases steps
  {
    if steps != [] {
      StepKeepsBound(cfg, s, steps[0]);
      RetryBound(cfg, Next(cfg, s, steps[0]), steps[1..], t);
    }
  }

  lemma StartBounded(cfg: Config, tenant: string, now: int)
    ensures Bounded(cfg, Start(tenant, now)) && Start(tenant, now).row.attempts == 0
  {
  }

  // ---------------------------------------------------------------- termination, under any interleaving

  // The repository calls the live executions may still make.
  ghost function CallsLeft(execs: seq<Exec>): nat {
    if execs == [] then 0 else execs[0].writesLeft + 1 + CallsLeft(execs[1..])
  }

  /** Strictly decreases on every action: remaining claims, remaining calls, and the RUNNING flag. */
  ghost function Measure(cfg: Config, s: State): int {
    70 * (cfg.Cap() - s.row.attempts) + 2 * CallsLeft(s.execs) + if s.row.status == Running then 1 else 0
  }

  lemma {:induction false} CallsSplit(a: seq<Exec>, b: seq<Exec>)
    ensures CallsLeft(a + b) == CallsLeft(a) + CallsLeft(b)
  {
    if a == [] {
      assert a + b == b;
    } else {
      assert (a + b)[1..] == a[1..] + b;
      CallsSplit(a[1..], b);
    }
  }

  lemma CallsOf(execs: seq<Exec>, i: nat)
    requires i < |execs|
    ensures CallsLeft(execs) == CallsLeft(Without(execs, i)) + execs[i].writesLeft + 1
    ensures forall e: Exec :: CallsLeft(execs[i := e]) == CallsLeft(Without(execs, i)) + e.writesLeft + 1
  {
    var a, b := execs[..i], execs[i + 1..];
    CallsSplit(a, b);
    forall e: Exec ensures CallsLeft(execs[i := e]) == CallsLeft(a + b) + e.writesLeft + 1 {
      assert execs[i := e] == a + ([e] + b);
      CallsSplit(a, [e] + b);
      CallsSplit([e], b);
    }
    assert execs[i := execs[i]] == execs;
  }

  lemma StepDecreases(cfg: Config, s: State, step: Step)
    requires Bounded(cfg, s) && Enabled(cfg, s, step)
    ensures step.Tick? ==> Measure(cfg, Next(cfg, s, step)) == Measure(cfg, s)
    ensures !step.Tick? ==> Measure(cfg, Next(cfg, s, step)) < Measure(cfg, s)
  {
    match step {
      case Tick(_) =>
      case Claim => CallsSplit(s.execs, [Exec(s.row.attempts + 1, s.now, MAX_WRITES)]);
      case Write(who, _, _) => CallsOf(s.execs, who);
      case Succeed(who) => CallsOf(s.execs, who);
      case Fail(who, _) => CallsOf(s.execs, who);
      case Crash(who) => CallsOf(s.execs, who);
      case Reclaim =>
    }
  }

  /** No run can go on acting for ever: the number of actions is bounded by the measure. */
  lemma {:induction false} ActionsBounded(cfg: Config, s: State, steps: seq<Step>, t: State)
    requires Bounded(cfg, s) && Run(cfg, s, steps, t)
    ensures Actions(steps) + Measure(cfg, t) <= Measure(cfg, s)
    ensures Measure(cfg, t) >= 0
    decreases steps
  {
    if steps != [] {
      StepKeepsBound(cfg, s, steps[0]);
      StepDecreases(cfg, s, steps[0]);
      ActionsBounded(cfg, Next(cfg, s, steps[0]), steps[1..], t);
    }
  }

  /** From its creation, a run takes at most 70 actions for each claim it may have. */
  lemma WholeRunBounded(cfg: Config, tenant: string, now: int, steps: seq<Step>, t: State)
    requires Run(cfg, Start(tenant, now), steps, t)
    ensures Actions(steps) <= 70 * cfg.Cap()
    ensures t.row.attempts == Claims(steps) <= cfg.Cap()
    ensures t.row.status == Queued ==> Claims(steps) < cfg.Cap()
  {
    StartBounded(cfg, tenant, now);
    RetryBound(cfg, Start(tenant, now), steps, t);
    ActionsBounded(cfg, Start(tenant, now), steps, t);
  }

  // ---------------------------------------------------------------- progress, under any interleaving

  // A running row knows since when; nothing but a claim or a stage write makes it running.
  ghost predicate Dated(s: State) {
    s.row.status == Running ==> s.row.startedAt.Some?
  }

  lemma {:induction false} DatedKept(cfg: Config, s: State, steps: seq<Step>, t: State)
    requires Dated(s) && Run(cfg, s, steps, t)
    ensures Dated(t)
    decreases steps
  {
    if steps != [] {
      DatedKept(cfg, Next(cfg, s, steps[0]), steps[1..], t);
    }
  }

  /** Some call is possible, now or once time has passed. */
  ghost predicate CanAct(cfg: Config, s: State) {
    exists to, step: Step :: ActsAt(cfg, s, to, step)
  }

  ghost predicate ActsAt(cfg: Config, s: State, to: int, step: Step) {
    s.now <= to && !step.Tick? && Enabled(cfg, s.(now := to), step)
  }

  /** A run never gets stuck: nothing more can happen exactly when the row is terminal and no execution is alive. */
  lemma NeverStuck(cfg: Config, s: State)
    requires Dated(s)
    ensures CanAct(cfg, s) <==> !Terminal(s.row) || s.execs != []
  {
    if s.execs != [] {
      assert ActsAt(cfg, s, s.now, Crash(0));
    } else if s.row.status == Queued {
      assert ActsAt(cfg, s, s.now, Claim);
    } else if s.row.status == Running {
      var late := s.row.startedAt.value + cfg.staleSeconds + 1;
      assert ActsAt(cfg, s, if late > s.now then late else s.now, Reclaim);
    }
  }

  lemma {:induction false} RunsOn(cfg: Config, s: State, to: int, step: Step, steps: seq<Step>, t: State)
    requires ActsAt(cfg, s, to, step) && Run(cfg, Next(cfg, s.(now := to), step), steps, t)
    ensures Run(cfg, s, [Tick(to), step] + steps, t)
  {
    var all := [Tick(to), step] + steps;
    assert all[1..] == [step] + steps && all[1..][1..] == steps;
    assert Next(cfg, s, Tick(to)) == s.(now := to);
    assert Run(cfg, s.(now := to), all[1..], t);
  }

  /** Whatever has happened to it, a run can still be brought to a terminal row with no execution alive. */
  lemma {:induction false} CanFinish(cfg: Config, s: State) returns (steps: seq<Step>, t: State)
    requires Bounded(cfg, s) && Dated(s)
    ensures Run(cfg, s, steps, t) && Terminal(t.row) && t.execs == []
    decreases Measure(cfg, s)
  {
    NeverStuck(cfg, s);
    if Terminal(s.row) && s.execs == [] {
      steps, t := [], s;
    } else {
      var to, step :| ActsAt(cfg, s, to, step);
      var later := s.(now := to);
      ActionsBounded(cfg, s, [], s);
      StepKeepsBound(cfg, later, step);
      StepDecreases(cfg, later, step);
      ActionsBounded(cfg, Next(cfg, later, step), [], Next(cfg, later, step));
      var rest;
      rest, t := CanFinish(cfg, Next(cfg, later, step));
      RunsOn(cfg, s, to, step, rest, t);
      steps := [Tick(to), step] + rest;
    }
  }

  /** Every run of a new row can only end in SUCCEEDED or FAILED, and from every state on the way it can end. */
  lemma EndsTerminal(cfg: Config, tenant: string, now: int, steps: seq<Step>, s: State)
    requires Run(cfg, Start(tenant, now), steps, s)
    ensures !CanAct(cfg, s) <==> Terminal(s.row) && s.execs == []
    ensures exists more, t :: Run(cfg, s, more, t) && !CanAct(cfg, t)
  {
    StartBounded(cfg, tenant, now);
    RetryBound(cfg, Start(tenant, now), steps, s);
    DatedKept(cfg, Start(tenant, now), steps, s);
    NeverStuck(cfg, s);
    var more, t := CanFinish(cfg, s);
    DatedKept(cfg, s, more, t);
    NeverStuck(cfg, t);
    assert Run(cfg, s, more, t);
  }

  // ---------------------------------------------------------------- what the row records, under any interleaving

  /** A run that ended says when; one that succeeded has no error; one never claimed has no record of anything. */
  ghost predicate Recorded(s: State) {
    && (Terminal(s.row) ==> s.row.finishedAt.Some? && s.row.finishedAt.value <= s.now)
    && (s.row.status == Succeeded ==> s.row.error == None)
    && (s.row.startedAt.Some? ==> s.row.startedAt.value <= s.now)
    && (s.row.attempts == 0 ==> s.row.startedAt == None && s.execs == [] && s.row.status == Queued)
    && (s.row.attempts == 0 ==> s.row.error == None && s.row.finishedAt == None)
  }

  /** Whatever step ends a run stamps it with the time of that step, and a claim stamps the start. */
  lemma StepStamps(cfg: Config, s: State, step: Step)
    requires Recorded(s) && Enabled(cfg, s, step)
    ensures var after := Next(cfg, s, step);
      && Recorded(after) && after.row.tenant == s.row.tenant && after.row.createdAt == s.row.createdAt
      && (Terminal(after.row) && !Terminal(s.row) ==> after.row.finishedAt == Some(s.now))
      && (step.Claim? ==> after.row.startedAt == Some(s.now) && after.row.status == Running)
      && (step.Succeed? ==> after.row.status == Succeeded)
      && (step.Fail? ==> after.row.error == step.error)
      && (step.Reclaim? && after.row.status == Failed ==> after.row.error == Some(Abandoned(s.row.attempts)))
      && (step.Reclaim? && after.row.status != Failed ==> after.row == s.row.(status := Queued))
  {
  }

  lemma {:induction false} RunRecorded(cfg: Config, s: State, steps: seq<Step>, t: State)
    requires Recorded(s) && Run(cfg, s, steps, t)
    ensures Recorded(t) && t.row.tenant == s.row.tenant && t.row.createdAt == s.row.createdAt
    decreases steps
  {
    if steps != [] {
      StepStamps(cfg, s, steps[0]);
      RunRecorded(cfg, Next(cfg, s, steps[0]), steps[1..], t);
    }
  }

  /** In every timely run the finishing time is set exactly while the row is terminal. */
  lemma {:induction false} FinishedExactly(cfg: Config, s: State, steps: seq<Step>, t: State)
    requires Owned(s) && TimelyRun(cfg, s, steps, t)
    requires Terminal(s.row) <==> s.row.finishedAt.Some?
    ensures Terminal(t.row) <==> t.row.finishedAt.Some?
    decreases steps
  {
    if steps != [] {
      StepKeepsOwner(cfg, s, steps[0]);
      FinishedExactly(cfg, Next(cfg, s, steps[0]), steps[1..], t);
    }
  }

  /** The reason of an abandoned run spells out the number of attempts. */
  lemma AbandonedSpells(attempts: nat)
    ensures Abandoned(attempts) == "abandoned after " + Digits(attempts) + " attempt(s); no worker finished the run"
    ensures NumberOf(Digits(attempts)) == attempts
  {
    DigitsSpell(attempts);
  }

  // ---------------------------------------------------------------- exclusive ownership

  // No live execution has outlived the stale window.
  ghost predicate Timely(cfg: Config, s: State) {
    forall e :: e in s.execs ==> s.now - e.since <= cfg.staleSeconds
  }

  /** Like Run, with no execution outliving the stale window in any state on the way. */
  ghost predicate TimelyRun(cfg: Config, s: State, steps: seq<Step>, t: State)
    decreases steps
  {
    Timely(cfg, s) &&
    if steps == [] then s == t
    else Enabled(cfg, s, steps[0]) && TimelyRun(cfg, Next(cfg, s, steps[0]), steps[1..], t)
  }

  /** At most one live execution, and then the row is RUNNING under exactly its claim. */
  ghost predicate Owned(s: State) {
    && |s.execs| <= 1
    && (s.execs != [] ==>
          && s.row.status == Running
          && s.row.attempts == s.execs[0].claim
          && s.row.startedAt == Some(s.execs[0].since))
  }

  predicate Terminal(r: Row) {
    r.status == Succeeded || r.status == Failed
  }

  lemma StepKeepsOwner(cfg: Config, s: State, step: Step)
    requires Owned(s) && Timely(cfg, s) && Enabled(cfg, s, step)
    ensures Owned(Next(cfg, s, step))
    ensures Terminal(s.row) ==> Next(cfg, s, step).row == s.row
  {
    if s.execs != [] {
      assert s.execs[0] in s.execs;
    }
  }

  /** In every timely run the row has one owner at most, and a terminal row is never changed again. */
  lemma {:induction false} ExclusiveOwnership(cfg: Config, s: State, steps: seq<Step>, t: State)
    requires Owned(s) && TimelyRun(cfg, s, steps, t)
    ensures Owned(t)
    ensures Terminal(s.row) ==> t.row == s.row
    decreases steps
  {
    if steps != [] {
      StepKeepsOwner(cfg, s, steps[0]);
      ExclusiveOwnership(cfg, Next(cfg, s, steps[0]), steps[1..], t);
    }
  }

  // ---------------------------------------------------------------- exactly when the promise holds

  /** No single step can break the ownership. */
  ghost predicate StepsKeepOwner(cfg: Config, s: State) {
    forall step :: Enabled(cfg, s, step) ==> Owned(Next(cfg, s, step))
  }

  /** Ownership is safe from the next step exactly while no live execution has outlived the stale window. */
  lemma OwnerSafeExactly(cfg: Config, s: State)
    requires Owned(s)
    ensures StepsKeepOwner(cfg, s) <==> Timely(cfg, s)
  {
    if Timely(cfg, s) {
      forall step | Enabled(cfg, s, step) ensures Owned(Next(cfg, s, step)) {
        StepKeepsOwner(cfg, s, step);
      }
    } else {
      var e :| e in s.execs && s.now - e.since > cfg.staleSeconds;
      assert e == s.execs[0];
      assert Enabled(cfg, s, Reclaim) && !Owned(Next(cfg, s, Reclaim));
    }
  }

  /**
   A second execution can start beside the live one exactly when that one has outlived the stale window
   and the retry budget is not spent.
   */
  lemma DoublesExactly(cfg: Config, s: State)
    requires Owned(s) && s.execs != []
    ensures (Enabled(cfg, s, Reclaim) && Enabled(cfg, Next(cfg, s, Reclaim), Claim)) <==>
      !Timely(cfg, s) && s.row.attempts < cfg.maxRetries
    ensures Enabled(cfg, s, Reclaim) && Enabled(cfg, Next(cfg, s, Reclaim), Claim) ==>
      |Next(cfg, Next(cfg, s, Reclaim), Claim).execs| == 2
  {
    assert s.execs[0] in s.execs;
  }

  /** In every state on the way, no step whatever could break the ownership. */
  ghost predicate SafeRun(cfg: Config, s: State, steps: seq<Step>, t: State)
    decreases steps
  {
    StepsKeepOwner(cfg, s) &&
    if steps == [] then s == t
    else Enabled(cfg, s, steps[0]) && SafeRun(cfg, Next(cfg, s, steps[0]), steps[1..], t)
  }

  /** Over whole runs: ownership is safe all the way exactly when no execution outlives the window on the way. */
  lemma {:induction false} SafeExactlyWhenTimely(cfg: Config, s: State, steps: seq<Step>, t: State)
    requires Owned(s) && Run(cfg, s, steps, t)
    ensures SafeRun(cfg, s, steps, t) <==> TimelyRun(cfg, s, steps, t)
    decreases steps
  {
    OwnerSafeExactly(cfg, s);
    if steps != [] && Timely(cfg, s) {
      assert Owned(Next(cfg, s, steps[0]));
      SafeExactlyWhenTimely(cfg, Next(cfg, s, steps[0]), steps[1..], t);
    }
  }

  /** Whatever the timing, a terminal row can be changed exactly when some execution is still alive. */
  lemma TerminalCanChange(cfg: Config, s: State)
    requires Terminal(s.row)
    ensures (exists step :: Enabled(cfg, s, step) && Next(cfg, s, step).row.status != s.row.status) <==> s.execs != []
  {
    if s.execs != [] {
      var step := if s.row.status == Failed then Succeed(0) else Fail(0, None);
      assert Enabled(cfg, s, step) && Next(cfg, s, step).row.status != s.row.status;
    }
  }

  lemma {:induction false} OneMoreStep(cfg: Config, s: State, steps: seq<Step>, t: State, step: Step)
    requires Run(cfg, s, steps, t) && Enabled(cfg, t, step)
    ensures Run(cfg, s, steps + [step], Next(cfg, t, step))
    decreases steps
  {
    if steps == [] {
      assert [step][1..] == [];
    } else {
      assert (steps + [step])[1..] == steps[1..] + [step];
      OneMoreStep(cfg, Next(cfg, s, steps[0]), steps[1..], t, step);
    }
  }

  /**
   Without the timing assumption the promise fails. An execution that outlives the window loses its
   row to a second claim, and both run at once.
   */
  lemma LateExecutionDoubles(tenant: string) returns (cfg: Config, steps: seq<Step>, both: State)
    ensures Run(cfg, Start(tenant, 0), steps, both)
    ensures cfg == Config(120, 3) && |both.execs| == 2 && both.row.status == Running && both.row.attempts == 2
  {
    cfg := Config(120, 3);
    var s0 := Start(tenant, 0);
    OneMoreStep(cfg, s0, [], s0, Claim);
    var s1 := Next(cfg, s0, Claim);
    OneMoreStep(cfg, s0, [Claim], s1, Tick(121));
    var s2 := Next(cfg, s1, Tick(121));
    OneMoreStep(cfg, s0, [Claim] + [Tick(121)], s2, Reclaim);
    var s3 := Next(cfg, s2, Reclaim);
    OneMoreStep(cfg, s0, [Claim] + [Tick(121)] + [Reclaim], s3, Claim);
    both := Next(cfg, s3, Claim);
    steps := [Claim] + [Tick(121)] + [Reclaim] + [Claim];
  }

  /** From there the second execution succeeds, and the late failure of the first reopens the run. */
  lemma LateFailureReopens(tenant: string) returns (cfg: Config, steps: seq<Step>, done: State)
    ensures Run(cfg, Start(tenant, 0), steps, done) && done.row.status == Succeeded
    ensures Enabled(cfg, done, Fail(0, None)) && Next(cfg, done, Fail(0, None)).row.status == Queued
  {
    var both;
    cfg, steps, both := LateExecutionDoubles(tenant);
    OneMoreStep(cfg, Start(tenant, 0), steps, both, Succeed(1));
    steps, done := steps + [Succeed(1)], Next(cfg, both, Succeed(1));
  }
}
