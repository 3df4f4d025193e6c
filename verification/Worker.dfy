/** The worker's side of the claim protocol: stage records of one pass, its outcome, and one poll. */
module Worker {
  import opened Contracts
  import opened RunTable
  import opened RunProtocol

  datatype StageResult = Ok | Skip | Raised(error: string)

  // Index of the first stage that raises, or the number of stages.
  function FirstFailure(stages: seq<string>, result: string -> StageResult, n: nat): (k: nat)
    requires n <= |stages|
    ensures n <= k <= |stages|
    ensures forall i :: n <= i < k ==> !result(stages[i]).Raised?
    ensures k < |stages| ==> result(stages[k]).Raised?
    decreases |stages| - n
  {
    if n == |stages| || result(stages[n]).Raised? then n else FirstFailure(stages, result, n + 1)
  }

  function Recorded(r: StageResult): StageStatus {
    match r
    case Ok => Done
    case Skip => Skipped
    case Raised(_) => Broken
  }

  // The record of every stage once the first n have run; the rest are still pending.
  ghost predicate RecordedUpTo(stages: seq<string>, result: string -> StageResult, n: nat, m: map<string, StageStatus>)
    requires n <= |stages|
  {
    && (forall i :: 0 <= i < |stages| ==> stages[i] in m)
    && (forall i :: 0 <= i < n ==> m[stages[i]] == Recorded(result(stages[i])))
    && (forall i :: n <= i < |stages| ==> m[stages[i]] == Pending)
  }

  ghost predicate Different(stages: seq<string>) {
    forall i, j :: 0 <= i < j < |stages| ==> stages[i] != stages[j]
  }

  lemma StagesDiffer()
    ensures |STAGES| == 11 && Different(STAGES)
  {
    assert STAGES[0] == "INGEST" && STAGES[1] == "FEEDBACK" && STAGES[2] == "EXTERNAL" && STAGES[3] == "GRAPH"
      && STAGES[4] == "RISK" && STAGES[5] == "IMPACT" && STAGES[6] == "POLICY" && STAGES[7] == "RANK"
      && STAGES[8] == "ALLOCATE" && STAGES[9] == "EXPLAIN" && STAGES[10] == "PERSIST";
  }

  // ---------------------------------------------------------------- the stage records of one pass

  // One record: a stage and its new status.
  datatype StageWrite = StageWrite(stage: string, status: StageStatus)

  // How a pass ends. An exception outside every stage, such as a failing record, ends it too.
  datatype Pass = AllDone | StageFailed(error: string) | Crashed(error: string)

  // The exception strikes in place of the record with this index.
  datatype Crash = Crash(at: nat, error: string)

  // How many stages are started.
  ghost function Ran(stages: seq<string>, result: string -> StageResult): nat {
    var k := FirstFailure(stages, result, 0);
    if k < |stages| then k + 1 else k
  }

  /** All records of a pass without a crash: every stage PENDING, then RUNNING and the result for each stage started. */
  ghost function Writes(stages: seq<string>, result: string -> StageResult): (ws: seq<StageWrite>)
    ensures |ws| == |stages| + 2 * Ran(stages, result)
  {
    seq(|stages|, i requires 0 <= i < |stages| => StageWrite(stages[i], Pending)) +
    seq(2 * Ran(stages, result), i requires 0 <= i < 2 * Ran(stages, result) =>
      StageWrite(stages[i / 2], if i % 2 == 0 then InProgress else Recorded(result(stages[i / 2]))))
  }

  /** The records that are made before a crash. */
  ghost function Made(ws: seq<StageWrite>, crash: Option<Crash>): seq<StageWrite> {
    if crash.Some? && crash.value.at < |ws| then ws[..crash.value.at] else ws
  }

  ghost predicate Crashes(ws: seq<StageWrite>, crash: Option<Crash>) {
    crash.Some? && crash.value.at < |ws|
  }

  // How a pass ends when nothing happens outside its stages.
  ghost function StagesEnd(stages: seq<string>, result: string -> StageResult): Pass {
    var k := FirstFailure(stages, result, 0);
    if k < |stages| then StageFailed(stages[k] + ": " + result(stages[k]).error) else AllDone
  }

  ghost function PassEnd(stages: seq<string>, result: string -> StageResult, crash: Option<Crash>): Pass {
    if Crashes(Writes(stages, result), crash) then Crashed(crash.value.error) else StagesEnd(stages, result)
  }

  // The two records of the n-th stage started.
  ghost predicate StageAt(stages: seq<string>, result: string -> StageResult, ws: seq<StageWrite>, n: nat)
    requires n < |stages|
  {
    && |stages| + 2 * n + 1 < |ws| && ws[|stages| + 2 * n] == StageWrite(stages[n], InProgress)
    && ws[|stages| + 2 * n + 1] == StageWrite(stages[n], Recorded(result(stages[n])))
  }

  ghost predicate Shaped(stages: seq<string>, result: string -> StageResult, ws: seq<StageWrite>) {
    && Ran(stages, result) <= |stages| && |ws| == |stages| + 2 * Ran(stages, result)
    && (forall i :: 0 <= i < |stages| ==> ws[i] == StageWrite(stages[i], Pending))
    && (forall n :: 0 <= n < Ran(stages, result) ==> StageAt(stages, result, ws, n))
  }

  lemma WritesShaped(stages: seq<string>, result: string -> StageResult)
    ensures Shaped(stages, result, Writes(stages, result))
  {
    forall n | 0 <= n < Ran(stages, result) ensures StageAt(stages, result, Writes(stages, result), n) {
      assert (2 * n) / 2 == n && (2 * n + 1) / 2 == n;
    }
  }

  ghost function StagedAll(r: Row, ws: seq<StageWrite>, now: int): Row {
    if ws == [] then r else
    var last := ws[|ws| - 1];
    Staged(StagedAll(r, ws[..|ws| - 1], now), last.stage, last.status, now)
  }

  // The table after these records; without such a row nothing changes.
  ghost function AfterWrites(rows: map<nat, Row>, tenant: string, id: nat, ws: seq<StageWrite>,
                             now: int): map<nat, Row> {
    if HasRow(rows, tenant, id) then rows[id := StagedAll(rows[id], ws, now)] else rows
  }

  lemma {:induction false} StagedKeeps(r: Row, ws: seq<StageWrite>, now: int)
    ensures var after := StagedAll(r, ws, now);
      after == if ws != [] && r.status == Queued
        then r.(status := Running, startedAt := Some(now), stages := after.stages)
        else r.(stages := after.stages)
  {
    if ws != [] {
      StagedKeeps(r, ws[..|ws| - 1], now);
    }
  }

  lemma StagedMore(r: Row, ws: seq<StageWrite>, n: nat, now: int)
    requires n < |ws|
    ensures StagedAll(r, ws[..n + 1], now) == Staged(StagedAll(r, ws[..n], now), ws[n].stage, ws[n].status, now)
  {
    assert ws[..n + 1][..n] == ws[..n];
  }

  // The first k records are made.
  ghost predicate Written(after: map<nat, Row>, before: map<nat, Row>, tenant: string, id: nat, ws: seq<StageWrite>,
                          k: nat, now: int) {
    k <= |ws| && after == AfterWrites(before, tenant, id, ws[..k], now)
  }

  predicate StillAhead(crash: Option<Crash>, k: nat) {
    crash.Some? ==> crash.value.at >= k
  }

  lemma OneWritten(before: map<nat, Row>, tenant: string, id: nat, ws: seq<StageWrite>, k: nat, now: int)
    requires k < |ws| && HasRow(before, tenant, id)
    ensures var rows := AfterWrites(before, tenant, id, ws[..k], now);
      && HasRow(rows, tenant, id)
      && rows[id := Staged(rows[id], ws[k].stage, ws[k].status, now)] ==
           AfterWrites(before, tenant, id, ws[..k + 1], now)
  {
    StagedKeeps(before[id], ws[..k], now);
    StagedMore(before[id], ws, k, now);
  }

  /** Makes one record, unless the crash strikes here. */
  method Record(table: Table, tenant: string, id: nat, stage: string, status: StageStatus, crash: Option<Crash>,
                now: int, ghost before: map<nat, Row>, ghost ws: seq<StageWrite>, k: nat)
    returns (crashed: bool)
    requires k < |ws| && ws[k] == StageWrite(stage, status)
    requires Written(table.rows, before, tenant, id, ws, k, now) && StillAhead(crash, k)
    modifies table
    ensures crashed <==> crash.Some? && crash.value.at == k
    ensures Written(table.rows, before, tenant, id, ws, if crashed then k else k + 1, now)
  {
    crashed := crash.Some? && crash.value.at == k;
    if !crashed {
      if HasRow(before, tenant, id) {
        OneWritten(before, tenant, id, ws, k, now);
      }
      var _ := table.UpdateStage(tenant, id, stage, status, now);
    }
  }

  method RecordPending(table: Table, tenant: string, id: nat, stages: seq<string>, crash: Option<Crash>, now: int,
                       ghost before: map<nat, Row>, ghost ws: seq<StageWrite>)
    returns (crashed: bool)
    requires Written(table.rows, before, tenant, id, ws, 0, now) && |stages| <= |ws|
    requires forall i :: 0 <= i < |stages| ==> ws[i] == StageWrite(stages[i], Pending)
    modifies table
    ensures crashed <==> crash.Some? && crash.value.at < |stages|
    ensures Written(table.rows, before, tenant, id, ws, if crashed then crash.value.at else |stages|, now)
  {
    for n := 0 to |stages|
      invariant Written(table.rows, before, tenant, id, ws, n, now) && StillAhead(crash, n)
    {
      crashed := Record(table, tenant, id, stages[n], Pending, crash, now, before, ws, n);
      if crashed {
        return;
      }
    }
    crashed := false;
  }

  /** Runs one stage: a RUNNING record, then the result. */
  method RunStage(table: Table, tenant: string, id: nat, stage: string, result: string -> StageResult,
                  crash: Option<Crash>, now: int, ghost before: map<nat, Row>, ghost ws: seq<StageWrite>, k: nat)
    returns (crashed: bool, outcome: StageResult)
    requires k + 1 < |ws| && ws[k] == StageWrite(stage, InProgress)
    requires ws[k + 1] == StageWrite(stage, Recorded(result(stage)))
    requires Written(table.rows, before, tenant, id, ws, k, now) && StillAhead(crash, k)
    modifies table
    ensures crashed <==> crash.Some? && crash.value.at < k + 2
    ensures Written(table.rows, before, tenant, id, ws, if crashed then crash.value.at else k + 2, now)
    ensures !crashed ==> outcome == result(stage)
  {
    outcome := Ok;
    crashed := Record(table, tenant, id, stage, InProgress, crash, now, before, ws, k);
    if !crashed {
      outcome := result(stage);
      crashed := Record(table, tenant, id, stage, Recorded(outcome), crash, now, before, ws, k + 1);
    }
  }

  method RunEach(table: Table, tenant: string, id: nat, stages: seq<string>, result: string -> StageResult,
                 crash: Option<Crash>, now: int, ghost before: map<nat, Row>, ghost ws: seq<StageWrite>)
    returns (pass: Pass)
    requires Shaped(stages, result, ws)
    requires Written(table.rows, before, tenant, id, ws, |stages|, now) && StillAhead(crash, |stages|)
    modifies table
    ensures pass == if Crashes(ws, crash) then Crashed(crash.value.error) else StagesEnd(stages, result)
    ensures Written(table.rows, before, tenant, id, ws, if Crashes(ws, crash) then crash.value.at else |ws|, now)
  {
    for n := 0 to |stages|
      invariant n <= FirstFailure(stages, result, 0) && |stages| + 2 * n <= |ws|
      invariant Written(table.rows, before, tenant, id, ws, |stages| + 2 * n, now)
      invariant StillAhead(crash, |stages| + 2 * n)
    {
      assert StageAt(stages, result, ws, n);
      var crashed, outcome := RunStage(table, tenant, id, stages[n], result, crash, now, before, ws, |stages| + 2 * n);
      if crashed {
        return Crashed(crash.value.error);
      }
      if outcome.Raised? {
        return StageFailed(stages[n] + ": " + outcome.error);
      }
    }
    return AllDone;
  }

  /** One pass over the stages. It stops after the first stage that raises, or at the crash. */
  method RunStages(table: Table, tenant: string, id: nat, stages: seq<string>, result: string -> StageResult,
                   crash: Option<Crash>, now: int)
    returns (pass: Pass)
    modifies table
    ensures pass == PassEnd(stages, result, crash)
    ensures table.rows == AfterWrites(old(table.rows), tenant, id, Made(Writes(stages, result), crash), now)
  {
    ghost var before, ws := table.rows, Writes(stages, result);
    WritesShaped(stages, result);
    assert ws[..|ws|] == ws;
    var crashed := RecordPending(table, tenant, id, stages, crash, now, before, ws);
    if crashed {
      return Crashed(crash.value.error);
    }
    pass := RunEach(table, tenant, id, stages, result, crash, now, before, ws);
  }

  /** A pass over the eleven stages makes at most MAX_WRITES records, which is what the protocol grants an execution. */
  lemma WritesFit(result: string -> StageResult, crash: Option<Crash>)
    ensures var ws := Made(Writes(STAGES, result), crash);
      |ws| <= MAX_WRITES && (PassEnd(STAGES, result, crash) == AllDone ==> |ws| == MAX_WRITES)
  {
    StagesDiffer();
  }

  lemma {:induction false} PendingWritten(r: Row, stages: seq<string>, ws: seq<StageWrite>, n: nat, now: int)
    requires n <= |stages| <= |ws| && forall i :: 0 <= i < |stages| ==> ws[i] == StageWrite(stages[i], Pending)
    ensures var m := StagedAll(r, ws[..n], now).stages;
      forall i :: 0 <= i < n ==> stages[i] in m && m[stages[i]] == Pending
  {
    if n > 0 {
      PendingWritten(r, stages, ws, n - 1, now);
      StagedMore(r, ws, n - 1, now);
    }
  }

  lemma PendingRecorded(r: Row, stages: seq<string>, result: string -> StageResult, ws: seq<StageWrite>, now: int)
    requires |stages| <= |ws| && forall i :: 0 <= i < |stages| ==> ws[i] == StageWrite(stages[i], Pending)
    ensures RecordedUpTo(stages, result, 0, StagedAll(r, ws[..|stages|], now).stages)
  {
    PendingWritten(r, stages, ws, |stages|, now);
  }

  /** After n stages their results are on record and the rest are still pending. */
  lemma {:induction false} StagesWritten(r: Row, stages: seq<string>, result: string -> StageResult,
                                         ws: seq<StageWrite>, n: nat, k: nat, now: int)
    requires Different(stages) && Shaped(stages, result, ws) && n <= Ran(stages, result) && k == |stages| + 2 * n
    ensures RecordedUpTo(stages, result, n, StagedAll(r, ws[..k], now).stages)
  {
    if n == 0 {
      PendingRecorded(r, stages, result, ws, now);
    } else {
      StagesWritten(r, stages, result, ws, n - 1, k - 2, now);
      StageFollows(r, stages, result, ws, n - 1, k - 2, now);
    }
  }

  lemma StageFollows(r: Row, stages: seq<string>, result: string -> StageResult, ws: seq<StageWrite>, n: nat, k: nat,
                     now: int)
    requires Different(stages) && Shaped(stages, result, ws) && n < Ran(stages, result) && k == |stages| + 2 * n
    requires RecordedUpTo(stages, result, n, StagedAll(r, ws[..k], now).stages)
    ensures k + 2 <= |ws| && RecordedUpTo(stages, result, n + 1, StagedAll(r, ws[..k + 2], now).stages)
  {
    assert StageAt(stages, result, ws, n);
    StageWritten(r, stages, result, ws, n, k, now);
  }

  lemma StageWritten(r: Row, stages: seq<string>, result: string -> StageResult, ws: seq<StageWrite>, n: nat, k: nat,
                     now: int)
    requires Different(stages) && n < |stages| && k + 1 < |ws|
    requires ws[k] == StageWrite(stages[n], InProgress)
    requires ws[k + 1] == StageWrite(stages[n], Recorded(result(stages[n])))
    requires RecordedUpTo(stages, result, n, StagedAll(r, ws[..k], now).stages)
    ensures RecordedUpTo(stages, result, n + 1, StagedAll(r, ws[..k + 2], now).stages)
  {
    TwoWritten(r, ws, k, now);
    ResultRecorded(stages, result, n, StagedAll(r, ws[..k], now).stages);
  }

  lemma TwoWritten(r: Row, ws: seq<StageWrite>, k: nat, now: int)
    requires k + 1 < |ws|
    ensures StagedAll(r, ws[..k + 2], now).stages ==
      StagedAll(r, ws[..k], now).stages[ws[k].stage := ws[k].status][ws[k + 1].stage := ws[k + 1].status]
  {
    StagedMore(r, ws, k, now);
    StagedMore(r, ws, k + 1, now);
  }

  lemma ResultRecorded(stages: seq<string>, result: string -> StageResult, n: nat, m: map<string, StageStatus>)
    requires Different(stages) && n < |stages| && RecordedUpTo(stages, result, n, m)
    ensures RecordedUpTo(stages, result, n + 1, m[stages[n] := InProgress][stages[n] := Recorded(result(stages[n]))])
  {
  }

  /** A pass without a crash leaves the result of every stage started, and the others pending. */
  lemma PassRecorded(r: Row, result: string -> StageResult, now: int)
    ensures RecordedUpTo(STAGES, result, Ran(STAGES, result), StagedAll(r, Writes(STAGES, result), now).stages)
  {
    var ws := Writes(STAGES, result);
    StagesDiffer();
    WritesShaped(STAGES, result);
    StagesWritten(r, STAGES, result, ws, Ran(STAGES, result), |ws|, now);
    assert ws[..|ws|] == ws;
  }

  // ---------------------------------------------------------------- one execution

  /** What an execution does to a row, apart from the stage records. */
  function Executed(r: Row, ok: bool, error: Option<string>, now: int, maxRetries: int): Row {
    if ok then Finished(r, now, true, None) else Requeued(r, now, maxRetries, error)
  }

  function ErrorOf(pass: Pass): Option<string> {
    match pass
    case AllDone => None
    case StageFailed(error) => Some(error)
    case Crashed(error) => Some(error)
  }

  // The row after the stage records of a pass and its outcome.
  ghost function RowAfterRun(r: Row, result: string -> StageResult, crash: Option<Crash>, maxRetries: int,
                             now: int): Row {
    var pass := PassEnd(STAGES, result, crash);
    Executed(StagedAll(r, Made(Writes(STAGES, result), crash), now), pass == AllDone, ErrorOf(pass), now, maxRetries)
  }

  /** One execution: the pass, then its outcome. The row may be in any state, or gone. */
  method ExecuteRun(table: Table, tenant: string, id: nat, result: string -> StageResult, crash: Option<Crash>,
                    maxRetries: int, now: int)
    returns (succeeded: bool)
    modifies table
    ensures succeeded <==> PassEnd(STAGES, result, crash) == AllDone
    ensures table.rows == if HasRow(old(table.rows), tenant, id)
      then old(table.rows)[id := RowAfterRun(old(table.rows)[id], result, crash, maxRetries, now)]
      else old(table.rows)
  {
    var pass := RunStages(table, tenant, id, STAGES, result, crash, now);
    succeeded := pass == AllDone;
    if HasRow(old(table.rows), tenant, id) {
      StagedKeeps(old(table.rows)[id], Made(Writes(STAGES, result), crash), now);
    }
    Conclude(table, tenant, id, pass, maxRetries, now);
  }

  method Conclude(table: Table, tenant: string, id: nat, pass: Pass, maxRetries: int, now: int)
    modifies table
    ensures table.rows == if HasRow(old(table.rows), tenant, id)
      then old(table.rows)[id := Executed(old(table.rows)[id], pass == AllDone, ErrorOf(pass), now, maxRetries)]
      else old(table.rows)
  {
    if pass == AllDone {
      var _ := table.FinishRun(tenant, id, true, None, now);
    } else {
      var _ := table.RequeueOrFail(tenant, id, maxRetries, ErrorOf(pass), now);
    }
  }

  /** A row ends SUCCEEDED exactly when every stage went through, whatever state it was in before. */
  lemma RunOutcome(r: Row, result: string -> StageResult, crash: Option<Crash>, maxRetries: int, now: int)
    ensures var after, ok := RowAfterRun(r, result, crash, maxRetries, now),
        FirstFailure(STAGES, result, 0) == |STAGES| && !Crashes(Writes(STAGES, result), crash);
      && after.attempts == r.attempts && after.tenant == r.tenant && after.createdAt == r.createdAt
      && after.status == (if ok then Succeeded else if r.attempts >= maxRetries then Failed else Queued)
      && (after.error.None? <==> ok)
      && after.finishedAt == (if after.status == Queued then r.finishedAt else Some(now))
      && (r.status != Queued ==> after.startedAt == r.startedAt)
  {
    StagedKeeps(r, Made(Writes(STAGES, result), crash), now);
  }

  /**
   One tenant's share of a poll cycle with no other worker about: stale rows are recovered, then the
   oldest queued run, if any, is claimed and executed.
   */
  method PollTenant(table: Table, tenant: string, result: string -> StageResult, crash: Option<Crash>,
                    staleSeconds: int, maxRetries: int, now: int)
    returns (executed: nat, ghost which: nat)
    modifies table
    ensures executed <= 1 && table.rows.Keys == old(table.rows).Keys
    ensures var ready := ReclaimedRows(old(table.rows), tenant, staleSeconds, maxRetries, now);
      && (executed == 0 ==> table.rows == ready && forall id :: !Free(ready, tenant, {}, id))
      && (executed == 1 ==>
            && Free(ready, tenant, {}, which)
            && (forall other :: Free(ready, tenant, {}, other) ==> ready[which].createdAt <= ready[other].createdAt)
            && table.rows == ready[which := RowAfterRun(Claimed(ready[which], now), result, crash, maxRetries, now)])
  {
    ghost var ready := ReclaimedRows(table.rows, tenant, staleSeconds, maxRetries, now);
    var _ := table.ReclaimStale(tenant, staleSeconds, maxRetries, {}, now);
    assert table.rows == ready;
    var claimed := table.ClaimQueued(tenant, 1, {}, now);
    executed, which := |claimed|, 0;
    ClaimsAtMostOne(ready, table.rows, tenant, claimed, now);
    if executed == 1 {
      which := claimed[0];
      var _ := ExecuteRun(table, tenant, claimed[0], result, crash, maxRetries, now);
    }
  }

  lemma ClaimsAtMostOne(before: map<nat, Row>, after: map<nat, Row>, tenant: string, claimed: seq<nat>, now: int)
    requires |claimed| <= 1 && OldestFirst(before, tenant, {}, claimed) && AfterClaims(before, after, claimed, now)
    ensures claimed == [] ==> after == before
    ensures |claimed| == 1 ==>
      && Free(before, tenant, {}, claimed[0]) && after == before[claimed[0] := Claimed(before[claimed[0]], now)]
      && forall other :: Free(before, tenant, {}, other) ==> before[claimed[0]].createdAt <= before[other].createdAt
  {
    if |claimed| == 1 {
      OnlyClaim(before, after, tenant, claimed, now);
    }
  }

  lemma OnlyClaim(before: map<nat, Row>, after: map<nat, Row>, tenant: string, claimed: seq<nat>, now: int)
    requires |claimed| == 1 && OldestFirst(before, tenant, {}, claimed) && AfterClaims(before, after, claimed, now)
    ensures Free(before, tenant, {}, claimed[0]) && after == before[claimed[0] := Claimed(before[claimed[0]], now)]
    ensures forall other :: Free(before, tenant, {}, other) ==> before[claimed[0]].createdAt <= before[other].createdAt
  {
    assert claimed == [claimed[0]];
    forall other | Free(before, tenant, {}, other) ensures before[claimed[0]].createdAt <= before[other].createdAt {
      assert other in claimed ==> other == claimed[0];
    }
  }

  function AfterReclaim(r: Row, tenant: string, staleSeconds: int, maxRetries: int, now: int): Row {
    if Recoverable(r, tenant, now, staleSeconds) then Reclaimed(r, now, maxRetries) else r
  }

  ghost function ReclaimedRows(rows: map<nat, Row>, tenant: string, staleSeconds: int, maxRetries: int,
                               now: int): map<nat, Row> {
    map id | id in rows :: AfterReclaim(rows[id], tenant, staleSeconds, maxRetries, now)
  }

  // The row after n undisturbed rounds of claim and failure.
  function FailingRounds(r: Row, n: nat, error: Option<string>, now: int, maxRetries: int): Row {
    if n == 0 then r
    else Executed(Claimed(FailingRounds(r, n - 1, error, now, maxRetries), now), false, error, now, maxRetries)
  }

  /** A run whose pipeline always fails is tried exactly Cap() times and then FAILED. */
  lemma {:induction false} AlwaysFailing(tenant: string, n: nat, error: Option<string>, now: int, cfg: Config)
    requires n <= cfg.Cap()
    ensures var r := FailingRounds(NewRow(tenant, now), n, error, now, cfg.maxRetries);
      r.attempts == n && r.status == if n < cfg.Cap() then Queued else Failed
  {
    if n > 0 {
      AlwaysFailing(tenant, n - 1, error, now, cfg);
    }
  }

  // ---------------------------------------------------------------- what a pass and a poll leave on record

  /** A new run has all eleven stages pending and nothing else on record. */
  lemma NewRunIsPending(tenant: string, now: int)
    ensures var r := NewRow(tenant, now);
      && r.tenant == tenant && r.createdAt == now && r.status == Queued && r.attempts == 0
      && r.error == None && r.startedAt == None && r.finishedAt == None
      && |r.stages| == 11 && forall s :: s in r.stages <==> s in STAGES && r.stages[s] == Pending
  {
    StagesDiffer();
    var r := NewRow(tenant, now);
    assert r.stages.Keys == set s | s in STAGES;
    DistinctCount(STAGES);
  }

  lemma {:induction false} DistinctCount(stages: seq<string>)
    requires Different(stages)
    ensures |set s | s in stages| == |stages|
  {
    if stages != [] {
      var rest := stages[1..];
      DistinctCount(rest);
      assert (set s | s in stages) == (set s | s in rest) + {stages[0]};
    }
  }

  /** After an undisturbed pass a stage reads DONE, SKIPPED or FAILED as it went, or PENDING if never reached. */
  lemma StageReports(r: Row, result: string -> StageResult, now: int, i: nat)
    requires i < |STAGES|
    ensures var m := StagedAll(r, Writes(STAGES, result), now).stages;
      STAGES[i] in m && m[STAGES[i]] ==
        if exists k :: 0 <= k < i && result(STAGES[k]).Raised? then Pending
        else match result(STAGES[i]) case Ok => Done case Skip => Skipped case Raised(_) => Broken
  {
    PassRecorded(r, result, now);
    var first := FirstFailure(STAGES, result, 0);
    if k :| 0 <= k < i && result(STAGES[k]).Raised? {
      assert first <= k;
    }
  }

  /** The error on record names the first stage that raised and what it raised, or the exception outside all stages. */
  lemma ErrorTells(result: string -> StageResult, crash: Option<Crash>, k: nat)
    requires k < |STAGES| && result(STAGES[k]).Raised? && forall i :: 0 <= i < k ==> !result(STAGES[i]).Raised?
    ensures !Crashes(Writes(STAGES, result), crash) ==>
      ErrorOf(PassEnd(STAGES, result, crash)) == Some(STAGES[k] + ": " + result(STAGES[k]).error)
    ensures Crashes(Writes(STAGES, result), crash) ==>
      ErrorOf(PassEnd(STAGES, result, crash)) == Some(crash.value.error)
  {
    assert FirstFailure(STAGES, result, 0) == k;
  }
}
