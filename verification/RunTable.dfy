/** The pipeline_runs table and the repository calls on it, each one atomic step. */
module RunTable {
  import opened Contracts
  import opened Text

  datatype Status = Queued | Running | Succeeded | Failed

  datatype StageStatus = Pending | InProgress | Done | Skipped | Broken

  const STAGES: seq<string> := [
    "INGEST", "FEEDBACK", "EXTERNAL", "GRAPH", "RISK", "IMPACT", "POLICY", "RANK", "ALLOCATE", "EXPLAIN", "PERSIST"]

  datatype Row = Row(
    tenant: string, status: Status, attempts: nat, stages: map<string, StageStatus>,
    error: Option<string>, createdAt: int, startedAt: Option<int>, finishedAt: Option<int>)

  // ---------------------------------------------------------------- what each call does to one row

  function NewRow(tenant: string, now: int): Row {
    Row(tenant, Queued, 0, map s | s in STAGES :: Pending, None, now, None, None)
  }

  /** A stage write: also flips a queued row to running. */
  function Staged(r: Row, stage: string, status: StageStatus, now: int): Row {
    var written := r.(stages := r.stages[stage := status]);
    if r.status == Queued then written.(status := Running, startedAt := Some(now)) else written
  }

  function Claimed(r: Row, now: int): Row {
    r.(status := Running, startedAt := Some(now), attempts := r.attempts + 1)
  }

  predicate HasRow(rows: map<nat, Row>, tenant: string, id: nat) {
    id in rows && rows[id].tenant == tenant
  }

  // A queued row of the tenant that no other transaction holds.
  predicate Free(rows: map<nat, Row>, tenant: string, locked: set<nat>, id: nat) {
    id in rows && rows[id].tenant == tenant && rows[id].status == Queued && id !in locked
  }

  /** The claimed rows are free ones, each once, oldest first and none younger than a row left behind. */
  ghost predicate OldestFirst(rows: map<nat, Row>, tenant: string, locked: set<nat>, claimed: seq<nat>) {
    && (forall i :: 0 <= i < |claimed| ==> Free(rows, tenant, locked, claimed[i]))
    && (forall i, j :: 0 <= i < j < |claimed| ==>
          claimed[i] != claimed[j] && rows[claimed[i]].createdAt <= rows[claimed[j]].createdAt)
    && (forall i, other :: 0 <= i < |claimed| && Free(rows, tenant, locked, other) && other !in claimed ==>
          rows[claimed[i]].createdAt <= rows[other].createdAt)
  }

  ghost predicate AfterClaims(before: map<nat, Row>, after: map<nat, Row>, claimed: seq<nat>, now: int) {
    && after.Keys == before.Keys
    && forall id :: id in after ==> after[id] == if id in claimed then Claimed(before[id], now) else before[id]
  }

  /** No row of another tenant and no row held by another transaction is touched, and no row comes or goes. */
  ghost predicate OthersKept(before: map<nat, Row>, after: map<nat, Row>, tenant: string, locked: set<nat>) {
    && after.Keys == before.Keys
    && forall id :: id in before && (before[id].tenant != tenant || id in locked) ==> after[id] == before[id]
  }

  // Claimed rows are no longer free; the others are as before.
  lemma FreeLater(before: map<nat, Row>, rows: map<nat, Row>, tenant: string, locked: set<nat>, claimed: seq<nat>,
                  id: nat, now: int)
    requires AfterClaims(before, rows, claimed, now)
    ensures Free(rows, tenant, locked, id) <==> Free(before, tenant, locked, id) && id !in claimed
    ensures Free(rows, tenant, locked, id) ==> rows[id] == before[id]
  {
  }

  lemma OldestOne(before: map<nat, Row>, tenant: string, locked: set<nat>, claimed: seq<nat>, id: nat)
    requires OldestFirst(before, tenant, locked, claimed) && Free(before, tenant, locked, id) && id !in claimed
    requires forall other :: Free(before, tenant, locked, other) && other !in claimed ==>
      before[id].createdAt <= before[other].createdAt
    ensures OldestFirst(before, tenant, locked, claimed + [id])
  {
    var more := claimed + [id];
    forall i, other | 0 <= i < |more| && Free(before, tenant, locked, other) && other !in more
      ensures before[more[i]].createdAt <= before[other].createdAt
    {
      assert other !in claimed;
    }
  }

  lemma ClaimOne(before: map<nat, Row>, rows: map<nat, Row>, tenant: string, locked: set<nat>, claimed: seq<nat>,
                 id: nat, now: int)
    requires OldestFirst(before, tenant, locked, claimed) && AfterClaims(before, rows, claimed, now)
    requires Free(rows, tenant, locked, id)
    requires forall other :: Free(rows, tenant, locked, other) ==> rows[id].createdAt <= rows[other].createdAt
    ensures OldestFirst(before, tenant, locked, claimed + [id])
    ensures AfterClaims(before, rows[id := Claimed(rows[id], now)], claimed + [id], now)
  {
    FreeLater(before, rows, tenant, locked, claimed, id, now);
    forall other | Free(before, tenant, locked, other) && other !in claimed
      ensures before[id].createdAt <= before[other].createdAt
    {
      FreeLater(before, rows, tenant, locked, claimed, other, now);
    }
    OldestOne(before, tenant, locked, claimed, id);
  }

  predicate IsStale(r: Row, now: int, staleSeconds: int) {
    r.status == Running && r.startedAt.Some? && r.startedAt.value < now - staleSeconds
  }

  predicate Recoverable(r: Row, tenant: string, now: int, staleSeconds: int) {
    r.tenant == tenant && IsStale(r, now, staleSeconds)
  }

  function Abandoned(attempts: nat): string {
    "abandoned after " + Digits(attempts) + " attempt(s); no worker finished the run"
  }

  /** A stale row goes back to the queue, or fails once the retry budget is spent. */
  function Reclaimed(r: Row, now: int, maxRetries: int): Row {
    if r.attempts >= maxRetries
    then r.(status := Failed, error := Some(Abandoned(r.attempts)), finishedAt := Some(now))
    else r.(status := Queued)
  }

  /** The outcome of an unsuccessful run. Neither the owner nor the current status is looked at. */
  function Requeued(r: Row, now: int, maxRetries: int, error: Option<string>): Row {
    if r.attempts >= maxRetries
    then r.(status := Failed, error := error, finishedAt := Some(now))
    else r.(status := Queued, error := error)
  }

  /** The outcome of a finished run. Neither the owner nor the current status is looked at. */
  function Finished(r: Row, now: int, succeeded: bool, error: Option<string>): Row {
    r.(status := if succeeded then Succeeded else Failed, error := error, finishedAt := Some(now))
  }

  // ---------------------------------------------------------------- the calls

  class Table {
    var rows: map<nat, Row>

    constructor ()
      ensures rows == map[]
    {
      rows := map[];
    }

    method CreateRun(id: nat, tenant: string, now: int)
      requires id !in rows
      modifies this
      ensures rows == old(rows)[id := NewRow(tenant, now)]
    {
      rows := rows[id := NewRow(tenant, now)];
    }

    predicate Has(tenant: string, id: nat)
      reads this
    {
      HasRow(rows, tenant, id)
    }

    method UpdateStage(tenant: string, id: nat, stage: string, status: StageStatus, now: int) returns (found: bool)
      modifies this
      ensures found == old(Has(tenant, id))
      ensures rows == if found then old(rows)[id := Staged(old(rows)[id], stage, status, now)] else old(rows)
      ensures OthersKept(old(rows), rows, tenant, {})
    {
      found := Has(tenant, id);
      if found {
        var row := rows[id];
        row := row.(stages := row.stages[stage := status]);
        if row.status == Queued {
          row := row.(status := Running, startedAt := Some(now));
        }
        rows := rows[id := row];
      }
    }

    method RequeueOrFail(tenant: string, id: nat, maxRetries: int, error: Option<string>, now: int)
      returns (found: bool)
      modifies this
      ensures found == old(Has(tenant, id))
      ensures rows == if found then old(rows)[id := Requeued(old(rows)[id], now, maxRetries, error)] else old(rows)
      ensures OthersKept(old(rows), rows, tenant, {})
    {
      found := Has(tenant, id);
      if found {
        if rows[id].attempts >= maxRetries {
          rows := rows[id := rows[id].(status := Failed, error := error, finishedAt := Some(now))];
        } else {
          rows := rows[id := rows[id].(status := Queued, error := error)];
        }
      }
    }

    method FinishRun(tenant: string, id: nat, succeeded: bool, error: Option<string>, now: int) returns (found: bool)
      modifies this
      ensures found == old(Has(tenant, id))
      ensures rows == if found then old(rows)[id := Finished(old(rows)[id], now, succeeded, error)] else old(rows)
      ensures OthersKept(old(rows), rows, tenant, {})
    {
      found := Has(tenant, id);
      if found {
        var status := if succeeded then Succeeded else Failed;
        rows := rows[id := rows[id].(status := status, error := error, finishedAt := Some(now))];
      }
    }

    /** Claims the oldest queued rows that no other transaction holds. */
    method ClaimQueued(tenant: string, limit: nat, locked: set<nat>, now: int) returns (claimed: seq<nat>)
      modifies this
      ensures |claimed| <= limit && OldestFirst(old(rows), tenant, locked, claimed)
      ensures |claimed| < limit ==> forall id :: Free(old(rows), tenant, locked, id) ==> id in claimed
      ensures AfterClaims(old(rows), rows, claimed, now) && OthersKept(old(rows), rows, tenant, locked)
    {
      claimed := [];
      ghost var start := rows;
      while |claimed| < limit && exists id :: id in rows && Free(rows, tenant, locked, id)
        invariant |claimed| <= limit && OldestFirst(start, tenant, locked, claimed)
        invariant AfterClaims(start, rows, claimed, now)
      {
        var id := Oldest(tenant, locked);
        ClaimOne(start, rows, tenant, locked, claimed, id, now);
        claimed := claimed + [id];
        rows := rows[id := Claimed(rows[id], now)];
      }
    }

    method Oldest(tenant: string, locked: set<nat>) returns (id: nat)
      requires exists id :: id in rows && Free(rows, tenant, locked, id)
      ensures Free(rows, tenant, locked, id)
      ensures forall other :: Free(rows, tenant, locked, other) ==> rows[id].createdAt <= rows[other].createdAt
    {
      id :| id in rows && Free(rows, tenant, locked, id);
      var todo := rows.Keys;
      while todo != {}
        invariant todo <= rows.Keys && Free(rows, tenant, locked, id)
        invariant forall other :: Free(rows, tenant, locked, other) && other !in todo ==>
          rows[id].createdAt <= rows[other].createdAt
        decreases todo
      {
        var next :| next in todo;
        todo := todo - {next};
        if Free(rows, tenant, locked, next) && rows[next].createdAt < rows[id].createdAt {
          id := next;
        }
      }
    }

    /** Recovers every stale row of the tenant that no other transaction holds. */
    method ReclaimStale(tenant: string, staleSeconds: int, maxRetries: int, locked: set<nat>, now: int)
      returns (changed: set<nat>)
      modifies this
      ensures changed ==
        set id | id in old(rows) && Recoverable(old(rows)[id], tenant, now, staleSeconds) && id !in locked
      ensures rows.Keys == old(rows).Keys
      ensures forall id :: id in rows ==>
        rows[id] == if id in changed then Reclaimed(old(rows)[id], now, maxRetries) else old(rows)[id]
      ensures OthersKept(old(rows), rows, tenant, locked)
    {
      changed := set id | id in rows && Recoverable(rows[id], tenant, now, staleSeconds) && id !in locked;
      var todo := changed;
      ghost var start := rows;
      while todo != {}
        invariant todo <= changed && rows.Keys == start.Keys
        invariant forall id :: id in rows ==>
          rows[id] == if id in changed - todo then Reclaimed(start[id], now, maxRetries) else start[id]
        decreases todo
      {
        var id :| id in todo;
        todo := todo - {id};
        var row := rows[id];
        if row.attempts >= maxRetries {
          row := row.(status := Failed, error := Some(Abandoned(row.attempts)), finishedAt := Some(now));
        } else {
          row := row.(status := Queued);
        }
        rows := rows[id := row];
      }
    }
  }
}
