/** The recommendation lifecycle: the state machine, the repository calls, and the audit trail they leave. */
module Recommendations {
  import opened Contracts
  import opened Text

  datatype Status = Draft | PendingApproval | Approved | Rejected | Expired | Delivered

  function AllowedTransitions(src: Status): set<Status> {
    match src
    case Draft => {PendingApproval}
    case PendingApproval => {Approved, Rejected, Expired}
    case Approved => {Delivered}
    case Rejected => {}
    case Expired => {}
    case Delivered => {}
  }

  predicate ReviewerRequired(dst: Status) {
    dst == Approved || dst == Rejected || dst == Delivered
  }

  predicate NamesReviewer(reviewer: Option<string>) {
    reviewer.Some? && !Blank(reviewer.value)
  }

  predicate TransitionOk(src: Status, dst: Status, reviewer: Option<string>) {
    dst in AllowedTransitions(src) && (ReviewerRequired(dst) ==> NamesReviewer(reviewer))
  }

  // ---------------------------------------------------------------- rows, audit trail, calls

  datatype Rec = Rec(
    tenant: string, run: string, user: Option<string>, circle: Option<string>,
    status: Status, reviewedBy: Option<string>, note: Option<string>, deliveryRef: Option<string>)

  datatype Action = WasApproved | WasRejected | WasDelivered

  datatype AuditRow = AuditRow(
    tenant: string, actor: string, action: Action, entity: nat, status: Status, note: Option<string>)

  datatype State = State(rows: map<nat, Rec>, audit: seq<AuditRow>)

  datatype Call =
    | Create(id: nat, tenant: string, run: string, user: Option<string>, circle: Option<string>)
    | Approve(tenant: string, id: nat, reviewer: string, note: Option<string>)
    | Reject(tenant: string, id: nat, reviewer: string, note: Option<string>)
    | Deliver(tenant: string, id: nat, deliveryRef: Option<string>, actor: string)

  datatype Result = Done | NotFound | IllegalTransition | ConstraintViolated

  predicate Live(r: Rec) {
    r.status == Approved || r.status == Delivered
  }

  // The subject test of the sibling query; a missing value equals nothing.
  predicate SameSubject(row: Rec, other: Rec) {
    if row.circle.Some? then other.circle == row.circle else row.user.Some? && other.user == row.user
  }

  predicate IsSibling(rows: map<nat, Rec>, id: nat, other: nat)
    requires id in rows && other in rows
  {
    && other != id && rows[other].tenant == rows[id].tenant && rows[other].run == rows[id].run
    && SameSubject(rows[id], rows[other])
  }

  predicate HasLiveSibling(rows: map<nat, Rec>, id: nat)
    requires id in rows
  {
    exists other :: other in rows && IsSibling(rows, id, other) && Live(rows[other])
  }

  predicate Owns(s: State, tenant: string, id: nat) {
    id in s.rows && s.rows[id].tenant == tenant
  }

  function Log(s: State, id: nat, row: Rec, actor: string, action: Action, note: Option<string>): State {
    State(s.rows[id := row], s.audit + [AuditRow(row.tenant, actor, action, id, row.status, note)])
  }

  /** One call as one serialised transaction: the new state and the answer. A refused call changes nothing. */
  function Apply(s: State, call: Call): (State, Result) {
    match call
    case Create(id, tenant, run, user, circle) =>
      if id in s.rows || (user.Some? <==> circle.Some?) then (s, ConstraintViolated)
      else (s.(rows := s.rows[id := Rec(tenant, run, user, circle, PendingApproval, None, None, None)]), Done)
    case Approve(tenant, id, reviewer, note) =>
      if !Owns(s, tenant, id) then (s, NotFound)
      else if !TransitionOk(s.rows[id].status, Approved, Some(reviewer)) || HasLiveSibling(s.rows, id)
      then (s, IllegalTransition)
      else (Log(s, id, s.rows[id].(status := Approved, reviewedBy := Some(reviewer), note := note), reviewer,
        WasApproved, note), Done)
    case Reject(tenant, id, reviewer, note) =>
      if !Owns(s, tenant, id) then (s, NotFound)
      else if !TransitionOk(s.rows[id].status, Rejected, Some(reviewer)) then (s, IllegalTransition)
      else (Log(s, id, s.rows[id].(status := Rejected, reviewedBy := Some(reviewer), note := note), reviewer,
        WasRejected, note), Done)
    case Deliver(tenant, id, deliveryRef, actor) =>
      if !Owns(s, tenant, id) then (s, NotFound)
      else if !TransitionOk(s.rows[id].status, Delivered, s.rows[id].reviewedBy) then (s, IllegalTransition)
      else (Log(s, id, s.rows[id].(status := Delivered, deliveryRef := deliveryRef), actor, WasDelivered, deliveryRef),
        Done)
  }

  // ---------------------------------------------------------------- the repository

  class Repository {
    var rows: map<nat, Rec>
    var audit: seq<AuditRow>

    function Now(): State
      reads this
    {
      State(rows, audit)
    }

    constructor ()
      ensures Now() == State(map[], [])
    {
      rows, audit := map[], [];
    }

    method CreatePending(id: nat, tenant: string, run: string, user: Option<string>, circle: Option<string>)
      returns (r: Result)
      modifies this
      ensures (Now(), r) == Apply(old(Now()), Create(id, tenant, run, user, circle))
    {
      if id in rows || (user.Some? && circle.Some?) || (user.None? && circle.None?) {
        return ConstraintViolated;
      }
      rows := rows[id := Rec(tenant, run, user, circle, PendingApproval, None, None, None)];
      r := Done;
    }

    method Append(id: nat, actor: string, action: Action, note: Option<string>)
      requires id in rows
      modifies this`audit
      ensures audit == old(audit) + [AuditRow(rows[id].tenant, actor, action, id, rows[id].status, note)]
    {
      audit := audit + [AuditRow(rows[id].tenant, actor, action, id, rows[id].status, note)];
    }

    method ApproveRec(tenant: string, id: nat, reviewer: string, note: Option<string>) returns (r: Result)
      modifies this
      ensures (Now(), r) == Apply(old(Now()), Approve(tenant, id, reviewer, note))
    {
      if id !in rows || rows[id].tenant != tenant {
        return NotFound;
      }
      var row := rows[id];
      if !TransitionOk(row.status, Approved, Some(reviewer)) {
        return IllegalTransition;
      }
      if exists other :: other in rows && IsSibling(rows, id, other) && Live(rows[other]) {
        return IllegalTransition;
      }
      rows := rows[id := row.(status := Approved, reviewedBy := Some(reviewer), note := note)];
      Append(id, reviewer, WasApproved, note);
      r := Done;
    }

    method RejectRec(tenant: string, id: nat, reviewer: string, note: Option<string>) returns (r: Result)
      modifies this
      ensures (Now(), r) == Apply(old(Now()), Reject(tenant, id, reviewer, note))
    {
      if id !in rows || rows[id].tenant != tenant {
        return NotFound;
      }
      var row := rows[id];
      if !TransitionOk(row.status, Rejected, Some(reviewer)) {
        return IllegalTransition;
      }
      rows := rows[id := row.(status := Rejected, reviewedBy := Some(reviewer), note := note)];
      Append(id, reviewer, WasRejected, note);
      r := Done;
    }

    method MarkDelivered(tenant: string, id: nat, deliveryRef: Option<string>, actor: string) returns (r: Result)
      modifies this
      ensures (Now(), r) == Apply(old(Now()), Deliver(tenant, id, deliveryRef, actor))
    {
      if id !in rows || rows[id].tenant != tenant {
        return NotFound;
      }
      var row := rows[id];
      if !TransitionOk(row.status, Delivered, row.reviewedBy) {
        return IllegalTransition;
      }
      rows := rows[id := row.(status := Delivered, deliveryRef := deliveryRef)];
      Append(id, actor, WasDelivered, deliveryRef);
      r := Done;
    }
  }

  // ---------------------------------------------------------------- whole histories

  function History(calls: seq<Call>): State {
    if calls == [] then State(map[], [])
    else Apply(History(calls[..|calls| - 1]), calls[|calls| - 1]).0
  }

  /** The audit rows of one recommendation, oldest first. */
  function Trail(audit: seq<AuditRow>, id: nat): seq<AuditRow> {
    if audit == [] then [] else
    var before := Trail(audit[..|audit| - 1], id);
    var last := audit[|audit| - 1];
    if last.entity == id then before + [last] else before
  }

  function ActionStatus(a: Action): Status {
    match a
    case WasApproved => Approved
    case WasRejected => Rejected
    case WasDelivered => Delivered
  }

  /** Replays a trail from PENDING_APPROVAL; None when some row could not have followed its predecessor. */
  function Replay(trail: seq<AuditRow>): Option<Status> {
    if trail == [] then Some(PendingApproval) else
    var before := Replay(trail[..|trail| - 1]);
    var next := ActionStatus(trail[|trail| - 1].action);
    if before.Some? && next in AllowedTransitions(before.value) then Some(next) else None
  }

  // Exactly one of user and circle is set, as the table's CHECK constraint demands.
  predicate OneSubject(r: Rec) {
    r.user.Some? != r.circle.Some?
  }

  /** A row is fully accounted for by its trail. */
  ghost predicate Explained(r: Rec, trail: seq<AuditRow>) {
    && OneSubject(r)
    && Replay(trail) == Some(r.status)
    && (trail == [] ==> r.reviewedBy == None && r.note == None)
    && (trail != [] ==> NamesReviewer(r.reviewedBy) && trail[0].actor == r.reviewedBy.value && r.note == trail[0].note)
    && r.deliveryRef == (if |trail| >= 2 then trail[1].note else None)
    && forall a :: a in trail ==> a.tenant == r.tenant && a.status == ActionStatus(a.action)
  }

  ghost predicate RowExplained(s: State, id: nat) {
    id in s.rows ==> Explained(s.rows[id], Trail(s.audit, id))
  }

  ghost predicate BothLive(s: State, a: nat, b: nat) {
    a in s.rows && b in s.rows && IsSibling(s.rows, a, b) && Live(s.rows[a]) && Live(s.rows[b])
  }

  ghost predicate Consistent(s: State) {
    && (forall id :: RowExplained(s, id))
    && (forall a :: a in s.audit ==> a.entity in s.rows)
    && (forall a, b :: !BothLive(s, a, b))
  }

  lemma TrailOne(audit: seq<AuditRow>, row: AuditRow, id: nat)
    ensures Trail(audit + [row], id) == if row.entity == id then Trail(audit, id) + [row] else Trail(audit, id)
  {
    assert (audit + [row])[..|audit|] == audit;
  }

  lemma {:induction false} NoTrail(audit: seq<AuditRow>, id: nat)
    requires forall a :: a in audit ==> a.entity != id
    ensures Trail(audit, id) == []
  {
    if audit != [] {
      NoTrail(audit[..|audit| - 1], id);
    }
  }

  // What a logged change may do to a row: one allowed transition, with the reviewer on record.
  ghost predicate Advances(before: Rec, after: Rec, actor: string, action: Action, note: Option<string>) {
    && after.status == ActionStatus(action) && after.status in AllowedTransitions(before.status)
    && after.tenant == before.tenant && after.run == before.run
    && after.user == before.user && after.circle == before.circle
    && NamesReviewer(after.reviewedBy)
    && after.reviewedBy == (if before.status == PendingApproval then Some(actor) else before.reviewedBy)
    && after.note == (if before.status == PendingApproval then note else before.note)
    && after.deliveryRef == (if before.status == PendingApproval then before.deliveryRef else note)
  }

  lemma LogExplains(s: State, id: nat, row: Rec, actor: string, action: Action, note: Option<string>)
    requires id in s.rows && RowExplained(s, id) && Advances(s.rows[id], row, actor, action, note)
    ensures RowExplained(Log(s, id, row, actor, action, note), id)
  {
    var trail, added := Trail(s.audit, id), AuditRow(row.tenant, actor, action, id, row.status, note);
    TrailOne(s.audit, added, id);
    ReplayShapes(trail, s.rows[id].status);
    assert (trail + [added])[..|trail|] == trail;
  }

  /** A trail that replays has one of four shapes, and the status names the shape. */
  lemma {:induction false} ReplayShapes(trail: seq<AuditRow>, status: Status)
    requires Replay(trail) == Some(status)
    ensures status == PendingApproval <==> trail == []
    ensures status == Approved <==> |trail| == 1 && trail[0].action == WasApproved
    ensures status == Rejected <==> |trail| == 1 && trail[0].action == WasRejected
    ensures status == Delivered <==> |trail| == 2 && trail[0].action == WasApproved && trail[1].action == WasDelivered
    ensures status in {PendingApproval, Approved, Rejected, Delivered}
  {
    if trail != [] {
      ReplayShapes(trail[..|trail| - 1], Replay(trail[..|trail| - 1]).value);
    }
  }

  lemma LogKeeps(s: State, id: nat, row: Rec, actor: string, action: Action, note: Option<string>)
    requires Consistent(s) && id in s.rows && Advances(s.rows[id], row, actor, action, note)
    requires row.status == Approved ==> !HasLiveSibling(s.rows, id)
    ensures Consistent(Log(s, id, row, actor, action, note))
  {
    var after := Log(s, id, row, actor, action, note);
    forall k ensures RowExplained(after, k) {
      assert RowExplained(s, k);
      if k == id {
        LogExplains(s, id, row, actor, action, note);
      } else {
        TrailOne(s.audit, AuditRow(row.tenant, actor, action, id, row.status, note), k);
      }
    }
    forall a, b ensures !BothLive(after, a, b) {
      assert !BothLive(s, a, b);
      assert RowExplained(s, a) && RowExplained(s, b);
    }
  }

  lemma CreateKeeps(s: State, id: nat, row: Rec)
    requires Consistent(s) && id !in s.rows && OneSubject(row) && row.status == PendingApproval
    requires row.reviewedBy == None && row.note == None && row.deliveryRef == None
    ensures Consistent(s.(rows := s.rows[id := row]))
  {
    var after := s.(rows := s.rows[id := row]);
    forall k ensures RowExplained(after, k) {
      assert RowExplained(s, k);
      if k == id { NoTrail(s.audit, id); }
    }
    forall a, b ensures !BothLive(after, a, b) {
      assert !BothLive(s, a, b);
    }
  }

  lemma StepKeeps(s: State, call: Call)
    requires Consistent(s)
    ensures Consistent(Apply(s, call).0)
  {
    match call
    case Create(id, tenant, run, user, circle) =>
      if Apply(s, call).1 == Done {
        CreateKeeps(s, id, Rec(tenant, run, user, circle, PendingApproval, None, None, None));
      }
    case Approve(tenant, id, reviewer, note) =>
      if Apply(s, call).1 == Done {
        assert s.rows[id].status == PendingApproval;
        LogKeeps(s, id, s.rows[id].(status := Approved, reviewedBy := Some(reviewer), note := note), reviewer,
                 WasApproved, note);
      }
    case Reject(tenant, id, reviewer, note) =>
      if Apply(s, call).1 == Done {
        assert s.rows[id].status == PendingApproval;
        LogKeeps(s, id, s.rows[id].(status := Rejected, reviewedBy := Some(reviewer), note := note), reviewer,
                 WasRejected, note);
      }
    case Deliver(tenant, id, deliveryRef, actor) =>
      if Apply(s, call).1 == Done {
        LogKeeps(s, id, s.rows[id].(status := Delivered, deliveryRef := deliveryRef), actor, WasDelivered, deliveryRef);
      }
  }

  /** Whatever calls were made, in whatever order, the tables and the audit log agree. */
  lemma {:induction false} HistoryConsistent(calls: seq<Call>)
    ensures Consistent(History(calls))
  {
    if calls != [] {
      HistoryConsistent(calls[..|calls| - 1]);
      StepKeeps(History(calls[..|calls| - 1]), calls[|calls| - 1]);
    }
  }

  function Actions(trail: seq<AuditRow>): seq<Action> {
    seq(|trail|, i requires 0 <= i < |trail| => trail[i].action)
  }

  function ShapeOf(status: Status): seq<Action> {
    match status
    case Approved => [WasApproved]
    case Rejected => [WasRejected]
    case Delivered => [WasApproved, WasDelivered]
    case _ => []
  }

  /** A recommendation's status is the replay of its own audit rows, and fixes which rows there are. */
  lemma StatusIsReplay(calls: seq<Call>, id: nat)
    requires id in History(calls).rows
    ensures Replay(Trail(History(calls).audit, id)) == Some(History(calls).rows[id].status)
    ensures Actions(Trail(History(calls).audit, id)) == ShapeOf(History(calls).rows[id].status)
    ensures History(calls).rows[id].status in {PendingApproval, Approved, Rejected, Delivered}
  {
    HistoryConsistent(calls);
    assert RowExplained(History(calls), id);
    ReplayShapes(Trail(History(calls).audit, id), History(calls).rows[id].status);
  }

  /** Nothing is delivered, or decided at all, without a named reviewer, and the first audit row names that reviewer. */
  lemma DecidedByReviewer(calls: seq<Call>, id: nat)
    requires id in History(calls).rows && History(calls).rows[id].status != PendingApproval
    ensures var r, trail := History(calls).rows[id], Trail(History(calls).audit, id);
      && NamesReviewer(r.reviewedBy) && trail != [] && trail[0].actor == r.reviewedBy.value
      && (r.status == Delivered ==> trail[0].action == WasApproved)
  {
    StatusIsReplay(calls, id);
    assert RowExplained(History(calls), id) by { HistoryConsistent(calls); }
    assert Actions(Trail(History(calls).audit, id))[0] == Trail(History(calls).audit, id)[0].action;
  }

  /** At most one recommendation per tenant, allocation run and subject is ever live. */
  lemma OneLivePerSubject(calls: seq<Call>, a: nat, b: nat)
    requires var rows := History(calls).rows;
      && a in rows && b in rows && rows[a].tenant == rows[b].tenant && rows[a].run == rows[b].run
      && rows[a].user == rows[b].user && rows[a].circle == rows[b].circle
      && Live(rows[a]) && Live(rows[b])
    ensures a == b
  {
    HistoryConsistent(calls);
    assert RowExplained(History(calls), a);
    assert !BothLive(History(calls), a, b);
  }

  /** The delivery call checks a reviewer, but after any history that check can never be what stops it. */
  lemma DeliveryNeedsApprovalOnly(calls: seq<Call>, tenant: string, id: nat, deliveryRef: Option<string>, actor: string)
    ensures var s := History(calls);
      Apply(s, Deliver(tenant, id, deliveryRef, actor)).1 == Done <==>
        Owns(s, tenant, id) && s.rows[id].status == Approved
  {
    if id in History(calls).rows && History(calls).rows[id].status == Approved {
      DecidedByReviewer(calls, id);
    }
  }

  // ---------------------------------------------------------------- exactly when a call goes through

  // A refused call leaves everything as it was, and a missing or foreign row is reported as such.
  ghost predicate Refused(s: State, call: Call, tenant: string, id: nat) {
    && Apply(s, call).0 == s
    && (Apply(s, call).1 == NotFound <==> !(id in s.rows && s.rows[id].tenant == tenant))
    && Apply(s, call).1 in {NotFound, IllegalTransition}
  }

  // The call wrote this row and this one audit row, and nothing else.
  ghost predicate Wrote(s: State, call: Call, id: nat, row: Rec, entry: AuditRow) {
    var after := Apply(s, call).0;
    && after.audit == s.audit + [entry] && id in after.rows && after.rows[id] == row
    && after.rows.Keys == s.rows.Keys
    && forall other :: other in s.rows && other != id ==> after.rows[other] == s.rows[other]
  }

  lemma CreationExactly(s: State, id: nat, tenant: string, run: string, user: Option<string>, circle: Option<string>)
    ensures var call := Create(id, tenant, run, user, circle);
      var after := Apply(s, call).0;
      && (Apply(s, call).1 == Done <==>
            id !in s.rows && ((user == None && circle != None) || (user != None && circle == None)))
      && (Apply(s, call).1 != Done ==> after == s && Apply(s, call).1 == ConstraintViolated)
      && (Apply(s, call).1 == Done ==>
            && after.audit == s.audit && after.rows.Keys == s.rows.Keys + {id}
            && after.rows[id] == Rec(tenant, run, user, circle, PendingApproval, None, None, None)
            && forall other :: other in s.rows ==> after.rows[other] == s.rows[other])
  {
  }

  /**
   After any history an approval goes through if and only if the tenant owns the row, the row is pending, the
   reviewer is named, and no other recommendation for the same subject of the same allocation run is approved
   or delivered.
   */
  lemma ApprovalExactly(calls: seq<Call>, tenant: string, id: nat, reviewer: string, note: Option<string>)
    ensures var s, call := History(calls), Approve(tenant, id, reviewer, note);
      && (Apply(s, call).1 == Done <==>
            && id in s.rows && s.rows[id].tenant == tenant && s.rows[id].status == PendingApproval
            && (exists c :: c in reviewer && !IsSpace(c))
            && !exists other ::
                 && other in s.rows && other != id && s.rows[other].tenant == tenant
                 && s.rows[other].run == s.rows[id].run && s.rows[other].user == s.rows[id].user
                 && s.rows[other].circle == s.rows[id].circle && s.rows[other].status in {Approved, Delivered})
      && (Apply(s, call).1 != Done ==> Refused(s, call, tenant, id))
      && (Apply(s, call).1 == Done ==> var r := s.rows[id];
            Wrote(s, call, id, Rec(tenant, r.run, r.user, r.circle, Approved, Some(reviewer), note, r.deliveryRef),
                  AuditRow(tenant, reviewer, WasApproved, id, Approved, note)))
  {
    HistoryConsistent(calls);
    var s := History(calls);
    forall a | a in s.rows ensures OneSubject(s.rows[a]) {
      assert RowExplained(s, a);
    }
    if id in s.rows {
      forall other | other in s.rows && other != id
        ensures IsSibling(s.rows, id, other) <==>
          && s.rows[other].tenant == s.rows[id].tenant && s.rows[other].run == s.rows[id].run
          && s.rows[other].user == s.rows[id].user && s.rows[other].circle == s.rows[id].circle
      {
      }
    }
  }

  /** A rejection goes through if and only if the tenant owns the row, the row is pending and the reviewer is named. */
  lemma RejectionExactly(s: State, tenant: string, id: nat, reviewer: string, note: Option<string>)
    ensures var call := Reject(tenant, id, reviewer, note);
      && (Apply(s, call).1 == Done <==>
            && id in s.rows && s.rows[id].tenant == tenant && s.rows[id].status == PendingApproval
            && exists c :: c in reviewer && !IsSpace(c))
      && (Apply(s, call).1 != Done ==> Refused(s, call, tenant, id))
      && (Apply(s, call).1 == Done ==> var r := s.rows[id];
            Wrote(s, call, id, Rec(tenant, r.run, r.user, r.circle, Rejected, Some(reviewer), note, r.deliveryRef),
                  AuditRow(tenant, reviewer, WasRejected, id, Rejected, note)))
  {
  }

  /** After any history a delivery goes through if and only if the tenant owns the row and it is approved. */
  lemma DeliveryExactly(calls: seq<Call>, tenant: string, id: nat, deliveryRef: Option<string>, actor: string)
    ensures var s, call := History(calls), Deliver(tenant, id, deliveryRef, actor);
      && (Apply(s, call).1 == Done <==> id in s.rows && s.rows[id].tenant == tenant && s.rows[id].status == Approved)
      && (Apply(s, call).1 != Done ==> Refused(s, call, tenant, id))
      && (Apply(s, call).1 == Done ==> var r := s.rows[id];
            Wrote(s, call, id, Rec(tenant, r.run, r.user, r.circle, Delivered, r.reviewedBy, r.note, deliveryRef),
                  AuditRow(tenant, actor, WasDelivered, id, Delivered, deliveryRef)))
  {
    DeliveryNeedsApprovalOnly(calls, tenant, id, deliveryRef, actor);
  }

  /** What a row stores is what its audit rows say: reviewer and note of the decision, reference of the delivery. */
  lemma RowIsItsTrail(calls: seq<Call>, id: nat)
    requires id in History(calls).rows
    ensures var r, trail := History(calls).rows[id], Trail(History(calls).audit, id);
      && r.reviewedBy == (if trail == [] then None else Some(trail[0].actor))
      && r.note == (if trail == [] then None else trail[0].note)
      && r.deliveryRef == (if |trail| < 2 then None else trail[1].note)
      && forall a :: a in trail ==> a.tenant == r.tenant && a.status == ActionStatus(a.action)
  {
    HistoryConsistent(calls);
    assert RowExplained(History(calls), id);
  }

  // How a row may look later: untouched, decided while pending, or delivered after approval.
  ghost predicate Follows(before: Rec, after: Rec) {
    && after.tenant == before.tenant && after.run == before.run
    && after.user == before.user && after.circle == before.circle
    && (before.status == Rejected || before.status == Delivered ==> after == before)
    && (before.status == Approved ==>
          after == before || after == before.(status := Delivered, deliveryRef := after.deliveryRef))
  }

  ghost predicate RowKept(s: State, t: State, id: nat) {
    id in s.rows ==> id in t.rows && Follows(s.rows[id], t.rows[id])
  }

  lemma StepFollows(s: State, call: Call, id: nat)
    ensures s.audit <= Apply(s, call).0.audit && RowKept(s, Apply(s, call).0, id)
  {
  }

  lemma KeptTransitive(a: State, b: State, c: State, id: nat)
    requires RowKept(a, b, id) && RowKept(b, c, id)
    ensures RowKept(a, c, id)
  {
  }

  lemma HistoryStep(calls: seq<Call>, last: Call)
    ensures History(calls + [last]) == Apply(History(calls), last).0
  {
    assert (calls + [last])[..|calls|] == calls;
  }

  /** The audit log only grows, and no later call rewrites a decision that was taken. */
  lemma {:induction false} DecisionsStand(calls: seq<Call>, more: seq<Call>, id: nat)
    ensures History(calls).audit <= History(calls + more).audit
    ensures RowKept(History(calls), History(calls + more), id)
  {
    if more == [] {
      assert calls + more == calls;
    } else {
      var earlier, last := more[..|more| - 1], more[|more| - 1];
      DecisionsStand(calls, earlier, id);
      HistoryStep(calls + earlier, last);
      assert calls + more == calls + earlier + [last];
      StepFollows(History(calls + earlier), last, id);
      KeptTransitive(History(calls), History(calls + earlier), History(calls + more), id);
    }
  }

  // ---------------------------------------------------------------- the transition table

  // How many transitions lead from DRAFT to a status.
  ghost function Age(s: Status): nat {
    match s
    case Draft => 0
    case PendingApproval => 1
    case Approved => 2
    case Rejected => 2
    case Expired => 2
    case Delivered => 3
  }

  ghost predicate Leads(src: Status, dst: Status) {
    dst in AllowedTransitions(src)
  }

  /** One way leads to each status from DRAFT, and no status is ever entered twice. */
  lemma OneWay(dst: Status) returns (src: Status)
    ensures forall s :: Leads(s, dst) ==> s == src && Age(dst) == Age(s) + 1
    ensures dst != Draft ==> Leads(src, dst)
  {
    src := match dst case Draft => Draft case PendingApproval => Draft case Delivered => Approved
      case Approved => PendingApproval case Rejected => PendingApproval case Expired => PendingApproval;
  }
}
