/** The in-memory event store and the INGEST loop that drains it in batches. */
module Ingest {
  import opened Contracts
  import opened Ordering
  import opened Text

  datatype RawStatus = New | Processed | Unmapped

  // A client event as delivered. Only its own id matters to the store.
  datatype Body = Body(clientEventId: Option<string>, content: string)

  datatype RawRecord = RawRecord(id: string, body: Body, status: RawStatus, error: Option<string>)

  datatype Event = Event(
    tenant: string, clientEventId: string, user: string, attributes: map<string, string>, details: string)

  // What mapping a raw body onto the canonical form gives.
  datatype Outcome = Mapped(event: Event) | Refused(message: string)

  datatype SaveResult = SavedEvents(added: nat) | WrongTenant

  // All that one tenant has in the store.
  datatype TenantData = TenantData(
    raw: seq<RawRecord>, canonical: map<string, Event>, attributes: map<string, map<string, string>>)

  function RawId(n: nat): string {
    "raw-" + Digits(n)
  }

  // Raw ids are the position in the tenant's list.
  ghost predicate Numbered(raw: seq<RawRecord>) {
    forall i :: 0 <= i < |raw| ==> raw[i].id == RawIdAt(i)
  }

  ghost function RawIdAt(i: nat): string {
    RawId(i + 1)
  }

  ghost predicate DistinctRaw(raw: seq<RawRecord>) {
    forall i, j :: 0 <= i < j < |raw| ==> raw[i].id != raw[j].id
  }

  lemma NumberedDistinct(raw: seq<RawRecord>)
    requires Numbered(raw)
    ensures DistinctRaw(raw)
  {
    forall i, j | 0 <= i < j < |raw| ensures raw[i].id != raw[j].id {
      if RawIdAt(i) == RawIdAt(j) {
        assert RawIdAt(i)[4..] == Digits(i + 1) && RawIdAt(j)[4..] == Digits(j + 1);
        DigitsInjective(i + 1, j + 1);
      }
    }
  }

  // ---------------------------------------------------------------- what the store operations mean

  ghost predicate Known(raw: seq<RawRecord>, clientEventId: Option<string>) {
    exists r :: r in raw && r.body.clientEventId == clientEventId
  }

  ghost function AddedOne(raw: seq<RawRecord>, body: Body): seq<RawRecord> {
    if Known(raw, body.clientEventId) then raw
    else raw + [RawRecord(RawId(|raw| + 1), body, New, None)]
  }

  ghost function Added(raw: seq<RawRecord>, bodies: seq<Body>): seq<RawRecord> {
    if bodies == [] then raw
    else AddedOne(Added(raw, bodies[..|bodies| - 1]), bodies[|bodies| - 1])
  }

  function NewOnes(raw: seq<RawRecord>): seq<RawRecord> {
    if raw == [] then [] else
    var rest := NewOnes(raw[1..]);
    if raw[0].status == New then [raw[0]] + rest else rest
  }

  /** A Python slice `s[:limit]`: a negative limit drops elements from the end. */
  function Slice<T>(s: seq<T>, limit: int): seq<T> {
    if limit < 0 then (if |s| + limit < 0 then [] else s[..|s| + limit])
    else if limit < |s| then s[..limit]
    else s
  }

  function Remark(r: RawRecord, id: string, status: RawStatus, error: Option<string>): RawRecord {
    if r.id == id then r.(status := status, error := error) else r
  }

  function Marked(raw: seq<RawRecord>, id: string, status: RawStatus, error: Option<string>): (r: seq<RawRecord>)
    ensures |r| == |raw| && forall i :: 0 <= i < |raw| ==> r[i] == Remark(raw[i], id, status, error)
  {
    seq(|raw|, i requires 0 <= i < |raw| => Remark(raw[i], id, status, error))
  }

  function SavedOne(canonical: map<string, Event>, e: Event): map<string, Event> {
    if e.clientEventId in canonical then canonical else canonical[e.clientEventId := e]
  }

  function Saved(canonical: map<string, Event>, events: seq<Event>): map<string, Event> {
    if events == [] then canonical
    else SavedOne(Saved(canonical, events[..|events| - 1]), events[|events| - 1])
  }

  function Upserted(attributes: map<string, map<string, string>>, user: string,
                    values: map<string, string>): map<string, map<string, string>> {
    attributes[user := (if user in attributes then attributes[user] else map[]) + values]
  }

  function AttributesAfter(attributes: map<string, map<string, string>>, e: Event): map<string, map<string, string>> {
    if e.attributes == map[] then attributes else Upserted(attributes, e.user, e.attributes)
  }

  /** How many events come before the first one of another tenant. */
  function OwnPrefix(tenant: string, events: seq<Event>): (n: nat)
    ensures n <= |events| && forall i :: 0 <= i < n ==> events[i].tenant == tenant
    ensures n < |events| ==> events[n].tenant != tenant
  {
    if events == [] || events[0].tenant != tenant then 0 else 1 + OwnPrefix(tenant, events[1..])
  }

  lemma {:induction false} AllOwn(tenant: string, events: seq<Event>)
    requires forall e :: e in events ==> e.tenant == tenant
    ensures OwnPrefix(tenant, events) == |events| && events[..OwnPrefix(tenant, events)] == events
  {
    if events != [] {
      AllOwn(tenant, events[1..]);
    }
  }

  // ---------------------------------------------------------------- the loops inside the store operations

  method Append(raw: seq<RawRecord>, bodies: seq<Body>) returns (bucket: seq<RawRecord>)
    requires Numbered(raw)
    ensures bucket == Added(raw, bodies) && Numbered(bucket)
  {
    bucket := raw;
    var known := set r | r in bucket :: r.body.clientEventId;
    for n := 0 to |bodies|
      invariant bucket == Added(raw, bodies[..n]) && Numbered(bucket)
      invariant forall c :: c in known <==> Known(bucket, c)
    {
      var body := bodies[n];
      assert bodies[..n + 1][..n] == bodies[..n];
      if body.clientEventId !in known {
        known := known + {body.clientEventId};
        var record := RawRecord(RawId(|bucket| + 1), body, New, None);
        KnownOne(bucket, record);
        assert record.id == RawIdAt(|bucket|);
        bucket := bucket + [record];
      }
    }
    assert bodies[..|bodies|] == bodies;
  }

  lemma KnownOne(raw: seq<RawRecord>, r: RawRecord)
    ensures forall c :: Known(raw + [r], c) <==> Known(raw, c) || c == r.body.clientEventId
  {
    forall c | Known(raw, c) ensures Known(raw + [r], c) {
      var x :| x in raw && x.body.clientEventId == c;
      assert x in raw + [r];
    }
    assert r in raw + [r];
  }

  method MarkAll(raw: seq<RawRecord>, id: string, status: RawStatus, error: Option<string>)
    returns (marked: seq<RawRecord>)
    requires Numbered(raw)
    ensures marked == Marked(raw, id, status, error) && Numbered(marked)
  {
    marked := raw;
    for n := 0 to |raw|
      invariant |marked| == |raw| && marked[n..] == raw[n..]
      invariant forall i :: 0 <= i < n ==> marked[i] == Remark(raw[i], id, status, error)
    {
      if raw[n].id == id {
        marked := marked[n := raw[n].(status := status, error := error)];
      }
    }
  }

  /** Saves in order and stops at an event of another tenant; what was saved before it stays. */
  method SaveAll(tenant: string, canonical: map<string, Event>, events: seq<Event>)
    returns (bucket: map<string, Event>, r: SaveResult)
    ensures var n := OwnPrefix(tenant, events);
      bucket == Saved(canonical, events[..n]) && (r == WrongTenant <==> n < |events|)
    ensures r.SavedEvents? ==> |bucket| == |canonical| + r.added
  {
    bucket := canonical;
    var added := 0;
    for n := 0 to |events|
      invariant bucket == Saved(canonical, events[..n])
      invariant |bucket| == |canonical| + added
      invariant forall i :: 0 <= i < n ==> events[i].tenant == tenant
    {
      var e := events[n];
      if e.tenant != tenant {
        assert OwnPrefix(tenant, events) == n;
        return bucket, WrongTenant;
      }
      assert events[..n + 1][..n] == events[..n];
      if e.clientEventId !in bucket {
        bucket := bucket[e.clientEventId := e];
        added := added + 1;
      }
    }
    assert events[..|events|] == events;
    r := SavedEvents(added);
  }

  // ---------------------------------------------------------------- what a claim is

  // The positions of the records still to be handled.
  ghost function Waiting(raw: seq<RawRecord>): set<nat> {
    set k: nat | k < |raw| && raw[k].status == New
  }

  // How many of the waiting records a limit lets through; a negative one leaves that many behind.
  ghost function Share(waiting: nat, limit: int): nat {
    if limit < 0 then (if waiting + limit < 0 then 0 else waiting + limit)
    else if limit < waiting then limit
    else waiting
  }

  ghost predicate Increasing(at: seq<nat>) {
    forall i, j :: 0 <= i < j < |at| ==> at[i] < at[j]
  }

  // The records stand at these positions of the store, in store order, and are all new.
  ghost predicate StandAt(raw: seq<RawRecord>, rs: seq<RawRecord>, at: seq<nat>) {
    && |at| == |rs| && Increasing(at)
    && forall i :: 0 <= i < |at| ==> at[i] in Waiting(raw) && raw[at[i]] == rs[i]
  }

  /** A claim: new records in store order, none of them passed over, as many as the limit lets through. */
  ghost predicate IsClaim(raw: seq<RawRecord>, limit: int, claimed: seq<RawRecord>, at: seq<nat>) {
    && StandAt(raw, claimed, at)
    && (forall i, k :: 0 <= i < |at| && k in Waiting(raw) && k < at[i] ==> k in at)
    && |claimed| == Share(|Waiting(raw)|, limit)
  }

  // The waiting records from position n on, and where they stand.
  ghost predicate WaitFrom(raw: seq<RawRecord>, n: nat, rs: seq<RawRecord>, at: seq<nat>) {
    StandAt(raw, rs, at) && forall k :: k in at <==> k in Waiting(raw) && n <= k
  }

  lemma {:induction false} WaitingFrom(raw: seq<RawRecord>, n: nat) returns (at: seq<nat>)
    requires n <= |raw|
    ensures WaitFrom(raw, n, NewOnes(raw[n..]), at)
    decreases |raw| - n
  {
    if n == |raw| {
      at := [];
    } else {
      var rest := WaitingFrom(raw, n + 1);
      assert raw[n..] == [raw[n]] + raw[n + 1..];
      WaitingStep(raw, n, NewOnes(raw[n + 1..]), rest);
      at := if raw[n].status == New then [n] + rest else rest;
    }
  }

  lemma WaitingStep(raw: seq<RawRecord>, n: nat, rs: seq<RawRecord>, at: seq<nat>)
    requires n < |raw| && WaitFrom(raw, n + 1, rs, at)
    ensures raw[n].status == New ==> WaitFrom(raw, n, [raw[n]] + rs, [n] + at)
    ensures raw[n].status != New ==> WaitFrom(raw, n, rs, at)
  {
    forall k ensures k in [n] + at <==> k == n || k in at {
    }
    assert forall i :: 0 <= i < |at| ==> at[i] in at;
  }

  lemma WaitingAt(raw: seq<RawRecord>) returns (at: seq<nat>)
    ensures StandAt(raw, NewOnes(raw), at) && (forall k :: k in at <==> k in Waiting(raw)) && |at| == |Waiting(raw)|
  {
    at := WaitingFrom(raw, 0);
    assert raw[0..] == raw;
    CardinalityOfDistinct(at);
    assert AsSet(at) == Waiting(raw);
  }

  lemma ClaimPositions(raw: seq<RawRecord>, limit: int) returns (at: seq<nat>)
    ensures IsClaim(raw, limit, Slice(NewOnes(raw), limit), at)
  {
    var all := WaitingAt(raw);
    at := all[..Share(|all|, limit)];
    forall i, k | 0 <= i < |at| && k in Waiting(raw) && k < at[i] ensures k in at {
      var j :| 0 <= j < |all| && all[j] == k;
      assert j < i;
    }
  }

  lemma NotPassed(a: seq<nat>, b: seq<nat>, n: nat)
    requires Increasing(a) && Increasing(b) && n < |a| && n < |b| && b[n] in a
    requires forall i :: 0 <= i < n ==> a[i] == b[i]
    ensures a[n] <= b[n]
  {
    var i :| 0 <= i < |a| && a[i] == b[n];
  }

  lemma {:induction false} ClaimFollows(raw: seq<RawRecord>, limit: int, claimed: seq<RawRecord>, at: seq<nat>,
                                        all: seq<nat>, n: nat)
    requires IsClaim(raw, limit, claimed, at) && n <= |at| <= |all|
    requires Increasing(all) && forall k :: k in all <==> k in Waiting(raw)
    ensures forall i :: 0 <= i < n ==> at[i] == all[i]
  {
    if n > 0 {
      ClaimFollows(raw, limit, claimed, at, all, n - 1);
      assert at[n - 1] in Waiting(raw);
      NotPassed(all, at, n - 1);
      assert all[n - 1] in all;
      if all[n - 1] in at {
        NotPassed(at, all, n - 1);
      }
    }
  }

  /** The promise leaves no choice: a claim is the list of waiting records, cut off at the limit. */
  lemma ClaimDetermined(raw: seq<RawRecord>, limit: int, claimed: seq<RawRecord>)
    requires exists at :: IsClaim(raw, limit, claimed, at)
    ensures claimed == Slice(NewOnes(raw), limit)
  {
    var at :| IsClaim(raw, limit, claimed, at);
    var all := WaitingAt(raw);
    ClaimFollows(raw, limit, claimed, at, all, |at|);
  }

  // ---------------------------------------------------------------- the store

  class Store {
    var rawEvents: map<string, seq<RawRecord>>
    var canonicalEvents: map<string, map<string, Event>>
    var userAttributes: map<string, map<string, map<string, string>>>

    constructor ()
      ensures forall t :: Data(t) == TenantData([], map[], map[])
    {
      rawEvents, canonicalEvents, userAttributes := map[], map[], map[];
    }

    // A tenant without a bucket has an empty one.
    function Data(tenant: string): TenantData
      reads this
    {
      TenantData(
        if tenant in rawEvents then rawEvents[tenant] else [],
        if tenant in canonicalEvents then canonicalEvents[tenant] else map[],
        if tenant in userAttributes then userAttributes[tenant] else map[])
    }

    ghost predicate Ordered(tenant: string)
      reads this
    {
      Numbered(Data(tenant).raw)
    }

    method AddRawEvents(tenant: string, bodies: seq<Body>)
      requires Ordered(tenant)
      modifies this
      ensures Ordered(tenant) && forall t :: t != tenant ==> Data(t) == old(Data(t))
      ensures Data(tenant) == old(Data(tenant)).(raw := Added(old(Data(tenant).raw), bodies))
    {
      var bucket := Append(Data(tenant).raw, bodies);
      rawEvents := rawEvents[tenant := bucket];
    }

    method ClaimRawEvents(tenant: string, limit: int) returns (claimed: seq<RawRecord>)
      ensures exists at :: IsClaim(Data(tenant).raw, limit, claimed, at)
    {
      claimed := Slice(NewOnes(Data(tenant).raw), limit);
      ghost var at := ClaimPositions(Data(tenant).raw, limit);
    }

    method MarkRawEvent(tenant: string, id: string, status: RawStatus, error: Option<string>)
      requires Ordered(tenant)
      modifies this`rawEvents
      ensures Ordered(tenant) && forall t :: t != tenant ==> Data(t) == old(Data(t))
      ensures Data(tenant) == old(Data(tenant)).(raw := Marked(old(Data(tenant).raw), id, status, error))
    {
      var marked := MarkAll(Data(tenant).raw, id, status, error);
      rawEvents := rawEvents[tenant := marked];
    }

    method SaveCanonicalEvents(tenant: string, events: seq<Event>) returns (r: SaveResult)
      requires Ordered(tenant)
      modifies this`canonicalEvents
      ensures Ordered(tenant) && forall t :: t != tenant ==> Data(t) == old(Data(t))
      ensures var n := OwnPrefix(tenant, events);
        && Data(tenant) == old(Data(tenant)).(canonical := Saved(old(Data(tenant).canonical), events[..n]))
        && (r == WrongTenant <==> n < |events|)
        && (r.SavedEvents? ==> |Data(tenant).canonical| == |old(Data(tenant).canonical)| + r.added)
    {
      var bucket;
      bucket, r := SaveAll(tenant, Data(tenant).canonical, events);
      canonicalEvents := canonicalEvents[tenant := bucket];
    }

    method UpsertUserAttributes(tenant: string, user: string, values: map<string, string>)
      requires Ordered(tenant)
      modifies this`userAttributes
      ensures Ordered(tenant) && forall t :: t != tenant ==> Data(t) == old(Data(t))
      ensures Data(tenant) == old(Data(tenant)).(attributes := Upserted(old(Data(tenant).attributes), user, values))
    {
      userAttributes := userAttributes[tenant := Upserted(Data(tenant).attributes, user, values)];
    }
  }

  // ---------------------------------------------------------------- handling records one at a time

  function HandledOne(s: TenantData, r: RawRecord, normalize: Body -> Outcome): TenantData {
    match normalize(r.body)
    case Refused(message) => s.(raw := Marked(s.raw, r.id, Unmapped, Some(message)))
    case Mapped(e) =>
      TenantData(Marked(s.raw, r.id, Processed, None), SavedOne(s.canonical, e), AttributesAfter(s.attributes, e))
  }

  /** The records handled one after the other, each completely before the next. */
  function Handled(s: TenantData, rs: seq<RawRecord>, normalize: Body -> Outcome): TenantData {
    if rs == [] then s
    else HandledOne(Handled(s, rs[..|rs| - 1], normalize), rs[|rs| - 1], normalize)
  }

  function MappedCount(rs: seq<RawRecord>, normalize: Body -> Outcome): nat {
    if rs == [] then 0
    else MappedCount(rs[..|rs| - 1], normalize) + if normalize(rs[|rs| - 1].body).Mapped? then 1 else 0
  }

  ghost predicate StampsTenant(normalize: Body -> Outcome, tenant: string) {
    forall b :: normalize(b).Mapped? ==> normalize(b).event.tenant == tenant
  }

  /** The records one run of INGEST deals with. */
  function Scope(waiting: seq<RawRecord>, batchSize: int): seq<RawRecord> {
    if batchSize >= 1 then waiting else Slice(waiting, batchSize)
  }

  lemma HandledStep(s: TenantData, rs: seq<RawRecord>, n: nat, normalize: Body -> Outcome)
    requires n < |rs|
    ensures Handled(s, rs[..n + 1], normalize) == HandledOne(Handled(s, rs[..n], normalize), rs[n], normalize)
    ensures MappedCount(rs[..n + 1], normalize) ==
      MappedCount(rs[..n], normalize) + if normalize(rs[n].body).Mapped? then 1 else 0
  {
    assert rs[..n + 1][..n] == rs[..n];
  }

  lemma {:induction false} HandledSplit(s: TenantData, a: seq<RawRecord>, b: seq<RawRecord>, normalize: Body -> Outcome)
    ensures Handled(s, a + b, normalize) == Handled(Handled(s, a, normalize), b, normalize)
    ensures MappedCount(a + b, normalize) == MappedCount(a, normalize) + MappedCount(b, normalize)
  {
    if b == [] {
      assert a + b == a;
    } else {
      assert (a + b)[..|a + b| - 1] == a + b[..|b| - 1];
      HandledSplit(s, a, b[..|b| - 1], normalize);
    }
  }

  /** One batch: marks and attributes at once, canonical events together at the end. */
  method HandleBatch(store: Store, tenant: string, claimed: seq<RawRecord>, normalize: Body -> Outcome)
    returns (processed: nat, unmapped: nat)
    requires store.Ordered(tenant) && StampsTenant(normalize, tenant)
    modifies store
    ensures store.Ordered(tenant) && forall t :: t != tenant ==> store.Data(t) == old(store.Data(t))
    ensures store.Data(tenant) == Handled(old(store.Data(tenant)), claimed, normalize)
    ensures processed == MappedCount(claimed, normalize) && processed + unmapped == |claimed|
  {
    processed, unmapped := 0, 0;
    var canonical: seq<Event> := [];
    ghost var s0 := store.Data(tenant);
    for n := 0 to |claimed|
      invariant store.Ordered(tenant) && forall t :: t != tenant ==> store.Data(t) == old(store.Data(t))
      invariant forall e :: e in canonical ==> e.tenant == tenant
      invariant store.Data(tenant).canonical == s0.canonical
      invariant store.Data(tenant).(canonical := Saved(s0.canonical, canonical)) == Handled(s0, claimed[..n], normalize)
      invariant processed == MappedCount(claimed[..n], normalize) && processed + unmapped == n
    {
      var raw := claimed[n];
      HandledStep(s0, claimed, n, normalize);
      match normalize(raw.body)
      case Refused(message) =>
        store.MarkRawEvent(tenant, raw.id, Unmapped, Some(message));
        unmapped := unmapped + 1;
      case Mapped(event) =>
        assert (canonical + [event])[..|canonical|] == canonical;
        canonical := canonical + [event];
        if event.attributes != map[] {
          store.UpsertUserAttributes(tenant, event.user, event.attributes);
        }
        store.MarkRawEvent(tenant, raw.id, Processed, None);
        processed := processed + 1;
    }
    assert claimed[..|claimed|] == claimed;
    AllOwn(tenant, canonical);
    var r := store.SaveCanonicalEvents(tenant, canonical);
  }

  /**
   Claims and handles batches until a claim comes back empty. Every batch size terminates; the result is
   that of handling the records in scope one at a time, so no batch size of one or more gives another result.
   */
  method Ingest(store: Store, tenant: string, normalize: Body -> Outcome, batchSize: int)
    returns (processed: nat, unmapped: nat)
    requires store.Ordered(tenant) && StampsTenant(normalize, tenant)
    modifies store
    ensures store.Ordered(tenant) && forall t :: t != tenant ==> store.Data(t) == old(store.Data(t))
    ensures var scope := Scope(NewOnes(old(store.Data(tenant).raw)), batchSize);
      && store.Data(tenant) == Handled(old(store.Data(tenant)), scope, normalize)
      && processed == MappedCount(scope, normalize) && processed + unmapped == |scope|
  {
    processed, unmapped := 0, 0;
    ghost var s0, n0, handled := store.Data(tenant), NewOnes(store.Data(tenant).raw), 0;
    ghost var total := |Scope(n0, batchSize)|;
    while true
      invariant store.Ordered(tenant) && forall t :: t != tenant ==> store.Data(t) == old(store.Data(t))
      invariant handled <= total && Progress(s0, n0, store.Data(tenant), handled, normalize)
      invariant processed == MappedCount(n0[..handled], normalize) && processed + unmapped == handled
      decreases |n0| - handled
    {
      var claimed := store.ClaimRawEvents(tenant, batchSize);
      ClaimDetermined(store.Data(tenant).raw, batchSize, claimed);
      NumberedDistinct(store.Data(tenant).raw);
      ghost var upTo := NextBatch(s0, n0, handled, batchSize, store.Data(tenant), normalize);
      if claimed == [] {
        break;
      }
      var p, u := HandleBatch(store, tenant, claimed, normalize);
      processed, unmapped := processed + p, unmapped + u;
      handled := upTo;
    }
  }

  lemma SliceOf<T>(s: seq<T>, done: nat, batchSize: int) returns (upTo: nat)
    requires done <= |s|
    requires batchSize < 1 ==> done <= |Slice(s, batchSize)|
    ensures var c := Slice(s[done..], batchSize);
      && upTo == done + |c| <= |s| && c == s[done..][..|c|]
      && s[..done] + c == s[..upTo] && s[done..][|c|..] == s[upTo..]
      && (batchSize >= 1 ==> (c == [] <==> done == |s|))
      && (batchSize < 1 ==> upTo == |Slice(s, batchSize)|)
      && (batchSize < 1 ==> Slice(s, batchSize) == s[..|Slice(s, batchSize)|])
  {
    upTo := done + |Slice(s[done..], batchSize)|;
  }

  ghost predicate Progress(s0: TenantData, n0: seq<RawRecord>, now: TenantData, done: nat, normalize: Body -> Outcome) {
    && done <= |n0| && now == Handled(s0, n0[..done], normalize) && NewOnes(now.raw) == n0[done..]
  }

  /** What one more batch does, given what the batches before it did. */
  lemma NextBatch(s0: TenantData, n0: seq<RawRecord>, done: nat, batchSize: int, now: TenantData,
                  normalize: Body -> Outcome)
    returns (upTo: nat)
    requires done <= |Scope(n0, batchSize)| && DistinctRaw(now.raw) && Progress(s0, n0, now, done, normalize)
    ensures var c := Slice(n0[done..], batchSize);
      && upTo == done + |c| <= |Scope(n0, batchSize)|
      && Progress(s0, n0, Handled(now, c, normalize), upTo, normalize)
      && MappedCount(n0[..upTo], normalize) == MappedCount(n0[..done], normalize) + MappedCount(c, normalize)
      && (c == [] ==> n0[..done] == Scope(n0, batchSize))
  {
    var c := Slice(n0[done..], batchSize);
    upTo := SliceOf(n0, done, batchSize);
    HandledSplit(s0, n0[..done], c, normalize);
    DrainsPrefix(now, |c|, normalize);
  }

  lemma {:induction false} DrainsPrefix(s: TenantData, n: nat, normalize: Body -> Outcome)
    requires DistinctRaw(s.raw) && n <= |NewOnes(s.raw)|
    ensures NewOnes(Handled(s, NewOnes(s.raw)[..n], normalize).raw) == NewOnes(s.raw)[n..]
    ensures DistinctRaw(Handled(s, NewOnes(s.raw)[..n], normalize).raw)
  {
    if n > 0 {
      var waiting := NewOnes(s.raw);
      DrainsPrefix(s, n - 1, normalize);
      HandledStep(s, waiting, n - 1, normalize);
      var before := Handled(s, waiting[..n - 1], normalize);
      assert waiting[n - 1..][0] == waiting[n - 1] && waiting[n - 1..][1..] == waiting[n..];
      match normalize(waiting[n - 1].body)
      case Refused(message) => MarksFirstNew(before.raw, Unmapped, Some(message));
      case Mapped(e) => MarksFirstNew(before.raw, Processed, None);
    }
  }

  lemma {:induction false} NewOnesListed(raw: seq<RawRecord>)
    ensures forall r :: r in NewOnes(raw) <==> r in raw && r.status == New
  {
    if raw != [] {
      NewOnesListed(raw[1..]);
      assert raw == [raw[0]] + raw[1..];
    }
  }

  lemma {:induction false} MarksFirstNew(raw: seq<RawRecord>, status: RawStatus, error: Option<string>)
    requires DistinctRaw(raw) && NewOnes(raw) != [] && status != New
    ensures DistinctRaw(Marked(raw, NewOnes(raw)[0].id, status, error))
    ensures NewOnes(Marked(raw, NewOnes(raw)[0].id, status, error)) == NewOnes(raw)[1..]
  {
    var id := NewOnes(raw)[0].id;
    var marked := Marked(raw, id, status, error);
    if raw[0].status == New {
      assert marked[1..] == raw[1..];
    } else {
      MarksFirstNew(raw[1..], status, error);
      NewOnesListed(raw[1..]);
      assert NewOnes(raw)[0] in NewOnes(raw[1..]);
      assert marked[1..] == Marked(raw[1..], id, status, error);
    }
  }

  // ---------------------------------------------------------------- what a run of INGEST achieves

  ghost function After(s: TenantData, batchSize: int, normalize: Body -> Outcome): TenantData {
    Handled(s, Scope(NewOnes(s.raw), batchSize), normalize)
  }

  lemma ScopeIsPrefix(waiting: seq<RawRecord>, batchSize: int)
    ensures |Scope(waiting, batchSize)| <= |waiting|
    ensures Scope(waiting, batchSize) == waiting[..|Scope(waiting, batchSize)|]
    ensures Scope(waiting, batchSize) == waiting <==> batchSize >= 1 || waiting == []
    ensures Scope(waiting[|Scope(waiting, batchSize)|..], batchSize) == []
  {
  }

  /** Nothing is left NEW exactly when the batch size is positive or nothing was waiting. */
  lemma LeftNew(s: TenantData, batchSize: int, normalize: Body -> Outcome)
    requires DistinctRaw(s.raw)
    ensures NewOnes(After(s, batchSize, normalize).raw) == NewOnes(s.raw)[|Scope(NewOnes(s.raw), batchSize)|..]
    ensures NewOnes(After(s, batchSize, normalize).raw) == [] <==> batchSize >= 1 || NewOnes(s.raw) == []
  {
    var waiting := NewOnes(s.raw);
    ScopeIsPrefix(waiting, batchSize);
    DrainsPrefix(s, |Scope(waiting, batchSize)|, normalize);
  }

  /** A second run with the same batch size finds nothing to do. */
  lemma SecondRunIdle(s: TenantData, batchSize: int, normalize: Body -> Outcome, normalizeLater: Body -> Outcome)
    requires DistinctRaw(s.raw)
    ensures After(After(s, batchSize, normalize), batchSize, normalizeLater) == After(s, batchSize, normalize)
  {
    LeftNew(s, batchSize, normalize);
    ScopeIsPrefix(NewOnes(s.raw), batchSize);
  }

  function Settled(r: RawRecord, normalize: Body -> Outcome): RawRecord {
    match normalize(r.body)
    case Refused(message) => r.(status := Unmapped, error := Some(message))
    case Mapped(e) => r.(status := Processed, error := None)
  }

  lemma {:induction false} SettlesExactly(s: TenantData, rs: seq<RawRecord>, normalize: Body -> Outcome, i: nat)
    requires DistinctRaw(s.raw) && i < |s.raw|
    requires forall r :: r in rs ==> r in s.raw
    ensures |Handled(s, rs, normalize).raw| == |s.raw|
    ensures Handled(s, rs, normalize).raw[i] == if s.raw[i] in rs then Settled(s.raw[i], normalize) else s.raw[i]
  {
    if rs != [] {
      var before, last := rs[..|rs| - 1], rs[|rs| - 1];
      SettlesExactly(s, before, normalize, i);
      assert rs == before + [last];
      assert last in s.raw;
      var j :| 0 <= j < |s.raw| && s.raw[j] == last;
      assert last.id == s.raw[i].id <==> i == j;
    }
  }

  /** Each waiting record in scope ends PROCESSED or UNMAPPED with its reason; no other record is touched. */
  lemma RecordsSettle(s: TenantData, batchSize: int, normalize: Body -> Outcome, i: nat)
    requires DistinctRaw(s.raw) && i < |s.raw|
    ensures |After(s, batchSize, normalize).raw| == |s.raw|
    ensures After(s, batchSize, normalize).raw[i] ==
      if s.raw[i] in Scope(NewOnes(s.raw), batchSize) then Settled(s.raw[i], normalize) else s.raw[i]
  {
    ScopeIsPrefix(NewOnes(s.raw), batchSize);
    NewOnesListed(s.raw);
    SettlesExactly(s, Scope(NewOnes(s.raw), batchSize), normalize, i);
  }

  ghost predicate Carries(r: RawRecord, key: string, normalize: Body -> Outcome) {
    normalize(r.body).Mapped? && normalize(r.body).event.clientEventId == key
  }

  ghost predicate FirstCarrier(rs: seq<RawRecord>, n: nat, key: string, normalize: Body -> Outcome) {
    && n < |rs| && Carries(rs[n], key, normalize)
    && forall m :: 0 <= m < n ==> !Carries(rs[m], key, normalize)
  }

  /** The first event saved under a client id stays: replays and duplicates never replace it. */
  lemma {:induction false} FirstEventWins(s: TenantData, rs: seq<RawRecord>, key: string, normalize: Body -> Outcome)
    ensures var canonical := Handled(s, rs, normalize).canonical;
      && (key in s.canonical ==> key in canonical && canonical[key] == s.canonical[key])
      && (forall n: nat :: key !in s.canonical && FirstCarrier(rs, n, key, normalize) ==>
            key in canonical && canonical[key] == normalize(rs[n].body).event)
      && (key in canonical && key !in s.canonical ==> exists r :: r in rs && Carries(r, key, normalize))
  {
    if rs != [] {
      var before, last := rs[..|rs| - 1], rs[|rs| - 1];
      assert rs == before + [last];
      FirstEventWins(s, before, key, normalize);
      var canonical := Handled(s, rs, normalize).canonical;
      forall n: nat | key !in s.canonical && FirstCarrier(rs, n, key, normalize)
        ensures key in canonical && canonical[key] == normalize(rs[n].body).event
      {
        if n < |before| {
          assert before[n] == rs[n] && forall m :: 0 <= m < n ==> before[m] == rs[m];
          assert FirstCarrier(before, n, key, normalize);
        } else {
          assert forall r :: r in before ==> !Carries(r, key, normalize);
        }
      }
      if key in canonical && key !in s.canonical {
        if key in Handled(s, before, normalize).canonical {
          var r :| r in before && Carries(r, key, normalize);
          assert r in rs;
        } else {
          assert Carries(last, key, normalize);
        }
      }
    }
  }

  function Attribute(attributes: map<string, map<string, string>>, user: string, name: string): Option<string> {
    if user in attributes && name in attributes[user] then Some(attributes[user][name]) else None
  }

  // The value a record writes to a user's attribute, if it writes one.
  function Written(r: RawRecord, user: string, name: string, normalize: Body -> Outcome): Option<string> {
    match normalize(r.body)
    case Refused(_) => None
    case Mapped(e) => if e.user == user && name in e.attributes then Some(e.attributes[name]) else None
  }

  function LastWritten(rs: seq<RawRecord>, user: string, name: string, normalize: Body -> Outcome): Option<string> {
    if rs == [] then None
    else if Written(rs[|rs| - 1], user, name, normalize).Some? then Written(rs[|rs| - 1], user, name, normalize)
    else LastWritten(rs[..|rs| - 1], user, name, normalize)
  }

  /** Of the values written to a user's attribute the last one stays; an attribute nobody writes is untouched. */
  lemma {:induction false} LastAttributeWins(s: TenantData, rs: seq<RawRecord>, user: string, name: string,
                                             normalize: Body -> Outcome)
    ensures Attribute(Handled(s, rs, normalize).attributes, user, name) ==
      if LastWritten(rs, user, name, normalize).Some? then LastWritten(rs, user, name, normalize)
      else Attribute(s.attributes, user, name)
  {
    if rs != [] {
      LastAttributeWins(s, rs[..|rs| - 1], user, name, normalize);
    }
  }

  // The record is mapped to an event that brings attributes for the user.
  ghost predicate BringsAttributes(r: RawRecord, user: string, normalize: Body -> Outcome) {
    && normalize(r.body).Mapped? && normalize(r.body).event.user == user
    && exists name :: name in normalize(r.body).event.attributes
  }

  lemma OneOnRecord(s: TenantData, r: RawRecord, user: string, normalize: Body -> Outcome)
    ensures user in HandledOne(s, r, normalize).attributes <==>
      user in s.attributes || BringsAttributes(r, user, normalize)
  {
    if normalize(r.body).Mapped? {
      var e := normalize(r.body).event;
      assert e.attributes == map[] <==> !exists name :: name in e.attributes;
    }
  }

  /** A user has attributes on record exactly when that was so before, or some event brings attributes for the user. */
  lemma {:induction false} UsersOnRecord(s: TenantData, rs: seq<RawRecord>, user: string, normalize: Body -> Outcome)
    ensures user in Handled(s, rs, normalize).attributes <==>
      user in s.attributes || exists r :: r in rs && BringsAttributes(r, user, normalize)
  {
    if rs != [] {
      var before, r := rs[..|rs| - 1], rs[|rs| - 1];
      assert rs == before + [r];
      UsersOnRecord(s, before, user, normalize);
      OneOnRecord(Handled(s, before, normalize), r, user, normalize);
      assert forall x :: x in rs <==> x in before || x == r;
    }
  }

  // The positions of the records that are mapped to an event.
  ghost function MappedAt(rs: seq<RawRecord>, normalize: Body -> Outcome): set<int> {
    set i | 0 <= i < |rs| && normalize(rs[i].body).Mapped?
  }

  /** The number reported as processed is that of the records mapped to an event. */
  lemma {:induction false} CountsMapped(rs: seq<RawRecord>, normalize: Body -> Outcome)
    ensures MappedCount(rs, normalize) == |MappedAt(rs, normalize)|
  {
    if rs != [] {
      var n := |rs| - 1;
      CountsMapped(rs[..n], normalize);
      assert MappedAt(rs, normalize) ==
        MappedAt(rs[..n], normalize) + if normalize(rs[n].body).Mapped? then {n} else {};
    }
  }

  // ---------------------------------------------------------------- delivery is idempotent

  ghost predicate OnePerClientId(raw: seq<RawRecord>) {
    forall i, j :: 0 <= i < j < |raw| ==> raw[i].body.clientEventId != raw[j].body.clientEventId
  }

  lemma {:induction false} AddedKnows(raw: seq<RawRecord>, bodies: seq<Body>)
    ensures raw <= Added(raw, bodies)
    ensures forall b :: b in bodies ==> Known(Added(raw, bodies), b.clientEventId)
    ensures OnePerClientId(raw) ==> OnePerClientId(Added(raw, bodies))
  {
    if bodies != [] {
      var before, last := bodies[..|bodies| - 1], bodies[|bodies| - 1];
      assert bodies == before + [last];
      AddedKnows(raw, before);
      KnownOne(Added(raw, before), RawRecord(RawId(|Added(raw, before)| + 1), last, New, None));
    }
  }

  lemma {:induction false} AllKnownAddsNothing(raw: seq<RawRecord>, bodies: seq<Body>)
    requires forall b :: b in bodies ==> Known(raw, b.clientEventId)
    ensures Added(raw, bodies) == raw
  {
    if bodies != [] {
      assert bodies == bodies[..|bodies| - 1] + [bodies[|bodies| - 1]];
      AllKnownAddsNothing(raw, bodies[..|bodies| - 1]);
    }
  }

  /** Delivering a batch again adds nothing, keeps every stored record as it is, and stores no client id twice. */
  lemma RedeliveryIgnored(raw: seq<RawRecord>, bodies: seq<Body>)
    ensures raw <= Added(raw, bodies) && Added(Added(raw, bodies), bodies) == Added(raw, bodies)
    ensures OnePerClientId(raw) ==> OnePerClientId(Added(raw, bodies))
  {
    AddedKnows(raw, bodies);
    AllKnownAddsNothing(Added(raw, bodies), bodies);
  }

  // ---------------------------------------------------------------- what a delivery adds

  // The body with this index is the first of its client id, which the store does not have yet.
  ghost predicate FirstSeen(raw: seq<RawRecord>, bodies: seq<Body>, n: nat) {
    && n < |bodies| && (forall r :: r in raw ==> r.body.clientEventId != bodies[n].clientEventId)
    && forall m :: 0 <= m < n ==> bodies[m].clientEventId != bodies[n].clientEventId
  }

  // The bodies at these positions are stored behind the old records: numbered, NEW and without an error.
  ghost predicate StoredFrom(raw: seq<RawRecord>, after: seq<RawRecord>, bodies: seq<Body>, at: seq<nat>) {
    && |after| == |raw| + |at| && raw <= after && Increasing(at)
    && forall i :: 0 <= i < |at| ==>
      at[i] < |bodies| && after[|raw| + i] == RawRecord("raw-" + Digits(|raw| + i + 1), bodies[at[i]], New, None)
  }

  /** A delivery stores, in order, exactly the first body of every client id that the store does not have yet. */
  lemma {:induction false} AddedExactly(raw: seq<RawRecord>, bodies: seq<Body>) returns (at: seq<nat>)
    ensures StoredFrom(raw, Added(raw, bodies), bodies, at)
    ensures forall n :: n in at <==> FirstSeen(raw, bodies, n)
  {
    if bodies == [] {
      at := [];
    } else {
      var n := |bodies| - 1;
      var before := AddedExactly(raw, bodies[..n]);
      AddedNext(raw, bodies, n, Added(raw, bodies[..n]), before);
      SeenNext(raw, bodies, n, before);
      at := if FirstSeen(raw, bodies, n) then before + [n] else before;
    }
  }

  lemma AddedNext(raw: seq<RawRecord>, bodies: seq<Body>, n: nat, stored: seq<RawRecord>, at: seq<nat>)
    requires |bodies| == n + 1 && stored == Added(raw, bodies[..n]) && StoredFrom(raw, stored, bodies[..n], at)
    ensures StoredFrom(raw, Added(raw, bodies), bodies, if FirstSeen(raw, bodies, n) then at + [n] else at)
  {
    FirstSeenUnknown(raw, bodies, n);
    SameBodies(raw, stored, bodies, n, at);
    assert |bodies| - 1 == n;
    if FirstSeen(raw, bodies, n) {
      var record := RawRecord("raw-" + Digits(|stored| + 1), bodies[n], New, None);
      assert Added(raw, bodies) == stored + [record];
      StoredNext(raw, stored, record, bodies, n, at);
    }
  }

  lemma FirstSeenUnknown(raw: seq<RawRecord>, bodies: seq<Body>, n: nat)
    requires n < |bodies|
    ensures FirstSeen(raw, bodies, n) <==> !Known(Added(raw, bodies[..n]), bodies[n].clientEventId)
  {
    KnownAfter(raw, bodies[..n], bodies[n].clientEventId);
  }

  lemma StoredNext(raw: seq<RawRecord>, stored: seq<RawRecord>, record: RawRecord, bodies: seq<Body>, n: nat,
                   at: seq<nat>)
    requires |bodies| == n + 1 && StoredFrom(raw, stored, bodies, at) && forall i :: 0 <= i < |at| ==> at[i] < n
    requires record == RawRecord("raw-" + Digits(|stored| + 1), bodies[n], New, None)
    ensures StoredFrom(raw, stored + [record], bodies, at + [n])
  {
  }

  lemma SameBodies(raw: seq<RawRecord>, stored: seq<RawRecord>, bodies: seq<Body>, n: nat, at: seq<nat>)
    requires n <= |bodies| && StoredFrom(raw, stored, bodies[..n], at)
    ensures StoredFrom(raw, stored, bodies, at) && forall i :: 0 <= i < |at| ==> at[i] < n
  {
    forall i | 0 <= i < |at| ensures at[i] < |bodies| && bodies[at[i]] == bodies[..n][at[i]] {
    }
  }

  lemma SeenNext(raw: seq<RawRecord>, bodies: seq<Body>, n: nat, at: seq<nat>)
    requires |bodies| == n + 1 && forall m :: m in at <==> FirstSeen(raw, bodies[..n], m)
    ensures forall m :: m in (if FirstSeen(raw, bodies, n) then at + [n] else at) <==> FirstSeen(raw, bodies, m)
  {
    forall m: nat | m < n ensures FirstSeen(raw, bodies, m) <==> FirstSeen(raw, bodies[..n], m) {
    }
  }

  lemma {:induction false} KnownAfter(raw: seq<RawRecord>, bodies: seq<Body>, id: Option<string>)
    ensures Known(Added(raw, bodies), id) <==>
      (exists r :: r in raw && r.body.clientEventId == id) ||
      exists m :: 0 <= m < |bodies| && bodies[m].clientEventId == id
  {
    if bodies != [] {
      var n := |bodies| - 1;
      KnownAfter(raw, bodies[..n], id);
      KnownOne(Added(raw, bodies[..n]), RawRecord(RawId(|Added(raw, bodies[..n])| + 1), bodies[n], New, None));
    }
  }
}
