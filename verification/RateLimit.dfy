/** The in-memory token-bucket limiter, and what it guarantees over whole sequences of checks. */
module RateLimit {
  import opened Contracts

  datatype Bucket = Bucket(tokens: real, lastRefill: real)

  // The limiter's settings: the bucket size and the refill rate in tokens per second.
  datatype Limits = Limits(capacity: int, rate: real)

  // A rejected check names the seconds to wait; with a zero rate that division has no result.
  datatype Answer = Accepted | RateLimited(retryAfter: int) | DivisionByZero

  function Min(a: real, b: real): real {
    if a <= b then a else b
  }

  // The tokens refilled between two clock readings; negative when they are out of order.
  function Refill(rate: real, a: real, b: real): real {
    rate * (b - a)
  }

  /** The tokens available to a check at time `now`, before it takes one. A missing bucket is a full one. */
  function Level(lim: Limits, b: Option<Bucket>, now: real): real {
    match b
    case None => Min(lim.capacity as real, lim.capacity as real)
    case Some(bucket) => Min(lim.capacity as real, bucket.tokens + Refill(lim.rate, bucket.lastRefill, now))
  }

  // How long the missing part of a token takes to refill.
  function Wait(rate: real, level: real): real
    requires rate != 0.0
  {
    (1.0 - level) / rate
  }

  function Hint(lim: Limits, level: real): Answer {
    if lim.rate == 0.0 then DivisionByZero else
    var wait := Wait(lim.rate, level).Floor;
    RateLimited(if wait > 1 then wait else 1)
  }

  function AnswerAt(lim: Limits, level: real): Answer {
    if level < 1.0 then Hint(lim, level) else Accepted
  }

  function After(lim: Limits, b: Option<Bucket>, now: real): Bucket {
    var level := Level(lim, b, now);
    Bucket(if level < 1.0 then level else level - 1.0, now)
  }

  class Limiter {
    const limits: Limits
    var buckets: map<string, Bucket>

    constructor (capacity: int, refillPerMinute: int)
      ensures limits == Limits(capacity, refillPerMinute as real / 60.0) && buckets == map[]
      ensures Refill(limits.rate, 0.0, 60.0) == refillPerMinute as real
    {
      limits := Limits(capacity, refillPerMinute as real / 60.0);
      buckets := map[];
    }

    function BucketOf(key: string): Option<Bucket>
      reads this
    {
      if key in buckets then Some(buckets[key]) else None
    }

    /** One check under the lock; `now` was read before the lock was taken. */
    method Check(key: string, now: real) returns (answer: Answer)
      modifies this
      ensures answer == AnswerAt(limits, Level(limits, old(BucketOf(key)), now))
      ensures BucketOf(key) == Some(After(limits, old(BucketOf(key)), now))
      ensures key !in old(buckets) && limits.capacity >= 1 ==>
        answer == Accepted && BucketOf(key) == Some(Bucket(limits.capacity as real - 1.0, now))
      ensures forall other :: other != key ==> BucketOf(other) == old(BucketOf(other))
    {
      var bucket: Bucket;
      if key in buckets {
        bucket := buckets[key];
      } else {
        bucket := Bucket(limits.capacity as real, now);
      }
      var refilled := Refill(limits.rate, bucket.lastRefill, now);
      assert key !in buckets ==> refilled == 0.0;
      bucket := Bucket(Min(limits.capacity as real, bucket.tokens + refilled), now);
      if bucket.tokens < 1.0 {
        buckets := buckets[key := bucket];
        if limits.rate == 0.0 {
          return DivisionByZero;
        }
        var wait := Wait(limits.rate, bucket.tokens).Floor;
        return RateLimited(if wait > 1 then wait else 1);
      }
      bucket := bucket.(tokens := bucket.tokens - 1.0);
      buckets := buckets[key := bucket];
      answer := Accepted;
    }
  }

  // ---------------------------------------------------------------- the checks of one key, in lock order

  /** The bucket of the key after the first n checks, made at the given times. */
  function State(lim: Limits, times: seq<real>, n: nat): Option<Bucket>
    requires n <= |times|
  {
    if n == 0 then None else Some(After(lim, State(lim, times, n - 1), times[n - 1]))
  }

  function LevelAt(lim: Limits, times: seq<real>, n: nat): real
    requires n < |times|
  {
    Level(lim, State(lim, times, n), times[n])
  }

  predicate AcceptedAt(lim: Limits, times: seq<real>, n: nat)
    requires n < |times|
  {
    AnswerAt(lim, LevelAt(lim, times, n)) == Accepted
  }

  function CountAccepted(lim: Limits, times: seq<real>, i: nat, j: nat): nat
    requires i <= j <= |times|
  {
    if i == j then 0 else CountAccepted(lim, times, i, j - 1) + if AcceptedAt(lim, times, j - 1) then 1 else 0
  }

  lemma Telescopes(r: real, a: real, b: real, c: real)
    ensures Refill(r, a, c) == Refill(r, a, b) + Refill(r, b, c)
  {
  }

  lemma RefillSign(r: real, a: real, b: real)
    requires r >= 0.0 && a <= b
    ensures Refill(r, a, b) >= 0.0
  {
  }

  lemma LevelStep(lim: Limits, times: seq<real>, j: nat)
    requires 0 < j < |times|
    ensures LevelAt(lim, times, j) <=
      LevelAt(lim, times, j - 1) - (if AcceptedAt(lim, times, j - 1) then 1.0 else 0.0) +
      Refill(lim.rate, times[j - 1], times[j])
  {
  }

  lemma {:induction false} Accounting(lim: Limits, times: seq<real>, i: nat, j: nat)
    requires i <= j < |times|
    ensures LevelAt(lim, times, j) <=
      LevelAt(lim, times, i) - CountAccepted(lim, times, i, j) as real + Refill(lim.rate, times[i], times[j])
  {
    if i < j {
      Accounting(lim, times, i, j - 1);
      LevelStep(lim, times, j);
      Telescopes(lim.rate, times[i], times[j - 1], times[j]);
    }
  }

  /**
   Rate bound: from any check i up to an accepted check j, at most capacity + rate * (time between)
   checks are accepted, even when the clock readings are out of order.
   */
  lemma RateBound(lim: Limits, times: seq<real>, i: nat, j: nat)
    requires i <= j < |times| && AcceptedAt(lim, times, j)
    ensures CountAccepted(lim, times, i, j + 1) as real <= lim.capacity as real + Refill(lim.rate, times[i], times[j])
  {
    Accounting(lim, times, i, j);
    assert LevelAt(lim, times, i) <= lim.capacity as real;
    assert LevelAt(lim, times, j) >= 1.0;
    assert CountAccepted(lim, times, i, j + 1) == CountAccepted(lim, times, i, j) + 1;
  }

  // ---------------------------------------------------------------- the exact rate law

  // What check i leaves of its bucket for check j, if it started from a full one.
  function Room(lim: Limits, times: seq<real>, i: nat, j: nat): real
    requires i <= j < |times|
  {
    lim.capacity as real - CountAccepted(lim, times, i, j) as real + Refill(lim.rate, times[i], times[j])
  }

  /** Some earlier check, or this one, found the bucket full, and the level follows from there exactly. */
  lemma {:induction false} LevelIsSomeRoom(lim: Limits, times: seq<real>, j: nat) returns (i: nat)
    requires j < |times|
    ensures i <= j && LevelAt(lim, times, j) == Room(lim, times, i, j)
  {
    if j == 0 || LevelAt(lim, times, j) == lim.capacity as real {
      i := j;
    } else {
      i := LevelIsSomeRoom(lim, times, j - 1);
      Telescopes(lim.rate, times[i], times[j - 1], times[j]);
    }
  }

  // Counted from check a, check b and the accepted checks since then stay within the capacity plus the refill.
  ghost predicate WithinAt(lim: Limits, times: seq<real>, a: nat, b: nat)
    requires a <= b < |times|
  {
    CountAccepted(lim, times, a, b) as real + 1.0 <= lim.capacity as real + Refill(lim.rate, times[a], times[b])
  }

  lemma RoomBounds(lim: Limits, times: seq<real>, a: nat, b: nat)
    requires a <= b < |times|
    ensures LevelAt(lim, times, b) <= Room(lim, times, a, b)
    ensures WithinAt(lim, times, a, b) <==> Room(lim, times, a, b) >= 1.0
  {
    Accounting(lim, times, a, b);
    assert LevelAt(lim, times, a) <= lim.capacity as real;
  }

  lemma AcceptedFromOne(lim: Limits, times: seq<real>, b: nat)
    requires b < |times|
    ensures AcceptedAt(lim, times, b) <==> LevelAt(lim, times, b) >= 1.0
  {
  }

  /**
   The exact rate law, for any clock: a check is accepted if and only if, counted from each check before it and from
   itself, it and the accepted checks since then stay within the capacity plus what is refilled meanwhile.
   */
  lemma RateLaw(lim: Limits, times: seq<real>, b: nat)
    requires b < |times|
    ensures AcceptedAt(lim, times, b) <==> forall a :: 0 <= a <= b ==> WithinAt(lim, times, a, b)
  {
    AcceptedFromOne(lim, times, b);
    var least := LevelIsSomeRoom(lim, times, b);
    RoomBounds(lim, times, least, b);
    forall a | 0 <= a <= b && AcceptedAt(lim, times, b) ensures WithinAt(lim, times, a, b) {
      RoomBounds(lim, times, a, b);
    }
  }

  /** A new key may be used up to the capacity at once. */
  lemma {:induction false} BurstAllowed(lim: Limits, times: seq<real>, n: nat)
    requires n < |times| && n < lim.capacity && forall i :: 0 <= i < |times| ==> times[i] == times[0]
    ensures AcceptedAt(lim, times, n) && CountAccepted(lim, times, 0, n) == n
  {
    CountAtMost(lim, times, 0, n);
    if n > 0 {
      BurstAllowed(lim, times, n - 1);
    }
    forall i | 0 <= i <= n ensures WithinAt(lim, times, i, n) {
      CountAtMost(lim, times, i, n);
      assert Refill(lim.rate, times[i], times[n]) == 0.0;
    }
    RateLaw(lim, times, n);
  }

  lemma {:induction false} CountAtMost(lim: Limits, times: seq<real>, i: nat, j: nat)
    requires i <= j <= |times|
    ensures CountAccepted(lim, times, i, j) <= j - i
  {
    if i < j {
      CountAtMost(lim, times, i, j - 1);
    }
  }

  // ---------------------------------------------------------------- checks of many keys, interleaved

  // One check made on the limiter, in lock order.
  datatype CheckCall = CheckCall(key: string, time: real)

  /** The bucket of a key after these checks on a new limiter. */
  ghost function BucketAfter(lim: Limits, calls: seq<CheckCall>, key: string): Option<Bucket> {
    if calls == [] then None else
    var last, before := calls[|calls| - 1], BucketAfter(lim, calls[..|calls| - 1], key);
    if last.key == key then Some(After(lim, before, last.time)) else before
  }

  ghost function AnswerTo(lim: Limits, calls: seq<CheckCall>, n: nat): Answer
    requires n < |calls|
  {
    AnswerAt(lim, Level(lim, BucketAfter(lim, calls[..n], calls[n].key), calls[n].time))
  }

  /** What a new limiter answers to any sequence of checks. */
  method CheckAll(limiter: Limiter, calls: seq<CheckCall>) returns (answers: seq<Answer>)
    requires limiter.buckets == map[]
    modifies limiter
    ensures |answers| == |calls| && forall n :: 0 <= n < |calls| ==> answers[n] == AnswerTo(limiter.limits, calls, n)
    ensures forall key :: limiter.BucketOf(key) == BucketAfter(limiter.limits, calls, key)
  {
    answers := [];
    for n := 0 to |calls|
      invariant |answers| == n && forall m :: 0 <= m < n ==> answers[m] == AnswerTo(limiter.limits, calls, m)
      invariant forall key :: limiter.BucketOf(key) == BucketAfter(limiter.limits, calls[..n], key)
    {
      var answer := limiter.Check(calls[n].key, calls[n].time);
      assert calls[..n + 1][..n] == calls[..n];
      answers := answers + [answer];
    }
    assert calls[..|calls|] == calls;
  }

  // The times of the checks of one key.
  ghost function Times(calls: seq<CheckCall>, key: string): seq<real> {
    if calls == [] then [] else
    var last, before := calls[|calls| - 1], Times(calls[..|calls| - 1], key);
    if last.key == key then before + [last.time] else before
  }

  /** Keys do not disturb each other: a bucket depends on the checks of its own key only. */
  lemma {:induction false} KeysApart(lim: Limits, calls: seq<CheckCall>, key: string)
    ensures BucketAfter(lim, calls, key) == State(lim, Times(calls, key), |Times(calls, key)|)
  {
    if calls != [] {
      var before, last := calls[..|calls| - 1], calls[|calls| - 1];
      KeysApart(lim, before, key);
      StateOfPrefix(lim, Times(before, key), [last.time], |Times(before, key)|);
    }
  }

  lemma {:induction false} TimesSplit(calls: seq<CheckCall>, n: nat, key: string) returns (rest: seq<real>)
    requires n <= |calls|
    ensures Times(calls, key) == Times(calls[..n], key) + rest
    ensures n < |calls| && calls[n].key == key ==> rest != [] && rest[0] == calls[n].time
  {
    if n == |calls| {
      rest := [];
      assert calls[..n] == calls;
    } else {
      var before, last := calls[..|calls| - 1], calls[|calls| - 1];
      assert before[..n] == calls[..n];
      var inner := TimesSplit(before, n, key);
      rest := if last.key == key then inner + [last.time] else inner;
    }
  }

  // Which of the key's own checks the n-th call is, and that both give the same answer.
  lemma CallOfKey(lim: Limits, calls: seq<CheckCall>, n: nat) returns (m: nat)
    requires n < |calls|
    ensures var key := calls[n].key;
      && m == |Times(calls[..n], key)| < |Times(calls, key)| && Times(calls, key)[m] == calls[n].time
      && AnswerTo(lim, calls, n) == AnswerAt(lim, LevelAt(lim, Times(calls, key), m))
  {
    var key := calls[n].key;
    m := |Times(calls[..n], key)|;
    var rest := TimesSplit(calls, n, key);
    KeysApart(lim, calls[..n], key);
    StateOfPrefix(lim, Times(calls[..n], key), rest, m);
  }

  lemma AcceptedMeans(lim: Limits, calls: seq<CheckCall>, n: nat, m: nat)
    requires n < |calls| && m < |Times(calls, calls[n].key)|
    requires AnswerTo(lim, calls, n) == AnswerAt(lim, LevelAt(lim, Times(calls, calls[n].key), m))
    ensures AnswerTo(lim, calls, n) == Accepted <==> AcceptedAt(lim, Times(calls, calls[n].key), m)
  {
  }

  lemma CountOne(lim: Limits, times: seq<real>, i: nat, m: nat)
    requires i <= m < |times|
    ensures CountAccepted(lim, times, i, m + 1) ==
      CountAccepted(lim, times, i, m) + if AcceptedAt(lim, times, m) then 1 else 0
  {
  }

  // How many checks of the key are accepted from call i up to, but not including, call j.
  ghost function AcceptedCalls(lim: Limits, calls: seq<CheckCall>, key: string, i: nat, j: nat): nat
    requires i <= j <= |calls|
  {
    if i == j then 0 else
    var before := AcceptedCalls(lim, calls, key, i, j - 1);
    if calls[j - 1].key == key && AnswerTo(lim, calls, j - 1) == Accepted then before + 1 else before
  }

  lemma TimesNext(calls: seq<CheckCall>, n: nat, key: string)
    requires n < |calls|
    ensures Times(calls[..n + 1], key) == Times(calls[..n], key) + if calls[n].key == key then [calls[n].time] else []
  {
    assert calls[..n + 1][..n] == calls[..n];
  }

  lemma TimesGrow(calls: seq<CheckCall>, i: nat, j: nat, key: string)
    requires i <= j <= |calls|
    ensures |Times(calls[..i], key)| <= |Times(calls[..j], key)| <= |Times(calls, key)|
  {
    assert calls[..j][..i] == calls[..i];
    var a := TimesSplit(calls[..j], i, key);
    var b := TimesSplit(calls, j, key);
  }

  lemma {:induction false} SameCount(lim: Limits, calls: seq<CheckCall>, key: string, i: nat, j: nat)
    requires i <= j <= |calls|
    ensures |Times(calls[..i], key)| <= |Times(calls[..j], key)| <= |Times(calls, key)|
    ensures AcceptedCalls(lim, calls, key, i, j) ==
      CountAccepted(lim, Times(calls, key), |Times(calls[..i], key)|, |Times(calls[..j], key)|)
  {
    TimesGrow(calls, i, j, key);
    if i < j {
      SameCount(lim, calls, key, i, j - 1);
      SameCountStep(lim, calls, key, i, j - 1, Times(calls, key), |Times(calls[..i], key)|,
                    |Times(calls[..j - 1], key)|);
    }
  }

  lemma SameCountStep(lim: Limits, calls: seq<CheckCall>, key: string, i: nat, j: nat, times: seq<real>, a: nat, b: nat)
    requires i <= j < |calls| && times == Times(calls, key) && b == |Times(calls[..j], key)| && a <= b <= |times|
    requires AcceptedCalls(lim, calls, key, i, j) == CountAccepted(lim, times, a, b)
    ensures b <= |Times(calls[..j + 1], key)| <= |times|
    ensures AcceptedCalls(lim, calls, key, i, j + 1) == CountAccepted(lim, times, a, |Times(calls[..j + 1], key)|)
  {
    TimesNext(calls, j, key);
    if calls[j].key == key {
      var m := CallOfKey(lim, calls, j);
      AcceptedMeans(lim, calls, j, m);
      CountOne(lim, times, a, m);
    }
  }

  /** The rate bound for one key of a limiter that serves any number of keys at once. */
  lemma RateBoundInterleaved(lim: Limits, calls: seq<CheckCall>, i: nat, j: nat)
    requires i <= j < |calls| && calls[i].key == calls[j].key && AnswerTo(lim, calls, j) == Accepted
    ensures AcceptedCalls(lim, calls, calls[j].key, i, j + 1) as real <=
      lim.capacity as real + Refill(lim.rate, calls[i].time, calls[j].time)
  {
    var a, b := SpanOfKey(lim, calls, i, j);
    var count := AcceptedCalls(lim, calls, calls[j].key, i, j + 1);
    RateBoundAt(lim, Times(calls, calls[j].key), a, b, calls[i].time, calls[j].time, count);
  }

  lemma SpanOfKey(lim: Limits, calls: seq<CheckCall>, i: nat, j: nat) returns (a: nat, b: nat)
    requires i <= j < |calls| && calls[i].key == calls[j].key && AnswerTo(lim, calls, j) == Accepted
    ensures var times := Times(calls, calls[j].key);
      && a <= b < |times| && AcceptedAt(lim, times, b) && times[a] == calls[i].time && times[b] == calls[j].time
      && AcceptedCalls(lim, calls, calls[j].key, i, j + 1) == CountAccepted(lim, times, a, b + 1)
  {
    var key := calls[j].key;
    a := CallOfKey(lim, calls, i);
    b := CallOfKey(lim, calls, j);
    AcceptedMeans(lim, calls, j, b);
    TimesGrow(calls, i, j, key);
    TimesNext(calls, j, key);
    SameCount(lim, calls, key, i, j + 1);
  }

  // The m-th check of a key stands somewhere among the calls.
  lemma {:induction false} CallAt(lim: Limits, calls: seq<CheckCall>, key: string, n: nat, m: nat) returns (i: nat)
    requires n <= |calls| && m < |Times(calls[..n], key)|
    ensures i < n && calls[i].key == key && |Times(calls[..i], key)| == m
  {
    TimesNext(calls, n - 1, key);
    if m < |Times(calls[..n - 1], key)| {
      i := CallAt(lim, calls, key, n - 1, m);
    } else {
      i := n - 1;
    }
  }

  // One instance of the law: call i of the key, seen from call j.
  ghost predicate WithinFrom(lim: Limits, calls: seq<CheckCall>, i: nat, j: nat)
    requires i <= j < |calls|
  {
    AcceptedCalls(lim, calls, calls[j].key, i, j) as real + 1.0 <=
      lim.capacity as real + Refill(lim.rate, calls[i].time, calls[j].time)
  }

  lemma SameWithin(lim: Limits, calls: seq<CheckCall>, i: nat, j: nat) returns (a: nat, b: nat)
    requires i <= j < |calls| && calls[i].key == calls[j].key
    ensures var times := Times(calls, calls[j].key);
      && a == |Times(calls[..i], calls[j].key)| <= b == |Times(calls[..j], calls[j].key)| < |times|
      && (WithinFrom(lim, calls, i, j) <==> WithinAt(lim, times, a, b))
  {
    a := CallOfKey(lim, calls, i);
    b := CallOfKey(lim, calls, j);
    SameCount(lim, calls, calls[j].key, i, j);
  }

  /** The exact rate law for each key of a limiter that serves any number of keys at once. */
  lemma RateLawInterleaved(lim: Limits, calls: seq<CheckCall>, j: nat)
    requires j < |calls|
    ensures AnswerTo(lim, calls, j) == Accepted <==>
      forall i :: 0 <= i <= j && calls[i].key == calls[j].key ==> WithinFrom(lim, calls, i, j)
  {
    var key := calls[j].key;
    var b := CallOfKey(lim, calls, j);
    AcceptedMeans(lim, calls, j, b);
    RateLaw(lim, Times(calls, key), b);
    forall i | 0 <= i <= j && calls[i].key == key && AnswerTo(lim, calls, j) == Accepted
      ensures WithinFrom(lim, calls, i, j)
    {
      var a, c := SameWithin(lim, calls, i, j);
    }
    forall a | 0 <= a <= b && (forall i :: 0 <= i <= j && calls[i].key == key ==> WithinFrom(lim, calls, i, j))
      ensures WithinAt(lim, Times(calls, key), a, b)
    {
      TimesNext(calls, j, key);
      var i := CallAt(lim, calls, key, j + 1, a);
      var d, c := SameWithin(lim, calls, i, j);
    }
  }

  lemma RateBoundAt(lim: Limits, times: seq<real>, a: nat, b: nat, from: real, to: real, count: nat)
    requires a <= b < |times| && AcceptedAt(lim, times, b) && times[a] == from && times[b] == to
    requires count == CountAccepted(lim, times, a, b + 1)
    ensures count as real <= lim.capacity as real + Refill(lim.rate, from, to)
  {
    RateBound(lim, times, a, b);
  }

  // ---------------------------------------------------------------- rejected checks leave no trace

  ghost predicate Monotone(times: seq<real>) {
    forall i, j :: 0 <= i < j < |times| ==> times[i] <= times[j]
  }

  /** The times of the accepted checks only. */
  function KeepAccepted(lim: Limits, times: seq<real>, n: nat): seq<real>
    requires n <= |times|
  {
    if n == 0 then []
    else if AcceptedAt(lim, times, n - 1) then KeepAccepted(lim, times, n - 1) + [times[n - 1]]
    else KeepAccepted(lim, times, n - 1)
  }

  lemma RefillComposes(lim: Limits, b: Bucket, m: real, now: real)
    requires lim.rate >= 0.0 && m <= now
    ensures Level(lim, Some(Bucket(Level(lim, Some(b), m), m)), now) == Level(lim, Some(b), now)
  {
    RefillSign(lim.rate, m, now);
    Telescopes(lim.rate, b.lastRefill, m, now);
  }

  /** Buckets that give the same level from some time on cannot be told apart after it. */
  ghost predicate SameFrom(lim: Limits, a: Option<Bucket>, b: Option<Bucket>, from: real) {
    forall now :: now >= from ==> Level(lim, a, now) == Level(lim, b, now)
  }

  lemma RejectedKeepsLevel(lim: Limits, b: Option<Bucket>, m: real)
    requires lim.rate >= 0.0 && Level(lim, b, m) < 1.0
    ensures SameFrom(lim, Some(After(lim, b, m)), b, m)
  {
    forall now | now >= m ensures Level(lim, Some(After(lim, b, m)), now) == Level(lim, b, now) {
      match b
      case None =>
        RefillSign(lim.rate, m, now);
      case Some(bucket) =>
        RefillComposes(lim, bucket, m, now);
    }
  }

  lemma {:induction false} StateOfPrefix(lim: Limits, times: seq<real>, more: seq<real>, n: nat)
    requires n <= |times|
    ensures State(lim, times + more, n) == State(lim, times, n)
  {
    if n > 0 {
      StateOfPrefix(lim, times, more, n - 1);
    }
  }

  /** Dropping every rejected check from a history leaves a bucket with the same levels from then on. */
  lemma {:induction false} ForgetRejected(lim: Limits, times: seq<real>, n: nat)
    requires lim.rate >= 0.0 && n <= |times| && Monotone(times)
    ensures var kept := KeepAccepted(lim, times, n);
      n > 0 ==> SameFrom(lim, State(lim, times, n), State(lim, kept, |kept|), times[n - 1])
  {
    if n > 0 {
      var m, b := times[n - 1], State(lim, times, n - 1);
      var before := KeepAccepted(lim, times, n - 1);
      ForgetRejected(lim, times, n - 1);
      assert n > 1 ==> times[n - 2] <= m;
      var k := State(lim, before, |before|);
      assert SameFrom(lim, b, k, m);
      if AcceptedAt(lim, times, n - 1) {
        StateOfPrefix(lim, before, [m], |before|);
        assert Level(lim, b, m) == Level(lim, k, m);
      } else {
        RejectedKeepsLevel(lim, b, m);
      }
    }
  }

  /** With a monotone clock, rejected checks never change a later answer. */
  lemma RejectedLeaveNoTrace(lim: Limits, times: seq<real>, now: real)
    requires lim.rate >= 0.0 && Monotone(times)
    requires forall i :: 0 <= i < |times| ==> times[i] <= now
    ensures var kept := KeepAccepted(lim, times, |times|);
      AnswerAt(lim, Level(lim, State(lim, times, |times|), now)) ==
        AnswerAt(lim, Level(lim, State(lim, kept, |kept|), now))
  {
    ForgetRejected(lim, times, |times|);
  }

  // ---------------------------------------------------------------- the retry hint

  lemma {:induction false} LevelWhileRejected(lim: Limits, times: seq<real>, i: nat, j: nat)
    requires lim.rate >= 0.0 && i < j < |times| && Monotone(times)
    requires forall k :: i <= k < j ==> !AcceptedAt(lim, times, k)
    ensures LevelAt(lim, times, j) == Level(lim, State(lim, times, i), times[j])
  {
    RejectedSame(lim, times, i, j, times[j]);
  }

  lemma {:induction false} RejectedSame(lim: Limits, times: seq<real>, i: nat, j: nat, now: real)
    requires lim.rate >= 0.0 && i <= j <= |times| && Monotone(times)
    requires forall k :: i <= k < j ==> !AcceptedAt(lim, times, k)
    requires j > 0 ==> times[j - 1] <= now
    ensures Level(lim, State(lim, times, j), now) == Level(lim, State(lim, times, i), now)
  {
    if i < j {
      assert !AcceptedAt(lim, times, j - 1);
      RejectedKeepsLevel(lim, State(lim, times, j - 1), times[j - 1]);
      assert j > 1 ==> times[j - 2] <= times[j - 1];
      RejectedSame(lim, times, i, j - 1, now);
    }
  }

  /** Waiting `h` refills the missing part of a token exactly when h is at least the wait. */
  lemma WaitMeaning(rate: real, level: real, at: real, h: real)
    requires rate > 0.0
    ensures level + Refill(rate, at, at + h) >= 1.0 <==> h >= Wait(rate, level)
  {
    var w := Wait(rate, level);
    assert rate * w == 1.0 - level;
    assert Refill(rate, at, at + h) == rate * h;
    Compare(rate, h, w);
  }

  lemma Compare(rate: real, a: real, b: real)
    requires rate > 0.0
    ensures rate * a >= rate * b <==> a >= b
  {
    assert rate * (a - b) == rate * a - rate * b;
  }

  // A bucket left at a level below one token is full again after waiting long enough.
  lemma WaitedLongEnough(lim: Limits, level: real, at: real, later: real, h: int)
    requires lim.capacity >= 1 && lim.rate > 0.0
    requires Hint(lim, level) == RateLimited(h) && later >= at + h as real + 1.0
    ensures Level(lim, Some(Bucket(level, at)), later) >= 1.0
  {
    var w := Wait(lim.rate, level);
    assert w < w.Floor as real + 1.0;
    WaitMeaning(lim.rate, level, at, later - at);
    assert at + (later - at) == later;
  }

  /**
   The hint plus one second is enough: a caller rejected with hint h is accepted at any later check made
   at least h + 1 seconds after, when nothing was accepted in between.
   */
  lemma HintPlusOneSuffices(lim: Limits, times: seq<real>, i: nat, j: nat, h: int)
    requires lim.capacity >= 1 && lim.rate > 0.0 && i < j < |times| && Monotone(times)
    requires AnswerAt(lim, LevelAt(lim, times, i)) == RateLimited(h)
    requires forall k :: i <= k < j ==> !AcceptedAt(lim, times, k)
    requires times[j] >= times[i] + h as real + 1.0
    ensures AcceptedAt(lim, times, j)
  {
    var b, level := State(lim, times, i), LevelAt(lim, times, i);
    assert !AcceptedAt(lim, times, i);
    LevelWhileRejected(lim, times, i, j);
    RejectedKeepsLevel(lim, b, times[i]);
    WaitedLongEnough(lim, level, times[i], times[j], h);
  }

  /**
   The hint alone is enough exactly when the missing part of a token is refilled within one second, or
   takes a whole number of seconds: truncation loses the rest.
   */
  lemma HintAloneSuffices(lim: Limits, level: real, now: real, h: int)
    requires lim.capacity >= 1 && lim.rate > 0.0 && level < 1.0 && Hint(lim, level) == RateLimited(h)
    ensures var wait := Wait(lim.rate, level);
      AnswerAt(lim, Level(lim, Some(Bucket(level, now)), now + h as real)) == Accepted <==>
      (wait <= 1.0 || wait == wait.Floor as real)
  {
    var wait := Wait(lim.rate, level);
    assert wait.Floor as real <= wait < wait.Floor as real + 1.0;
    WaitMeaning(lim.rate, level, now, h as real);
  }

  /**
   With a bucket of one token and half a token per second: the check at 0.0 is accepted, the one at 0.5 is told to
   wait one second, and the one made exactly then, at 1.5, is rejected again.
   */
  lemma HintCanBeEarly()
    ensures var lim, times := Limits(1, 0.5), [0.0, 0.5, 1.5];
      && AcceptedAt(lim, times, 0)
      && AnswerAt(lim, LevelAt(lim, times, 1)) == RateLimited(1)
      && times[2] == times[1] + 1.0 && !AcceptedAt(lim, times, 2)
  {
    var lim, times := Limits(1, 0.5), [0.0, 0.5, 1.5];
    assert State(lim, times, 1) == Some(Bucket(0.0, 0.0));
    assert Refill(0.5, 0.0, 0.5) == 0.25 && Refill(0.5, 0.5, 1.5) == 0.5;
    assert LevelAt(lim, times, 1) == 0.25;
    assert State(lim, times, 2) == Some(Bucket(0.25, 0.5));
    assert LevelAt(lim, times, 2) == 0.75;
    assert Wait(0.5, 0.25) == 1.5 && (1.5).Floor == 1;
  }
}
