/** The outcomes of the ALLOCATE stage, and counting candidates by id. */
module Accounting {
  import opened Contracts
  import opened Ordering
  import opened Bundles
  import opened Candidates

  datatype Arm = Engine | Naive | Control

  // The unit of assignment: the circle for a group candidate, otherwise the user.
  function Unit(c: Candidate): string {
    if c.group.Some? then GroupKey(c.group.value) else c.user
  }

  // One recommendation to make. A group pick has the circle and its members.
  datatype Pick = Pick(
    arm: Arm, ids: seq<string>, runnerUpIds: seq<string>, rank: Option<nat>, cost: nat, priority: real,
    group: Option<string>, members: seq<string>)

  // The decision recorded for a candidate the allocator never sees.
  function Extra(c: Candidate, reason: Reason, priority: real): Decision {
    Decision(c.id, Unit(c), false, priority, c.cost, None, false, Some(reason))
  }

  // The ids of all candidates some pick stands for.
  function PickIds(picks: seq<Pick>): seq<string> {
    if picks == [] then [] else PickIds(picks[..|picks| - 1]) + picks[|picks| - 1].ids
  }

  ghost function Single(id: string, present: bool): multiset<string> {
    if present then multiset{id} else multiset{}
  }

  /** The ids of the candidates with a property, with multiplicity. */
  ghost function IdsWhere(cs: seq<Candidate>, p: Candidate -> bool): multiset<string> {
    if cs == [] then multiset{}
    else IdsWhere(cs[..|cs| - 1], p) + Single(cs[|cs| - 1].id, p(cs[|cs| - 1]))
  }

  lemma IdsWhereOne(cs: seq<Candidate>, c: Candidate, p: Candidate -> bool)
    ensures IdsWhere(cs + [c], p) == IdsWhere(cs, p) + Single(c.id, p(c))
  {
    assert (cs + [c])[..|cs|] == cs;
  }

  /** A property splits the candidates into two parts with no overlap. */
  lemma {:induction false} IdsWhereSplit(cs: seq<Candidate>, p: Candidate -> bool, q: Candidate -> bool,
                                         r: Candidate -> bool)
    requires forall c :: c in cs ==> (p(c) <==> q(c) || r(c)) && !(q(c) && r(c))
    ensures IdsWhere(cs, p) == IdsWhere(cs, q) + IdsWhere(cs, r)
  {
    if cs != [] {
      assert cs[|cs| - 1] in cs;
      IdsWhereSplit(cs[..|cs| - 1], p, q, r);
    }
  }

  lemma {:induction false} IdsWhereConcat(a: seq<Candidate>, b: seq<Candidate>, p: Candidate -> bool)
    ensures IdsWhere(a + b, p) == IdsWhere(a, p) + IdsWhere(b, p)
  {
    if b == [] {
      assert a + b == a;
    } else {
      assert (a + b)[..|a + b| - 1] == a + b[..|b| - 1];
      IdsWhereConcat(a, b[..|b| - 1], p);
    }
  }

  lemma IdsWhereMiddle(x: seq<Candidate>, y: seq<Candidate>, z: seq<Candidate>, p: Candidate -> bool)
    ensures IdsWhere(x + y + z, p) == IdsWhere(y, p) + IdsWhere(x + z, p)
  {
    IdsWhereConcat(x + y, z, p);
    IdsWhereConcat(x, y, p);
    IdsWhereConcat(x, z, p);
  }

  lemma IdsWhereRemove(b: seq<Candidate>, j: nat, p: Candidate -> bool)
    requires j < |b|
    ensures IdsWhere(b, p) == IdsWhere([b[j]], p) + IdsWhere(b[..j] + b[j + 1..], p)
  {
    AroundOne(b, j);
    IdsWhereMiddle(b[..j], [b[j]], b[j + 1..], p);
  }

  lemma {:induction false} IdsWherePermuted(a: seq<Candidate>, b: seq<Candidate>, p: Candidate -> bool)
    requires multiset(a) == multiset(b)
    ensures IdsWhere(a, p) == IdsWhere(b, p)
  {
    if a == [] {
      assert |multiset(b)| == 0;
    } else {
      var j := RemoveFirst(a, b);
      IdsWherePermuted(a[1..], b[..j] + b[j + 1..], p);
      IdsWhereRemove(b, j, p);
      assert a == [a[0]] + a[1..];
      IdsWhereConcat([a[0]], a[1..], p);
    }
  }

  /** Everyone counted: the ids of the whole list. */
  lemma {:induction false} IdsWhereAll(cs: seq<Candidate>, p: Candidate -> bool)
    requires forall c :: c in cs ==> p(c)
    ensures IdsWhere(cs, p) == multiset(Ids(cs))
  {
    if cs != [] {
      assert cs[|cs| - 1] in cs;
      IdsWhereAll(cs[..|cs| - 1], p);
      assert Ids(cs) == Ids(cs[..|cs| - 1]) + [cs[|cs| - 1].id];
    }
  }

  lemma ExtraIdsOne(extras: seq<Decision>, d: Decision)
    ensures multiset(DecisionIds(extras + [d])) == multiset(DecisionIds(extras)) + Single(d.candidateId, true)
  {
    assert DecisionIds(extras + [d]) == DecisionIds(extras) + [d.candidateId];
  }

  lemma ExtraIdsConcat(a: seq<Decision>, b: seq<Decision>)
    ensures DecisionIds(a + b) == DecisionIds(a) + DecisionIds(b)
    ensures multiset(DecisionIds(a + b)) == multiset(DecisionIds(a)) + multiset(DecisionIds(b))
  {
    assert DecisionIds(a + b) == DecisionIds(a) + DecisionIds(b);
  }

  lemma {:induction false} PickIdsConcat(a: seq<Pick>, b: seq<Pick>)
    ensures PickIds(a + b) == PickIds(a) + PickIds(b)
  {
    if b == [] {
      assert a + b == a;
    } else {
      assert (a + b)[..|a + b| - 1] == a + b[..|b| - 1];
      PickIdsConcat(a, b[..|b| - 1]);
    }
  }
}
