/** The domain vocabulary shared by the decision stages. */
module Contracts {

  datatype Option<+T> = None | Some(value: T)

  function Lookup<K, V>(m: map<K, V>, k: K): Option<V> {
    if k in m then Some(m[k]) else None
  }

  datatype Circle = Circle(id: string, members: seq<string>)

  datatype Segment = Persuadable | SureThing | LostCause | SleepingDog

  // One (user, incentive) pair. Group candidates carry the id of their circle.
  datatype Candidate = Candidate(
    id: string, user: string, incentive: string, cost: nat, group: Option<string>,
    encouragesBorrowing: bool, changesCreditTerms: bool, churnRisk: real, segment: Segment)

  datatype Ranked = Ranked(candidate: Candidate, priority: real)

  datatype Reason =
    | BudgetExhausted
    | RunnerUp
    | NoExpectedGain
    | PolicyResponsibleLending
    | PolicyFrequencyCap
    | PolicyNoCreditDecision
    | SegmentExcluded(segment: Segment)
    | GroupMemberDenied
    | ControlHoldout
    | NaiveBelowThreshold
    | NaiveNotChosen

  datatype Decision = Decision(
    candidateId: string, key: string, selected: bool, priority: real, cost: nat,
    rank: Option<nat>, isRunnerUp: bool, reason: Option<Reason>)

  datatype Strategy = ExactDP | GreedyDensity

  datatype AllocationResult = AllocationResult(
    strategy: Strategy, budget: nat, spent: nat, objective: real, decisions: seq<Decision>)

  function DecisionIds(ds: seq<Decision>): (r: seq<string>)
    ensures |r| == |ds| && forall i :: 0 <= i < |r| ==> r[i] == ds[i].candidateId
  {
    seq(|ds|, i requires 0 <= i < |ds| => ds[i].candidateId)
  }
}
