/**
 * The selection rules of the scheduling engine: the linear scans that pick
 * the next process, stated as the orders they minimise, and the earliest
 * and latest arrival the engine jumps to.
 */
module Selection {
  import opened Processes

  /** Which key a scan minimises: a time (burst or remaining) or the priority number. */
  datatype Policy = ShortestFirst | PriorityFirst

  /**
   * Priority order of both priority scans: lower priority number, then
   * earlier arrival, then lower index.
   */
  predicate MoreUrgent(ps: seq<Process>, i: int, j: int)
    requires 0 <= i < |ps| && 0 <= j < |ps|
  {
    || ps[i].priority < ps[j].priority
    || (ps[i].priority == ps[j].priority && ps[i].arrivalTime < ps[j].arrivalTime)
    || (ps[i].priority == ps[j].priority && ps[i].arrivalTime == ps[j].arrivalTime && i < j)
  }

  /** Order of the non-preemptive scans: shorter burst then lower index, or more urgent. */
  predicate PrecedesNP(policy: Policy, ps: seq<Process>, i: int, j: int)
    requires 0 <= i < |ps| && 0 <= j < |ps|
  {
    match policy
    case ShortestFirst => ps[i].burstTime < ps[j].burstTime || (ps[i].burstTime == ps[j].burstTime && i < j)
    case PriorityFirst => MoreUrgent(ps, i, j)
  }

  /** Order of the preemptive scans: less remaining time then lower index, or more urgent. */
  predicate PrecedesP(policy: Policy, ps: seq<Process>, i: int, j: int)
    requires 0 <= i < |ps| && 0 <= j < |ps|
  {
    match policy
    case ShortestFirst =>
      ps[i].remainingTime < ps[j].remainingTime || (ps[i].remainingTime == ps[j].remainingTime && i < j)
    case PriorityFirst => MoreUrgent(ps, i, j)
  }

  /** A non-preemptive scan may take process i at time t: not completed and arrived. */
  predicate ReadyNP(ps: seq<Process>, isCompleted: seq<bool>, t: int, i: int)
    requires 0 <= i < |ps| == |isCompleted|
  {
    !isCompleted[i] && ps[i].arrivalTime <= t
  }

  /** A preemptive scan may take process i at time t: arrived and not exhausted. */
  predicate ReadyP(ps: seq<Process>, t: int, i: int)
    requires 0 <= i < |ps|
  {
    ps[i].arrivalTime <= t && ps[i].remainingTime > 0
  }

  /**
   * `idx` is what a non-preemptive scan of the indices below m returns: -1
   * when none of them is ready, otherwise the ready index that precedes
   * every other ready one.
   */
  predicate IsNPChoiceBelow(policy: Policy, ps: seq<Process>, isCompleted: seq<bool>, t: int, m: int, idx: int)
    requires |ps| == |isCompleted| && 0 <= m <= |ps|
  {
    if idx == -1 then forall i :: 0 <= i < m ==> !ReadyNP(ps, isCompleted, t, i)
    else
      && 0 <= idx < m && ReadyNP(ps, isCompleted, t, idx)
      && forall i :: 0 <= i < m && i != idx && ReadyNP(ps, isCompleted, t, i) ==> PrecedesNP(policy, ps, idx, i)
  }

  predicate IsNPChoice(policy: Policy, ps: seq<Process>, isCompleted: seq<bool>, t: int, idx: int)
    requires |ps| == |isCompleted|
  {
    IsNPChoiceBelow(policy, ps, isCompleted, t, |ps|, idx)
  }

  /** The preemptive counterpart of IsNPChoiceBelow. */
  predicate IsPChoiceBelow(policy: Policy, ps: seq<Process>, t: int, m: int, idx: int)
    requires 0 <= m <= |ps|
  {
    if idx == -1 then forall i :: 0 <= i < m ==> !ReadyP(ps, t, i)
    else
      && 0 <= idx < m && ReadyP(ps, t, idx)
      && forall i :: 0 <= i < m && i != idx && ReadyP(ps, t, i) ==> PrecedesP(policy, ps, idx, i)
  }

  predicate IsPChoice(policy: Policy, ps: seq<Process>, t: int, idx: int)
  {
    IsPChoiceBelow(policy, ps, t, |ps|, idx)
  }

  /**
   * The SJF scan: among processes not completed and arrived by t, the
   * shortest burst, the lowest index winning ties (a strict comparison
   * against the best so far), or -1.
   */
  method ShortestJobScan(ps: seq<Process>, isCompleted: seq<bool>, currentTime: int) returns (idx: int)
    requires |isCompleted| == |ps|
    ensures IsNPChoice(ShortestFirst, ps, isCompleted, currentTime, idx)
  {
    idx := -1;
    var minBurst := 0;  // meaningful once idx != -1; before that the source's infinity
    for i := 0 to |ps|
      invariant IsNPChoiceBelow(ShortestFirst, ps, isCompleted, currentTime, i, idx)
      invariant idx != -1 ==> minBurst == ps[idx].burstTime
    {
      if !isCompleted[i] && ps[i].arrivalTime <= currentTime && (idx == -1 || ps[i].burstTime < minBurst) {
        minBurst := ps[i].burstTime;
        idx := i;
      }
    }
  }

  /**
   * The non-preemptive priority scan: among processes not completed and
   * arrived by t, a strictly lower priority number takes over, and so does
   * an equal one with a strictly earlier arrival; so the result is the
   * most urgent ready process, or -1.
   */
  method PriorityScan(ps: seq<Process>, isCompleted: seq<bool>, currentTime: int) returns (idx: int)
    requires |isCompleted| == |ps|
    ensures IsNPChoice(PriorityFirst, ps, isCompleted, currentTime, idx)
  {
    idx := -1;
    var highestPriority := 0;  // meaningful once idx != -1
    for i := 0 to |ps|
      invariant IsNPChoiceBelow(PriorityFirst, ps, isCompleted, currentTime, i, idx)
      invariant idx != -1 ==> highestPriority == ps[idx].priority
    {
      if !isCompleted[i] && ps[i].arrivalTime <= currentTime {
        if idx == -1 || ps[i].priority < highestPriority {
          highestPriority := ps[i].priority;
          idx := i;
        } else if ps[i].priority == highestPriority && ps[i].arrivalTime < ps[idx].arrivalTime {
          idx := i;
        }
      }
    }
  }

  /**
   * The SRTF scan: among processes arrived by t with time left, the least
   * remaining time, the lowest index winning ties, or -1.
   */
  method ShortestRemainingScan(ps: seq<Process>, currentTime: int) returns (idx: int)
    ensures IsPChoice(ShortestFirst, ps, currentTime, idx)
  {
    idx := -1;
    var minRemaining := 0;  // meaningful once idx != -1
    for i := 0 to |ps|
      invariant IsPChoiceBelow(ShortestFirst, ps, currentTime, i, idx)
      invariant idx != -1 ==> minRemaining == ps[idx].remainingTime
    {
      if ps[i].arrivalTime <= currentTime && ps[i].remainingTime > 0 && (idx == -1 || ps[i].remainingTime < minRemaining) {
        minRemaining := ps[i].remainingTime;
        idx := i;
      }
    }
  }

  /**
   * The preemptive priority scan: the priority rule of PriorityScan applied
   * to the processes arrived by t with time left, or -1.
   */
  method PreemptivePriorityScan(ps: seq<Process>, currentTime: int) returns (idx: int)
    ensures IsPChoice(PriorityFirst, ps, currentTime, idx)
  {
    idx := -1;
    var highestPriority := 0;  // meaningful once idx != -1
    for i := 0 to |ps|
      invariant IsPChoiceBelow(PriorityFirst, ps, currentTime, i, idx)
      invariant idx != -1 ==> highestPriority == ps[idx].priority
    {
      if ps[i].arrivalTime <= currentTime && ps[i].remainingTime > 0 {
        if idx == -1 || ps[i].priority < highestPriority {
          highestPriority := ps[i].priority;
          idx := i;
        } else if ps[i].priority == highestPriority && ps[i].arrivalTime < ps[idx].arrivalTime {
          idx := i;
        }
      }
    }
  }

  /** A scan's result is determined by its inputs: two results of the rule agree. */
  lemma NPChoiceUnique(policy: Policy, ps: seq<Process>, isCompleted: seq<bool>, t: int, a: int, b: int)
    requires |ps| == |isCompleted|
    requires IsNPChoice(policy, ps, isCompleted, t, a) && IsNPChoice(policy, ps, isCompleted, t, b)
    ensures a == b
  {
  }

  lemma PChoiceUnique(policy: Policy, ps: seq<Process>, t: int, a: int, b: int)
    requires IsPChoice(policy, ps, t, a) && IsPChoice(policy, ps, t, b)
    ensures a == b
  {
  }

  /** The non-preemptive rule reads only the inputs of the processes. */
  lemma NPChoiceSameJobs(policy: Policy, ps: seq<Process>, qs: seq<Process>, isCompleted: seq<bool>, t: int, idx: int)
    requires SameJobs(ps, qs) && |ps| == |isCompleted|
    ensures IsNPChoice(policy, ps, isCompleted, t, idx) <==> IsNPChoice(policy, qs, isCompleted, t, idx)
  {
    assert forall i :: 0 <= i < |ps| ==> (ReadyNP(ps, isCompleted, t, i) <==> ReadyNP(qs, isCompleted, t, i));
    assert forall i, j :: 0 <= i < |ps| && 0 <= j < |ps| ==> (PrecedesNP(policy, ps, i, j) <==> PrecedesNP(policy, qs, i, j));
  }

  /** The preemptive rule reads only the inputs and the remaining times. */
  lemma PChoiceSameState(policy: Policy, ps: seq<Process>, qs: seq<Process>, t: int, idx: int)
    requires SameJobs(ps, qs)
    requires forall i :: 0 <= i < |ps| ==> ps[i].remainingTime == qs[i].remainingTime
    ensures IsPChoice(policy, ps, t, idx) <==> IsPChoice(policy, qs, t, idx)
  {
    assert forall i :: 0 <= i < |ps| ==> (ReadyP(ps, t, i) <==> ReadyP(qs, t, i));
    assert forall i, j :: 0 <= i < |ps| && 0 <= j < |ps| ==> (PrecedesP(policy, ps, i, j) <==> PrecedesP(policy, qs, i, j));
  }

  /**
   * The earliest arrival among the processes whose flag is clear (the
   * source's `min` over a generator; it needs at least one).
   */
  function EarliestArrival(ps: seq<Process>, excluded: seq<bool>): (m: int)
    requires |excluded| == |ps|
    requires exists i :: 0 <= i < |ps| && !excluded[i]
    ensures exists i :: 0 <= i < |ps| && !excluded[i] && ps[i].arrivalTime == m
    ensures forall i :: 0 <= i < |ps| && !excluded[i] ==> m <= ps[i].arrivalTime
  {
    var k := |ps| - 1;
    if !exists i :: 0 <= i < k && !excluded[i] then ps[k].arrivalTime
    else
      var m := EarliestArrival(ps[..k], excluded[..k]);
      if !excluded[k] && ps[k].arrivalTime < m then ps[k].arrivalTime else m
  }

  /** The latest arrival of a non-empty list (the source's `max` over a generator). */
  function LatestArrival(ps: seq<Process>): (m: int)
    requires ps != []
    ensures exists i :: 0 <= i < |ps| && ps[i].arrivalTime == m
    ensures forall i :: 0 <= i < |ps| ==> ps[i].arrivalTime <= m
  {
    var k := |ps| - 1;
    if k == 0 then ps[0].arrivalTime
    else
      var m := LatestArrival(ps[..k]);
      if ps[k].arrivalTime > m then ps[k].arrivalTime else m
  }
}
