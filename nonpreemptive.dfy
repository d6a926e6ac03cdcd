/**
 * The shared run of the two non-preemptive selection algorithms (SJF and
 * non-preemptive priority), stated as a sequence of decisions: at each
 * decision point the clock is at the earliest time a process is ready,
 * the selection rule picks one ready process, and that process runs to
 * completion.
 */
module NonPreemptive {
  import opened Processes
  import opened Gantt
  import opened Metrics
  import opened Selection

  /** The loop's state between decisions: the working list, the completed flags, the clock and the chart. */
  datatype State = State(ps: seq<Process>, done: seq<bool>, time: int, gantt: seq<GanttEntry>)

  predicate Consistent(s: State) {
    |s.done| == |s.ps|
  }

  function Initial(ps0: seq<Process>): (s: State)
    ensures Consistent(s) && s.ps == ps0
  {
    State(ps0, seq(|ps0|, _ => false), 0, [])
  }

  predicate SomeReady(s: State)
    requires Consistent(s)
  {
    exists i :: 0 <= i < |s.ps| && ReadyNP(s.ps, s.done, s.time, i)
  }

  predicate SomeLeft(s: State)
    requires Consistent(s)
  {
    exists i :: 0 <= i < |s.ps| && !s.done[i]
  }

  /**
   * The time of the next decision: the clock itself when a process is
   * ready, otherwise the earliest arrival among the processes not yet
   * completed.  It is the first time from the clock on at which some
   * process is ready.
   */
  function Dispatch(s: State): (t: int)
    requires Consistent(s)
    ensures t >= s.time
    ensures SomeLeft(s) ==> exists i :: 0 <= i < |s.ps| && ReadyNP(s.ps, s.done, t, i)
    ensures forall i, u :: 0 <= i < |s.ps| && s.time <= u < t ==> !ReadyNP(s.ps, s.done, u, i)
  {
    if SomeReady(s) || !SomeLeft(s) then s.time
    else
      var t := EarliestArrival(s.ps, s.done);
      assert forall i :: 0 <= i < |s.ps| && !s.done[i] ==> s.ps[i].arrivalTime > s.time by {
        forall i | 0 <= i < |s.ps| && !s.done[i] ensures s.ps[i].arrivalTime > s.time {
          assert !ReadyNP(s.ps, s.done, s.time, i);
        }
      }
      var k :| 0 <= k < |s.ps| && !s.done[k] && s.ps[k].arrivalTime == t;
      assert ReadyNP(s.ps, s.done, t, k);
      t
  }

  /** Process idx runs to completion from time t and is marked completed. */
  function RunJob(s: State, idx: int, t: int): (r: State)
    requires Consistent(s) && 0 <= idx < |s.ps|
    ensures Consistent(r)
  {
    var p := ServeAt(s.ps[idx], t);
    State(s.ps[idx := p], s.done[idx := true], p.completionTime,
          s.gantt + [GanttEntry(p.pid, t, p.completionTime)])
  }

  /** Serving process idx at t, written out field by field. */
  lemma RunJobShape(s: State, idx: int, t: int)
    requires Consistent(s) && 0 <= idx < |s.ps|
    ensures RunJob(s, idx, t)
      == State(s.ps[idx := ServeAt(s.ps[idx], t)], s.done[idx := true], t + s.ps[idx].burstTime,
               s.gantt + [GanttEntry(s.ps[idx].pid, t, t + s.ps[idx].burstTime)])
  {
  }

  /** The state after the given decisions (an index out of range is skipped). */
  function After(ps0: seq<Process>, order: seq<int>): (s: State)
    ensures Consistent(s) && |s.ps| == |ps0|
    decreases |order|
  {
    if order == [] then Initial(ps0)
    else
      var s := After(ps0, order[..|order| - 1]);
      var idx := order[|order| - 1];
      if 0 <= idx < |s.ps| then RunJob(s, idx, Dispatch(s)) else s
  }

  /**
   * Every decision of `order` is what the selection rule of `policy`
   * returns at the decision point reached by the earlier ones, and none of
   * them found nothing ready.
   */
  predicate ValidOrder(policy: Policy, ps0: seq<Process>, order: seq<int>)
    decreases |order|
  {
    order == [] ||
      (var prefix := order[..|order| - 1];
       var s := After(ps0, prefix);
       && ValidOrder(policy, ps0, prefix)
       && order[|order| - 1] != -1
       && IsNPChoice(policy, s.ps, s.done, Dispatch(s), order[|order| - 1]))
  }

  lemma AfterSnoc(ps0: seq<Process>, order: seq<int>, idx: int)
    requires 0 <= idx < |ps0|
    ensures After(ps0, order + [idx]) == RunJob(After(ps0, order), idx, Dispatch(After(ps0, order)))
  {
    assert (order + [idx])[..|order|] == order;
  }

  lemma ValidOrderSnoc(policy: Policy, ps0: seq<Process>, order: seq<int>, idx: int)
    requires ValidOrder(policy, ps0, order) && idx != -1
    requires IsNPChoice(policy, After(ps0, order).ps, After(ps0, order).done, Dispatch(After(ps0, order)), idx)
    ensures ValidOrder(policy, ps0, order + [idx])
  {
    assert (order + [idx])[..|order|] == order;
  }

  /**
   * Determinism: the selection rule leaves no freedom, so two valid
   * decision sequences of the same length are the same sequence.
   */
  lemma {:induction false} ValidOrderUnique(policy: Policy, ps0: seq<Process>, o1: seq<int>, o2: seq<int>)
    requires ValidOrder(policy, ps0, o1) && ValidOrder(policy, ps0, o2) && |o1| == |o2|
    ensures o1 == o2
  {
    if o1 != [] {
      var m := |o1| - 1;
      ValidOrderUnique(policy, ps0, o1[..m], o2[..m]);
      var s := After(ps0, o1[..m]);
      NPChoiceUnique(policy, s.ps, s.done, Dispatch(s), o1[m], o2[m]);
      assert o1 == o1[..m] + [o1[m]] && o2 == o2[..m] + [o2[m]];
    }
  }

  /**
   * What holds of the processes after each decision of a valid sequence
   * from well-formed inputs: the inputs and remaining times are untouched,
   * a process not yet completed is untouched altogether, and a completed
   * one is finished by the clock, having run exactly its burst.
   */
  predicate JobsInvariant(ps0: seq<Process>, s: State) {
    && Consistent(s) && |s.ps| == |ps0| && 0 <= s.time
    && SameJobs(s.ps, ps0)
    && (forall i :: 0 <= i < |ps0| ==> s.ps[i].remainingTime == ps0[i].remainingTime)
    && (forall i :: 0 <= i < |ps0| && !s.done[i] ==> s.ps[i] == ps0[i])
    && (forall i :: 0 <= i < |ps0| && s.done[i] ==>
          && IsFinished(s.ps[i]) && 0 <= s.ps[i].startTime
          && s.ps[i].completionTime == s.ps[i].startTime + s.ps[i].burstTime <= s.time)
  }

  /**
   * The decisions so far are distinct completed indices, as many as the
   * completed flags, and the chart entry at each position is that
   * decision's process from its start to its completion.
   */
  predicate OrderInvariant(ps0: seq<Process>, order: seq<int>, s: State)
    requires Consistent(s) && |s.ps| == |ps0|
  {
    && CountTrue(s.done) == |order|
    && |s.gantt| == |order|
    && (forall m :: 0 <= m < |order| ==> 0 <= order[m] < |ps0| && s.done[order[m]])
    && (forall a, b :: 0 <= a < b < |order| ==> order[a] != order[b])
    && (forall m :: 0 <= m < |order| ==>
          s.gantt[m] == GanttEntry(ps0[order[m]].pid, s.ps[order[m]].startTime, s.ps[order[m]].completionTime))
  }

  /** The chart is well-ordered, ends by the clock and accounts for the service given so far. */
  predicate ChartInvariant(s: State) {
    && EndTime(s.gantt) <= s.time
    && WellOrdered(s.gantt)
    && TotalDuration(s.gantt) == Sum(s.ps, Service)
  }

  predicate Invariant(ps0: seq<Process>, order: seq<int>, s: State) {
    JobsInvariant(ps0, s) && OrderInvariant(ps0, order, s) && ChartInvariant(s)
  }

  lemma {:induction false} CountTrueZero(flags: seq<bool>)
    requires forall i :: 0 <= i < |flags| ==> !flags[i]
    ensures CountTrue(flags) == 0
  {
    if flags != [] {
      CountTrueZero(flags[..|flags| - 1]);
    }
  }

  lemma InitialInvariant(ps0: seq<Process>)
    requires WellFormed(ps0)
    ensures Invariant(ps0, [], Initial(ps0))
  {
    var s := Initial(ps0);
    CountTrueZero(s.done);
    SumZero(ps0, Service);
  }

  lemma StepJobs(ps0: seq<Process>, s: State, idx: int, t: int)
    requires WellFormed(ps0) && JobsInvariant(ps0, s)
    requires 0 <= idx < |ps0| && !s.done[idx] && s.ps[idx].arrivalTime <= t && s.time <= t
    ensures JobsInvariant(ps0, RunJob(s, idx, t))
  {
    assert s.ps[idx] == ps0[idx];
  }

  lemma StepOrder(ps0: seq<Process>, order: seq<int>, s: State, idx: int, t: int)
    requires Consistent(s) && |s.ps| == |ps0| && OrderInvariant(ps0, order, s)
    requires 0 <= idx < |ps0| && !s.done[idx] && s.ps[idx].pid == ps0[idx].pid
    ensures OrderInvariant(ps0, order + [idx], RunJob(s, idx, t))
  {
    var r := RunJob(s, idx, t);
    var o := order + [idx];
    assert r.gantt[|order|] == GanttEntry(ps0[idx].pid, r.ps[idx].startTime, r.ps[idx].completionTime);
    CountTrueSet(s.done, idx);
    assert forall m :: 0 <= m < |order| ==> order[m] != idx;
    assert forall m :: 0 <= m < |order| ==> o[m] == order[m] && r.ps[o[m]] == s.ps[order[m]] && r.gantt[m] == s.gantt[m];
  }

  lemma StepChart(ps0: seq<Process>, s: State, idx: int, t: int)
    requires WellFormed(ps0) && JobsInvariant(ps0, s) && ChartInvariant(s)
    requires 0 <= idx < |ps0| && !s.done[idx] && s.time <= t
    ensures ChartInvariant(RunJob(s, idx, t))
  {
    var p := ServeAt(s.ps[idx], t);
    assert s.ps[idx] == ps0[idx];
    AppendDuration(s.gantt, GanttEntry(p.pid, t, p.completionTime));
    SumUpdate(s.ps, idx, p, Service);
  }

  /** One decision keeps the invariant. */
  lemma StepInvariant(policy: Policy, ps0: seq<Process>, order: seq<int>, idx: int)
    requires WellFormed(ps0)
    requires Invariant(ps0, order, After(ps0, order))
    requires idx != -1
    requires IsNPChoice(policy, After(ps0, order).ps, After(ps0, order).done, Dispatch(After(ps0, order)), idx)
    ensures Invariant(ps0, order + [idx], After(ps0, order + [idx]))
  {
    var s := After(ps0, order);
    var t := Dispatch(s);
    AfterSnoc(ps0, order, idx);
    StepJobs(ps0, s, idx, t);
    StepOrder(ps0, order, s, idx, t);
    StepChart(ps0, s, idx, t);
  }

  /** The invariant holds after every valid decision sequence. */
  lemma {:induction false} AfterInvariant(policy: Policy, ps0: seq<Process>, order: seq<int>)
    requires WellFormed(ps0) && ValidOrder(policy, ps0, order)
    ensures Invariant(ps0, order, After(ps0, order))
  {
    if order == [] {
      InitialInvariant(ps0);
    } else {
      var m := |order| - 1;
      AfterInvariant(policy, ps0, order[..m]);
      StepInvariant(policy, ps0, order[..m], order[m]);
      assert order[..m] + [order[m]] == order;
    }
  }

  /**
   * A complete run (one decision per process) of well-formed inputs
   * completes every process exactly once: the decisions are a permutation
   * of the indices, every process is finished with its inputs and its
   * remaining time untouched, and the chart has one entry per decision,
   * spanning that process's start to its completion.
   */
  lemma CompleteRunJobs(policy: Policy, ps0: seq<Process>, order: seq<int>)
    requires WellFormed(ps0) && ValidOrder(policy, ps0, order) && |order| == |ps0|
    ensures var s := After(ps0, order);
      && (forall i :: 0 <= i < |ps0| ==> s.done[i])
      && AllFinished(s.ps) && SameJobs(s.ps, ps0)
      && (forall i :: 0 <= i < |ps0| ==> s.ps[i].remainingTime == s.ps[i].burstTime)
      && (forall m :: 0 <= m < |order| ==> 0 <= order[m] < |ps0|)
      && (forall a, b :: 0 <= a < b < |order| ==> order[a] != order[b])
      && |s.gantt| == |ps0|
      && (forall m :: 0 <= m < |order| ==>
            s.gantt[m] == GanttEntry(ps0[order[m]].pid, s.ps[order[m]].startTime, s.ps[order[m]].completionTime))
  {
    var s := After(ps0, order);
    AfterInvariant(policy, ps0, order);
    CountTrueBound(s.done);
  }

  /**
   * The chart of a complete run of well-formed inputs is well-ordered,
   * accounts for exactly the bursts and ends at the latest completion.
   */
  lemma CompleteRunChart(policy: Policy, ps0: seq<Process>, order: seq<int>)
    requires WellFormed(ps0) && ValidOrder(policy, ps0, order) && |order| == |ps0|
    ensures WellOrdered(After(ps0, order).gantt)
    ensures TotalDuration(After(ps0, order).gantt) == Sum(After(ps0, order).ps, Burst)
    ensures EndTime(After(ps0, order).gantt) <= MaxCompletion(After(ps0, order).ps)
  {
    AfterInvariant(policy, ps0, order);
    FinalChart(ps0, order, After(ps0, order));
  }

  lemma FinalChart(ps0: seq<Process>, order: seq<int>, s: State)
    requires Invariant(ps0, order, s) && |order| == |ps0|
    ensures TotalDuration(s.gantt) == Sum(s.ps, Burst)
    ensures EndTime(s.gantt) <= MaxCompletion(s.ps)
  {
    CountTrueBound(s.done);
    forall i | 0 <= i < |ps0| ensures Get(s.ps[i], Service) == Get(s.ps[i], Burst) {
      assert s.done[i];
    }
    SumPointwise(s.ps, Service, s.ps, Burst);
    if order != [] {
      var m := |order| - 1;
      assert s.gantt[m].end == s.ps[order[m]].completionTime;
    }
  }
}
