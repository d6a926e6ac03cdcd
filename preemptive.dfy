/**
 * The shared tick-by-tick run of the two preemptive algorithms (SRTF and
 * preemptive priority), stated as the sequence of what each tick did: the
 * index of the process that ran during it, or -1 for an idle tick.
 */
module Preemptive {
  import opened Processes
  import opened Gantt
  import opened Metrics
  import opened Selection

  /** The loop's state between ticks: the working list, the clock and the chart. */
  datatype State = State(ps: seq<Process>, time: int, gantt: seq<GanttEntry>)

  function Initial(ps0: seq<Process>): State {
    State(ps0, 0, [])
  }

  /** Some process still has time left: the loop goes on. */
  predicate SomeLeft(s: State) {
    exists i :: 0 <= i < |s.ps| && s.ps[i].remainingTime > 0
  }

  /**
   * Process idx runs during the tick [time, time + 1): it records its
   * first run, loses one unit of remaining time, completes at time + 1 if
   * that was its last, and the chart records the tick for its pid.
   */
  function RunTick(s: State, idx: int): (r: State)
    requires 0 <= idx < |s.ps|
    requires LastPid(s.gantt) == s.ps[idx].pid ==> s.gantt != []
    ensures r.time == s.time + 1 && |r.ps| == |s.ps|
    ensures forall i :: 0 <= i < |s.ps| && i != idx ==> r.ps[i] == s.ps[i]
    ensures SameJob(r.ps[idx], s.ps[idx])
    ensures r.ps[idx].remainingTime == s.ps[idx].remainingTime - 1
  {
    var t := s.time;
    var p := s.ps[idx];
    var ran := FirstRun(p, t).(remainingTime := p.remainingTime - 1);
    var q := if ran.remainingTime == 0 then CompleteAt(ran, t + 1) else ran;
    State(s.ps[idx := q], t + 1, RecordTick(s.gantt, LastPid(s.gantt), p.pid, t))
  }

  /** An idle tick: only the clock advances. */
  function IdleTick(s: State): State {
    s.(time := s.time + 1)
  }

  /**
   * One iteration of the loop for the scan result idx.  An index the loop
   * could not run (out of range, or the pid -1 on an empty chart, which the
   * source would fail on) counts as idle; valid runs never contain one.
   */
  function Advance(s: State, idx: int): (r: State)
    ensures r.time == s.time + 1 && |r.ps| == |s.ps|
  {
    if 0 <= idx < |s.ps| && (LastPid(s.gantt) == s.ps[idx].pid ==> s.gantt != []) then RunTick(s, idx)
    else IdleTick(s)
  }

  /** The state after the given ticks; the clock counts them. */
  function After(ps0: seq<Process>, ticks: seq<int>): (s: State)
    ensures s.time == |ticks| && |s.ps| == |ps0|
    decreases |ticks|
  {
    if ticks == [] then Initial(ps0)
    else Advance(After(ps0, ticks[..|ticks| - 1]), ticks[|ticks| - 1])
  }

  /**
   * Every tick of `ticks` happened because some process still had time
   * left, and ran what the selection rule of `policy` picks at that tick
   * (-1: nothing ready, the tick is idle).
   */
  predicate ValidTicks(policy: Policy, ps0: seq<Process>, ticks: seq<int>)
    decreases |ticks|
  {
    ticks == [] ||
      (var prefix := ticks[..|ticks| - 1];
       var s := After(ps0, prefix);
       && ValidTicks(policy, ps0, prefix)
       && SomeLeft(s)
       && IsPChoice(policy, s.ps, s.time, ticks[|ticks| - 1]))
  }

  /** A complete run: valid ticks after which no process has time left. */
  predicate CompleteTicks(policy: Policy, ps0: seq<Process>, ticks: seq<int>) {
    ValidTicks(policy, ps0, ticks) && !SomeLeft(After(ps0, ticks))
  }

  lemma AfterSnoc(ps0: seq<Process>, ticks: seq<int>, idx: int)
    ensures After(ps0, ticks + [idx]) == Advance(After(ps0, ticks), idx)
  {
    assert (ticks + [idx])[..|ticks|] == ticks;
  }

  lemma ValidTicksSnoc(policy: Policy, ps0: seq<Process>, ticks: seq<int>, idx: int)
    requires ValidTicks(policy, ps0, ticks) && SomeLeft(After(ps0, ticks))
    requires IsPChoice(policy, After(ps0, ticks).ps, |ticks|, idx)
    ensures ValidTicks(policy, ps0, ticks + [idx])
  {
    assert (ticks + [idx])[..|ticks|] == ticks;
  }

  lemma {:induction false} ValidTicksPrefix(policy: Policy, ps0: seq<Process>, ticks: seq<int>, k: int)
    requires ValidTicks(policy, ps0, ticks) && 0 <= k <= |ticks|
    ensures ValidTicks(policy, ps0, ticks[..k])
    decreases |ticks|
  {
    if k < |ticks| {
      var m := |ticks| - 1;
      ValidTicksPrefix(policy, ps0, ticks[..m], k);
      assert ticks[..m][..k] == ticks[..k];
    } else {
      assert ticks[..k] == ticks;
    }
  }

  /** Of two valid tick sequences, the shorter is a prefix of the longer. */
  lemma {:induction false} ValidTicksAgree(policy: Policy, ps0: seq<Process>, t1: seq<int>, t2: seq<int>)
    requires ValidTicks(policy, ps0, t1) && ValidTicks(policy, ps0, t2) && |t1| <= |t2|
    ensures t1 == t2[..|t1|]
    decreases |t1|
  {
    if t1 != [] {
      var m := |t1| - 1;
      ValidTicksPrefix(policy, ps0, t2, |t1|);
      var u := t2[..|t1|];
      assert u[..m] == t2[..m];
      ValidTicksAgree(policy, ps0, t1[..m], t2);
      assert t1[..m] == u[..m];
      var s := After(ps0, t1[..m]);
      assert IsPChoice(policy, s.ps, s.time, t1[m]);
      assert IsPChoice(policy, s.ps, s.time, u[m]);
      PChoiceUnique(policy, s.ps, s.time, t1[m], u[m]);
      assert t1 == t1[..m] + [t1[m]];
      assert u == u[..m] + [u[m]];
    }
  }

  /** Every tick of a valid sequence happened while some process had time left. */
  lemma ValidTicksContinue(policy: Policy, ps0: seq<Process>, ticks: seq<int>, k: int)
    requires ValidTicks(policy, ps0, ticks) && 0 <= k < |ticks|
    ensures SomeLeft(After(ps0, ticks[..k]))
  {
    ValidTicksPrefix(policy, ps0, ticks, k + 1);
    var u := ticks[..k + 1];
    assert u[..k] == ticks[..k];
  }

  /**
   * Determinism: a complete run is unique, in its ticks and so in its
   * length (the loop stops at the first tick after which nothing is left).
   */
  lemma CompleteTicksUnique(policy: Policy, ps0: seq<Process>, t1: seq<int>, t2: seq<int>)
    requires CompleteTicks(policy, ps0, t1) && CompleteTicks(policy, ps0, t2)
    ensures t1 == t2
  {
    if |t1| < |t2| {
      ValidTicksAgree(policy, ps0, t1, t2);
      ValidTicksContinue(policy, ps0, t2, |t1|);
    } else if |t2| < |t1| {
      ValidTicksAgree(policy, ps0, t2, t1);
      ValidTicksContinue(policy, ps0, t1, |t2|);
    } else {
      ValidTicksAgree(policy, ps0, t1, t2);
    }
  }

  /**
   * What holds of the processes after valid ticks from well-formed inputs:
   * inputs are untouched, the remaining time stays within [0, burst], a
   * process that has not run is untouched altogether, one that has run
   * arrived by its recorded start and has had burst - remaining ticks since
   * then, and one with nothing left is finished by the clock.
   */
  predicate JobsInvariant(ps0: seq<Process>, s: State) {
    && |s.ps| == |ps0| && 0 <= s.time
    && SameJobs(s.ps, ps0)
    && (forall i :: 0 <= i < |ps0| ==> 0 <= s.ps[i].remainingTime <= s.ps[i].burstTime)
    && (forall i :: 0 <= i < |ps0| && s.ps[i].remainingTime == s.ps[i].burstTime ==> s.ps[i] == ps0[i])
    && (forall i :: 0 <= i < |ps0| && s.ps[i].remainingTime < s.ps[i].burstTime ==>
          && s.ps[i].arrivalTime <= s.ps[i].startTime
          && s.ps[i].responseTime == s.ps[i].startTime - s.ps[i].arrivalTime
          && s.ps[i].startTime + (s.ps[i].burstTime - s.ps[i].remainingTime) <= s.time)
    && (forall i :: 0 <= i < |ps0| && s.ps[i].remainingTime == 0 ==>
          IsFinished(s.ps[i]) && s.ps[i].completionTime <= s.time)
  }

  /**
   * The process that owns the chart's last entry: it has run, and unless
   * it still has time left the chart stopped growing when it completed;
   * and if the chart ended before the clock, it has nothing left.
   */
  predicate LastRunner(ps0: seq<Process>, s: State, k: int)
    requires |s.ps| == |ps0|
  {
    && 0 <= k < |ps0| && ps0[k].pid == LastPid(s.gantt)
    && s.ps[k].remainingTime < s.ps[k].burstTime
    && (s.ps[k].remainingTime == 0 ==> s.ps[k].completionTime == EndTime(s.gantt))
    && (EndTime(s.gantt) < s.time ==> s.ps[k].remainingTime == 0)
  }

  /**
   * The chart after valid ticks is well-ordered with distinct neighbours,
   * ends by the clock, gives each process exactly the ticks it has lost
   * from its remaining time, and its last entry has a last runner.
   */
  predicate ChartInvariant(ps0: seq<Process>, s: State)
    requires |s.ps| == |ps0|
  {
    && WellOrdered(s.gantt) && NoRepeatedNeighbour(s.gantt)
    && EndTime(s.gantt) <= s.time
    && (forall i :: 0 <= i < |ps0| ==> DurationOf(s.gantt, ps0[i].pid) == ps0[i].burstTime - s.ps[i].remainingTime)
    && TotalDuration(s.gantt) == Sum(ps0, Burst) - Sum(s.ps, Remaining)
    && (s.gantt != [] ==> exists k :: 0 <= k < |ps0| && LastRunner(ps0, s, k))
  }

  predicate Invariant(ps0: seq<Process>, s: State) {
    JobsInvariant(ps0, s) && ChartInvariant(ps0, s)
  }

  lemma InitialInvariant(ps0: seq<Process>)
    requires WellFormed(ps0)
    ensures Invariant(ps0, Initial(ps0))
  {
    SumPointwise(ps0, Burst, ps0, Remaining);
  }

  lemma IdleInvariant(policy: Policy, ps0: seq<Process>, s: State)
    requires WellFormed(ps0) && Invariant(ps0, s)
    requires IsPChoice(policy, s.ps, s.time, -1)
    ensures Invariant(ps0, IdleTick(s))
  {
    var r := IdleTick(s);
    if s.gantt != [] {
      var k :| 0 <= k < |ps0| && LastRunner(ps0, s, k);
      assert !ReadyP(s.ps, s.time, k);
      assert LastRunner(ps0, r, k);
    }
  }

  lemma RunJobsInvariant(ps0: seq<Process>, s: State, idx: int)
    requires WellFormed(ps0) && JobsInvariant(ps0, s)
    requires 0 <= idx < |ps0| && ReadyP(s.ps, s.time, idx)
    requires LastPid(s.gantt) == s.ps[idx].pid ==> s.gantt != []
    ensures JobsInvariant(ps0, RunTick(s, idx))
  {
    var r := RunTick(s, idx);
    var p := s.ps[idx];
    if p.remainingTime == p.burstTime {
      assert p == ps0[idx];
    }
  }

  lemma RunChartInvariant(ps0: seq<Process>, s: State, idx: int)
    requires WellFormed(ps0) && UniquePids(ps0) && Invariant(ps0, s)
    requires 0 <= idx < |ps0| && ReadyP(s.ps, s.time, idx)
    ensures LastPid(s.gantt) == s.ps[idx].pid ==> s.gantt != []
    ensures ChartInvariant(ps0, RunTick(s, idx))
  {
    var pid := s.ps[idx].pid;
    RunChartLast(ps0, s, idx);
    RecordTickPreserves(s.gantt, pid, s.time);
    RunChartDurations(ps0, s, idx);
    RunChartLastRunner(ps0, s, idx);
  }

  /**
   * The process about to run has a valid pid, and when it owns the chart's
   * last entry that entry reaches up to the clock (it has time left, so
   * the chart has not stopped at its completion).
   */
  lemma RunChartLast(ps0: seq<Process>, s: State, idx: int)
    requires WellFormed(ps0) && UniquePids(ps0) && Invariant(ps0, s)
    requires 0 <= idx < |ps0| && ReadyP(s.ps, s.time, idx)
    ensures s.ps[idx].pid == ps0[idx].pid >= 0
    ensures LastPid(s.gantt) == s.ps[idx].pid ==> s.gantt != [] && EndTime(s.gantt) == s.time
  {
    var pid := s.ps[idx].pid;
    assert SameJob(s.ps[idx], ps0[idx]);
    if LastPid(s.gantt) == pid {
      assert s.gantt != [];
      var k :| 0 <= k < |ps0| && LastRunner(ps0, s, k);
      assert ps0[k].pid == ps0[idx].pid;
      assert k == idx;
    }
  }

  /** After a run tick the chart still gives each process the time it has lost. */
  lemma RunChartDurations(ps0: seq<Process>, s: State, idx: int)
    requires |s.ps| == |ps0| && UniquePids(ps0) && SameJobs(s.ps, ps0)
    requires 0 <= idx < |ps0| && (LastPid(s.gantt) == s.ps[idx].pid ==> s.gantt != [])
    requires forall i :: 0 <= i < |ps0| ==> DurationOf(s.gantt, ps0[i].pid) == ps0[i].burstTime - s.ps[i].remainingTime
    requires TotalDuration(s.gantt) == Sum(ps0, Burst) - Sum(s.ps, Remaining)
    requires var g := RecordTick(s.gantt, LastPid(s.gantt), s.ps[idx].pid, s.time);
      && TotalDuration(g) == TotalDuration(s.gantt) + 1
      && forall q :: DurationOf(g, q) == DurationOf(s.gantt, q) + (if q == s.ps[idx].pid then 1 else 0)
    ensures var r := RunTick(s, idx);
      && (forall i :: 0 <= i < |ps0| ==> DurationOf(r.gantt, ps0[i].pid) == ps0[i].burstTime - r.ps[i].remainingTime)
      && TotalDuration(r.gantt) == Sum(ps0, Burst) - Sum(r.ps, Remaining)
  {
    var r := RunTick(s, idx);
    SumUpdate(s.ps, idx, r.ps[idx], Remaining);
    assert r.ps == s.ps[idx := r.ps[idx]];
    forall i | 0 <= i < |ps0|
      ensures DurationOf(r.gantt, ps0[i].pid) == ps0[i].burstTime - r.ps[i].remainingTime
    {
      assert SameJob(s.ps[i], ps0[i]);
      if i != idx {
        assert ps0[i].pid != ps0[idx].pid;
      }
    }
  }

  /** The process that ran the tick owns the chart's new last entry. */
  lemma RunChartLastRunner(ps0: seq<Process>, s: State, idx: int)
    requires |s.ps| == |ps0| && 0 <= idx < |ps0| && SameJob(s.ps[idx], ps0[idx])
    requires 0 < s.ps[idx].remainingTime <= s.ps[idx].burstTime
    requires LastPid(s.gantt) == s.ps[idx].pid ==> s.gantt != []
    ensures LastRunner(ps0, RunTick(s, idx), idx)
  {
  }

  /** One loop iteration keeps the invariant. */
  lemma StepInvariant(policy: Policy, ps0: seq<Process>, s: State, idx: int)
    requires WellFormed(ps0) && UniquePids(ps0) && Invariant(ps0, s)
    requires IsPChoice(policy, s.ps, s.time, idx)
    ensures Invariant(ps0, Advance(s, idx))
  {
    if idx == -1 {
      IdleInvariant(policy, ps0, s);
    } else {
      RunChartInvariant(ps0, s, idx);
      RunJobsInvariant(ps0, s, idx);
    }
  }

  /** The invariant holds after every valid tick sequence. */
  lemma {:induction false} AfterInvariant(policy: Policy, ps0: seq<Process>, ticks: seq<int>)
    requires WellFormed(ps0) && UniquePids(ps0) && ValidTicks(policy, ps0, ticks)
    ensures Invariant(ps0, After(ps0, ticks))
  {
    if ticks == [] {
      InitialInvariant(ps0);
    } else {
      var m := |ticks| - 1;
      AfterInvariant(policy, ps0, ticks[..m]);
      StepInvariant(policy, ps0, After(ps0, ticks[..m]), ticks[m]);
    }
  }

  /**
   * A complete run of well-formed inputs with unique pids: every process is
   * finished with its inputs untouched and nothing left; the chart is
   * well-ordered with distinct neighbours, gives each process exactly its
   * burst, accounts for all bursts and ends at the latest completion.
   */
  lemma CompleteRun(policy: Policy, ps0: seq<Process>, ticks: seq<int>)
    requires WellFormed(ps0) && UniquePids(ps0) && CompleteTicks(policy, ps0, ticks)
    ensures AllFinished(After(ps0, ticks).ps) && SameJobs(After(ps0, ticks).ps, ps0)
    ensures forall i :: 0 <= i < |ps0| ==> After(ps0, ticks).ps[i].remainingTime == 0
    ensures WellOrdered(After(ps0, ticks).gantt) && NoRepeatedNeighbour(After(ps0, ticks).gantt)
    ensures forall i :: 0 <= i < |ps0| ==> DurationOf(After(ps0, ticks).gantt, ps0[i].pid) == ps0[i].burstTime
    ensures TotalDuration(After(ps0, ticks).gantt) == Sum(After(ps0, ticks).ps, Burst)
    ensures EndTime(After(ps0, ticks).gantt) <= MaxCompletion(After(ps0, ticks).ps)
  {
    AfterInvariant(policy, ps0, ticks);
    FinalState(ps0, After(ps0, ticks));
  }

  lemma FinalState(ps0: seq<Process>, s: State)
    requires WellFormed(ps0) && Invariant(ps0, s) && !SomeLeft(s)
    ensures AllFinished(s.ps)
    ensures forall i :: 0 <= i < |ps0| ==> s.ps[i].remainingTime == 0
    ensures TotalDuration(s.gantt) == Sum(s.ps, Burst)
    ensures EndTime(s.gantt) <= MaxCompletion(s.ps)
  {
    assert forall i :: 0 <= i < |ps0| ==> s.ps[i].remainingTime == 0;
    assert forall i :: 0 <= i < |ps0| ==> Get(s.ps[i], Remaining) == 0;
    SumZero(s.ps, Remaining);
    SumPointwise(ps0, Burst, s.ps, Burst);
    if s.gantt != [] {
      var k :| 0 <= k < |ps0| && LastRunner(ps0, s, k);
    }
  }
}
