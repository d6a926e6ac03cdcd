/**
 * The scheduler object: it keeps the caller's process list and, for each
 * run, a working copy that the algorithm updates in place; each algorithm
 * returns the metrics of the working copy and the Gantt chart it built.
 * Each method is proved against the specification of its algorithm in
 * FirstCome, NonPreemptive, Preemptive and RoundRobin.
 */
module Scheduler {
  import opened Processes
  import opened Gantt
  import opened Metrics
  import opened Selection
  import opened Sorting
  import FirstCome
  import NonPreemptive
  import Preemptive
  import RR = RoundRobin

  /** The number a string of decimal digits spells, most significant first. */
  function DigitsValue(s: string): int {
    if s == [] then 0 else DigitsValue(s[..|s| - 1]) * 10 + (s[|s| - 1] as int - 48)
  }

  /**
   * The decimal digits of n, most significant first (Python's `str` of a
   * non-negative integer): they spell n, with no leading zero.
   */
  function DecimalString(n: nat): (s: string)
    ensures s != [] && forall i :: 0 <= i < |s| ==> '0' <= s[i] <= '9'
    ensures DigitsValue(s) == n
    ensures s[0] == '0' ==> s == "0"
  {
    if n < 10 then [(48 + n) as char]
    else
      var d := DecimalString(n / 10);
      assert (d + [(48 + n % 10) as char])[..|d|] == d;
      d + [(48 + n % 10) as char]
  }

  /** The algorithm name round robin reports, with its quantum. */
  function RoundRobinName(q: nat): string {
    "Round Robin (Q=" + DecimalString(q) + ")"
  }

  /** The FCFS loop body extends the outcome by one position. */
  lemma FcfsStep(queue: seq<Process>, out: seq<Process>, gantt: seq<GanttEntry>, i: int, start: int)
    requires |out| == |queue| && 0 <= i < |queue|
    requires FirstCome.Outcome(queue[..i], out[..i], gantt)
    requires start == FirstCome.StartAfter(FirstCome.FreeBefore(out, i), queue[i])
    ensures FirstCome.Outcome(queue[..i + 1], out[i := ServeAt(queue[i], start)][..i + 1],
                              gantt + [GanttEntry(queue[i].pid, start, start + queue[i].burstTime)])
    ensures FirstCome.FreeBefore(out[i := ServeAt(queue[i], start)], i + 1) == start + queue[i].burstTime
  {
    var p := ServeAt(queue[i], start);
    var out' := out[i := p][..i + 1];
    assert out' == out[..i] + [p];
    forall j | 0 <= j <= i ensures FirstCome.FreeBefore(out', j) == FirstCome.FreeBefore(out, j) {
    }
  }

  /** What FCFS guarantees for valid jobs, from its outcome on the sorted list. */
  lemma FcfsFacts(ps: seq<Process>, out: seq<Process>, gantt: seq<GanttEntry>)
    requires forall i :: 0 <= i < |ps| ==> ValidJob(ps[i])
    requires FirstCome.Outcome(SortByArrival(ps), out, gantt)
    ensures AllFinished(out) && SameJobs(out, SortByArrival(ps))
    ensures forall i, j :: 0 <= i < j < |out| ==>
      out[i].arrivalTime <= out[j].arrivalTime && out[i].startTime < out[j].startTime
    ensures WellOrdered(gantt) && TotalDuration(gantt) == Sum(out, Burst)
    ensures EndTime(gantt) == MaxCompletion(out)
  {
    SortByArrivalMembers(ps);
    FirstCome.OutcomeJobs(SortByArrival(ps), out, gantt);
    FirstCome.OutcomeChart(SortByArrival(ps), out, gantt);
    FirstCome.ServedInArrivalOrder(ps, out, gantt);
  }

  /**
   * The idle branch of the non-preemptive loop: when the scan finds nothing
   * ready at a clock that is the last completion or the decision point,
   * the clock is the last completion and the decision point is the
   * earliest arrival among the processes not yet completed.
   */
  lemma NonPreemptiveIdle(policy: Policy, ps0: seq<Process>, order: seq<int>, t: int)
    requires var s := NonPreemptive.After(ps0, order);
      && (t == s.time || t == NonPreemptive.Dispatch(s))
      && IsNPChoice(policy, s.ps, s.done, t, -1)
      && CountTrue(s.done) < |s.ps|
    ensures var s := NonPreemptive.After(ps0, order);
      && (exists i :: 0 <= i < |s.ps| && !s.done[i])
      && t == s.time != NonPreemptive.Dispatch(s)
      && NonPreemptive.Dispatch(s) == EarliestArrival(s.ps, s.done)
  {
    var s := NonPreemptive.After(ps0, order);
    CountTrueBound(s.done);
    var k :| 0 <= k < |s.ps| && !s.done[k];
    assert NonPreemptive.SomeLeft(s);
    var j :| 0 <= j < |s.ps| && ReadyNP(s.ps, s.done, NonPreemptive.Dispatch(s), j);
    assert !ReadyNP(s.ps, s.done, t, j);
    assert !NonPreemptive.SomeReady(s);
  }

  /**
   * The run branch of the non-preemptive loop: the process the scan picks
   * is the policy's choice at the decision point, and serving it there
   * gives the state after one more decision.
   */
  lemma NonPreemptiveRun(policy: Policy, ps0: seq<Process>, order: seq<int>, t: int, idx: int)
    requires NonPreemptive.ValidOrder(policy, ps0, order)
    requires var s := NonPreemptive.After(ps0, order);
      && (t == s.time || t == NonPreemptive.Dispatch(s))
      && idx != -1 && IsNPChoice(policy, s.ps, s.done, t, idx)
    ensures var s := NonPreemptive.After(ps0, order);
      && 0 <= idx < |s.ps| && !s.done[idx]
      && NonPreemptive.ValidOrder(policy, ps0, order + [idx])
      && NonPreemptive.After(ps0, order + [idx]) == NonPreemptive.RunJob(s, idx, t)
      && CountTrue(NonPreemptive.After(ps0, order + [idx]).done) == CountTrue(s.done) + 1
  {
    var s := NonPreemptive.After(ps0, order);
    assert ReadyNP(s.ps, s.done, t, idx);
    if t == s.time {
      assert NonPreemptive.SomeReady(s);
    }
    NonPreemptive.AfterSnoc(ps0, order, idx);
    NonPreemptive.ValidOrderSnoc(policy, ps0, order, idx);
    CountTrueSet(s.done, idx);
  }

  /**
   * What every algorithm guarantees of a complete run on well-formed
   * inputs: each process is finished (with the turnaround and waiting
   * identities and a response time of start minus arrival) and carries its
   * original inputs, the chart is well-ordered, accounts for exactly the
   * bursts, and ends no later than the latest completion.
   */
  predicate Scheduled(ps0: seq<Process>, ps: seq<Process>, gantt: seq<GanttEntry>) {
    && AllFinished(ps) && SameJobs(ps, ps0)
    && WellOrdered(gantt) && TotalDuration(gantt) == Sum(ps, Burst)
    && EndTime(gantt) <= MaxCompletion(ps)
  }

  /** A complete non-preemptive run of well-formed inputs is scheduled. */
  lemma NonPreemptiveScheduled(policy: Policy, ps0: seq<Process>, order: seq<int>)
    requires WellFormed(ps0) && NonPreemptive.ValidOrder(policy, ps0, order) && |order| == |ps0|
    ensures Scheduled(ps0, NonPreemptive.After(ps0, order).ps, NonPreemptive.After(ps0, order).gantt)
  {
    NonPreemptive.CompleteRunJobs(policy, ps0, order);
    NonPreemptive.CompleteRunChart(policy, ps0, order);
  }

  /** What the preemptive loop keeps between iterations, besides the state itself. */
  predicate PreemptiveKept(policy: Policy, ps0: seq<Process>, ticks: seq<int>) {
    && Preemptive.ValidTicks(policy, ps0, ticks)
    && SameJobs(Preemptive.After(ps0, ticks).ps, ps0)
    && forall i :: 0 <= i < |ps0| ==> Preemptive.After(ps0, ticks).ps[i].remainingTime >= 0
  }

  /**
   * The preemptive loop's termination measure: the time left over all
   * processes, plus the time until the latest arrival.
   */
  function PreemptiveMeasure(s: Preemptive.State, maxArrival: int): int {
    Sum(s.ps, Remaining) + (if maxArrival > s.time then maxArrival - s.time else 0)
  }

  /**
   * An idle iteration of the preemptive loop: nothing is ready although
   * some process has time left, so that process has not arrived yet; the
   * tick only advances the clock, the measure drops through the time until
   * the latest arrival.
   */
  lemma PreemptiveIdleStep(policy: Policy, ps0: seq<Process>, ticks: seq<int>, maxArrival: int)
    requires PreemptiveKept(policy, ps0, ticks) && Preemptive.SomeLeft(Preemptive.After(ps0, ticks))
    requires IsPChoice(policy, Preemptive.After(ps0, ticks).ps, |ticks|, -1)
    requires forall i :: 0 <= i < |ps0| ==> ps0[i].arrivalTime <= maxArrival
    ensures Preemptive.After(ps0, ticks + [-1]) == Preemptive.IdleTick(Preemptive.After(ps0, ticks))
    ensures PreemptiveKept(policy, ps0, ticks + [-1])
    ensures 0 <= PreemptiveMeasure(Preemptive.After(ps0, ticks + [-1]), maxArrival)
              < PreemptiveMeasure(Preemptive.After(ps0, ticks), maxArrival)
  {
    var s := Preemptive.After(ps0, ticks);
    Preemptive.AfterSnoc(ps0, ticks, -1);
    Preemptive.ValidTicksSnoc(policy, ps0, ticks, -1);
    var i :| 0 <= i < |s.ps| && s.ps[i].remainingTime > 0;
    assert !ReadyP(s.ps, |ticks|, i);
    assert SameJob(s.ps[i], ps0[i]);
    assert forall j :: 0 <= j < |s.ps| ==> Get(s.ps[j], Remaining) >= 0;
    SumNonNegative(s.ps, Remaining);
  }

  /**
   * A run iteration of the preemptive loop: the chosen index is a ready
   * process, the tick runs it for one unit, its remaining time drops by
   * one (so the measure drops), and the exhausted count grows exactly when
   * that was its last unit.
   */
  lemma PreemptiveRunStep(policy: Policy, ps0: seq<Process>, ticks: seq<int>, idx: int, maxArrival: int)
    requires PreemptiveKept(policy, ps0, ticks) && Preemptive.SomeLeft(Preemptive.After(ps0, ticks))
    requires idx != -1 && IsPChoice(policy, Preemptive.After(ps0, ticks).ps, |ticks|, idx)
    requires forall i :: 0 <= i < |ps0| ==> ps0[i].pid != Unset
    ensures var s := Preemptive.After(ps0, ticks);
      && 0 <= idx < |s.ps| && s.ps[idx].pid != Unset
      && Preemptive.After(ps0, ticks + [idx]) == Preemptive.RunTick(s, idx)
      && Sum(Preemptive.RunTick(s, idx).ps, Exhausted)
           == Sum(s.ps, Exhausted) + (if Preemptive.RunTick(s, idx).ps[idx].remainingTime == 0 then 1 else 0)
    ensures PreemptiveKept(policy, ps0, ticks + [idx])
    ensures 0 <= PreemptiveMeasure(Preemptive.After(ps0, ticks + [idx]), maxArrival)
              < PreemptiveMeasure(Preemptive.After(ps0, ticks), maxArrival)
  {
    var s := Preemptive.After(ps0, ticks);
    assert ReadyP(s.ps, |ticks|, idx);
    assert SameJob(s.ps[idx], ps0[idx]);
    Preemptive.AfterSnoc(ps0, ticks, idx);
    Preemptive.ValidTicksSnoc(policy, ps0, ticks, idx);
    var r := Preemptive.RunTick(s, idx);
    assert r.ps == s.ps[idx := r.ps[idx]];
    SumUpdate(s.ps, idx, r.ps[idx], Remaining);
    SumUpdate(s.ps, idx, r.ps[idx], Exhausted);
    assert forall j :: 0 <= j < |r.ps| ==> Get(r.ps[j], Remaining) >= 0;
    SumNonNegative(r.ps, Remaining);
  }

  /** The preemptive loop stops once every process is exhausted: the run is complete. */
  lemma PreemptiveDone(policy: Policy, ps0: seq<Process>, ticks: seq<int>)
    requires PreemptiveKept(policy, ps0, ticks)
    requires Sum(Preemptive.After(ps0, ticks).ps, Exhausted) == |ps0|
    ensures Preemptive.CompleteTicks(policy, ps0, ticks)
  {
    ExhaustedCount(Preemptive.After(ps0, ticks).ps);
  }

  /**
   * A complete preemptive run of well-formed inputs with distinct pids is
   * scheduled, never puts the same pid in two neighbouring entries, and
   * charts exactly each process's burst under its pid.
   */
  lemma PreemptiveScheduled(policy: Policy, ps0: seq<Process>, ticks: seq<int>)
    requires WellFormed(ps0) && UniquePids(ps0) && Preemptive.CompleteTicks(policy, ps0, ticks)
    ensures var s := Preemptive.After(ps0, ticks);
      && Scheduled(ps0, s.ps, s.gantt) && NoRepeatedNeighbour(s.gantt)
      && forall i :: 0 <= i < |s.ps| ==>
           s.ps[i].remainingTime == 0 && DurationOf(s.gantt, s.ps[i].pid) == s.ps[i].burstTime
  {
    Preemptive.CompleteRun(policy, ps0, ticks);
  }

  /**
   * The chart update for one time unit [t, t + 1) of `pid` in the
   * preemptive loops: a pid other than the last one starts a new entry,
   * the same pid stretches the last entry.  The source has a third branch,
   * stretching the last entry when its pid is `pid` although `lastPid`
   * differs; since `lastPid` is always the pid of the last entry, that
   * branch cannot be taken.
   */
  method ChartTick(ganttChart: seq<GanttEntry>, lastPid: int, pid: int, t: int)
    returns (ganttChart': seq<GanttEntry>, lastPid': int)
    requires lastPid == LastPid(ganttChart) && pid != Unset
    ensures ganttChart' == RecordTick(ganttChart, lastPid, pid, t)
    ensures lastPid' == pid == LastPid(ganttChart')
  {
    lastPid' := lastPid;
    if lastPid != pid {
      if ganttChart != [] && ganttChart[|ganttChart| - 1].pid == pid {
        // unreachable: lastPid is the pid of the chart's last entry
        assert false;
      } else {
        ganttChart' := ganttChart + [GanttEntry(pid, t, t + 1)];
      }
      lastPid' := pid;
    } else {
      ganttChart' := ganttChart[..|ganttChart| - 1] + [GanttEntry(pid, ganttChart[|ganttChart| - 1].start, t + 1)];
    }
  }

  class CPUScheduler {
    /** The caller's list; no run changes it. */
    const originalProcesses: seq<Process>
    /** The working list of the latest run. */
    var processes: seq<Process>

    constructor (ps: seq<Process>)
      ensures originalProcesses == ps && processes == []
    {
      originalProcesses := ps;
      processes := [];
    }

    /**
     * A fresh working copy of the caller's list.  Processes are values
     * here, so the copy shares nothing with the original: updating the
     * working list leaves `originalProcesses` as it was.
     */
    method ResetProcesses()
      modifies this
      ensures processes == originalProcesses
    {
      processes := originalProcesses;
    }

    /**
     * First come, first served: the working list is stably sorted by
     * arrival and each process runs to completion from the later of its
     * arrival and its predecessor's completion.  For valid jobs the run
     * finishes every process, in arrival order, with a well-ordered chart
     * that accounts for every burst and ends at the latest completion.
     */
    method Fcfs() returns (r: SchedulingResult)
      modifies this
      ensures FirstCome.Outcome(SortByArrival(originalProcesses), processes, r.ganttChart)
      ensures r == CalculateMetrics("FCFS", processes, r.ganttChart)
      ensures (forall i :: 0 <= i < |originalProcesses| ==> ValidJob(originalProcesses[i])) ==>
        && AllFinished(processes) && SameJobs(processes, SortByArrival(originalProcesses))
        && (forall i, j :: 0 <= i < j < |processes| ==>
              processes[i].arrivalTime <= processes[j].arrivalTime && processes[i].startTime < processes[j].startTime)
        && WellOrdered(r.ganttChart) && TotalDuration(r.ganttChart) == Sum(processes, Burst)
        && EndTime(r.ganttChart) == MaxCompletion(processes)
    {
      ResetProcesses();
      processes := SortByArrival(processes);
      var ganttChart := ServeInOrder();
      r := CalculateMetrics("FCFS", processes, ganttChart);
      if forall i :: 0 <= i < |originalProcesses| ==> ValidJob(originalProcesses[i]) {
        FcfsFacts(originalProcesses, processes, ganttChart);
      }
    }

    /**
     * The FCFS loop over the working list, already in serving order: each
     * process in turn is served to completion in place.
     */
    method ServeInOrder() returns (ganttChart: seq<GanttEntry>)
      modifies this
      ensures FirstCome.Outcome(old(processes), processes, ganttChart)
    {
      ghost var queue := processes;
      var currentTime := 0;
      ganttChart := [];
      for i := 0 to |processes|
        invariant |processes| == |queue| && forall j :: i <= j < |queue| ==> processes[j] == queue[j]
        invariant FirstCome.Outcome(queue[..i], processes[..i], ganttChart)
        invariant currentTime == FirstCome.FreeBefore(processes, i)
      {
        ganttChart, currentTime := ServeNext(queue, i, currentTime, ganttChart);
      }
      assert queue[..|queue|] == queue && processes[..|processes|] == processes;
    }

    /**
     * One iteration of FCFS: position i waits for its arrival if the CPU
     * is free before it, then runs to completion; the outcome grows by
     * that position.
     */
    method ServeNext(ghost queue: seq<Process>, i: int, currentTime: int, ganttChart: seq<GanttEntry>)
      returns (ganttChart': seq<GanttEntry>, currentTime': int)
      requires |processes| == |queue| && 0 <= i < |queue|
      requires forall j :: i <= j < |queue| ==> processes[j] == queue[j]
      requires FirstCome.Outcome(queue[..i], processes[..i], ganttChart)
      requires currentTime == FirstCome.FreeBefore(processes, i)
      modifies this
      ensures |processes| == |queue| && forall j :: i + 1 <= j < |queue| ==> processes[j] == queue[j]
      ensures FirstCome.Outcome(queue[..i + 1], processes[..i + 1], ganttChart')
      ensures currentTime' == FirstCome.FreeBefore(processes, i + 1)
    {
      assert processes[i] == queue[i];
      var start := currentTime;
      if start < processes[i].arrivalTime {
        start := processes[i].arrivalTime;
      }
      FcfsStep(queue, processes, ganttChart, i, start);
      ganttChart', currentTime' := ServeJob(i, start, ganttChart);
    }
    /**
     * Process idx runs to completion from `currentTime` (the body both
     * non-preemptive loops share): its start, response, completion,
     * turnaround and waiting times are recorded, and the chart gains its
     * entry.
     */
    method ServeJob(idx: int, currentTime: int, ganttChart: seq<GanttEntry>)
      returns (ganttChart': seq<GanttEntry>, completionTime: int)
      requires 0 <= idx < |processes|
      modifies this
      ensures processes == old(processes)[idx := ServeAt(old(processes)[idx], currentTime)]
      ensures completionTime == currentTime + old(processes)[idx].burstTime
      ensures ganttChart' == ganttChart + [GanttEntry(old(processes)[idx].pid, currentTime, completionTime)]
    {
      var p := processes[idx];
      p := p.(startTime := currentTime, responseTime := currentTime - p.arrivalTime);
      var start := currentTime;
      completionTime := currentTime + p.burstTime;
      ganttChart' := ganttChart + [GanttEntry(p.pid, start, completionTime)];
      p := p.(completionTime := completionTime);
      p := p.(turnaroundTime := p.completionTime - p.arrivalTime);
      p := p.(waitingTime := p.turnaroundTime - p.burstTime);
      processes := processes[idx := p];
    }

    /**
     * One run of the non-preemptive loop: the chosen process is served to
     * completion and marked completed, which is the next state of the
     * specification.
     */
    method ServeChosen(ghost s: NonPreemptive.State, idx: int, currentTime: int, isCompleted: seq<bool>,
                       ganttChart: seq<GanttEntry>)
      returns (ganttChart': seq<GanttEntry>, currentTime': int, isCompleted': seq<bool>)
      requires s.ps == processes && s.done == isCompleted && s.gantt == ganttChart
      requires |isCompleted| == |processes| && 0 <= idx < |processes|
      modifies this
      ensures NonPreemptive.RunJob(s, idx, currentTime)
        == NonPreemptive.State(processes, isCompleted', currentTime', ganttChart')
    {
      NonPreemptive.RunJobShape(s, idx, currentTime);
      ganttChart', currentTime' := ServeJob(idx, currentTime, ganttChart);
      isCompleted' := isCompleted[idx := true];
    }

    /**
     * The loop the two non-preemptive algorithms share (SJF and
     * non-preemptive priority), on the working list as it stands: at each
     * decision point the scan of `policy` picks a ready process, which then
     * runs to completion; when none is ready the clock jumps to the earliest
     * arrival among the processes not yet completed.  The ghost `order`
     * lists the processes in the order they ran, each the policy's choice at
     * its decision point.
     */
    method NonPreemptiveLoop(policy: Policy) returns (ganttChart: seq<GanttEntry>, ghost order: seq<int>)
      modifies this
      ensures NonPreemptive.ValidOrder(policy, old(processes), order) && |order| == |old(processes)|
      ensures processes == NonPreemptive.After(old(processes), order).ps
      ensures ganttChart == NonPreemptive.After(old(processes), order).gantt
      ensures WellFormed(old(processes)) ==> Scheduled(old(processes), processes, ganttChart)
    {
      ghost var ps0 := processes;
      var n := |processes|;
      var currentTime := 0;
      var completed := 0;
      ganttChart := [];
      var isCompleted := seq(n, _ => false);
      order := [];
      ghost var s := NonPreemptive.Initial(ps0);
      NonPreemptive.CountTrueZero(isCompleted);
      while completed < n
        invariant NonPreemptive.ValidOrder(policy, ps0, order) && |order| == completed <= n
        invariant s == NonPreemptive.After(ps0, order)
        invariant processes == s.ps && isCompleted == s.done && ganttChart == s.gantt
        invariant currentTime == s.time || currentTime == NonPreemptive.Dispatch(s)
        invariant CountTrue(isCompleted) == completed
        decreases n - completed, if currentTime == NonPreemptive.Dispatch(s) then 0 else 1
      {
        var idx;
        if policy == ShortestFirst {
          idx := ShortestJobScan(processes, isCompleted, currentTime);
        } else {
          idx := PriorityScan(processes, isCompleted, currentTime);
        }
        if idx == -1 {
          NonPreemptiveIdle(policy, ps0, order, currentTime);
          currentTime := EarliestArrival(processes, isCompleted);
          continue;
        }
        NonPreemptiveRun(policy, ps0, order, currentTime, idx);
        ganttChart, currentTime, isCompleted := ServeChosen(s, idx, currentTime, isCompleted, ganttChart);
        completed := completed + 1;
        s, order := NonPreemptive.After(ps0, order + [idx]), order + [idx];
      }
      if WellFormed(ps0) {
        NonPreemptiveScheduled(policy, ps0, order);
      }
    }
    /**
     * The loop the two preemptive algorithms share (SRTF and preemptive
     * priority), on the working list as it stands: at each time unit the
     * scan of `policy` picks a ready process, which runs for that unit and
     * extends the chart; when none is ready the unit is idle.  The ghost
     * `ticks` lists what each unit did.  The loop ends only because every
     * process has time left at the start: a process without any is never
     * picked and never counted complete.  A first runner with pid -1 would
     * make the source index an empty chart.
     */
    method PreemptiveLoop(policy: Policy) returns (ganttChart: seq<GanttEntry>, ghost ticks: seq<int>)
      requires forall i :: 0 <= i < |processes| ==> processes[i].remainingTime > 0 && processes[i].pid != Unset
      modifies this
      ensures Preemptive.CompleteTicks(policy, old(processes), ticks)
      ensures processes == Preemptive.After(old(processes), ticks).ps
      ensures ganttChart == Preemptive.After(old(processes), ticks).gantt
      ensures WellFormed(old(processes)) && UniquePids(old(processes)) ==>
        && Scheduled(old(processes), processes, ganttChart) && NoRepeatedNeighbour(ganttChart)
        && forall i :: 0 <= i < |processes| ==>
             processes[i].remainingTime == 0 && DurationOf(ganttChart, processes[i].pid) == processes[i].burstTime
    {
      ghost var ps0 := processes;
      var currentTime := 0;
      var completed := 0;
      var n := |processes|;
      ganttChart := [];
      var lastPid := Unset;
      ghost var maxArrival := if n == 0 then 0 else LatestArrival(processes);
      ticks := [];
      assert forall i :: 0 <= i < n ==> Get(processes[i], Exhausted) == 0;
      SumZero(processes, Exhausted);
      while completed < n
        invariant PreemptiveKept(policy, ps0, ticks)
        invariant Preemptive.After(ps0, ticks) == Preemptive.State(processes, currentTime, ganttChart)
        invariant lastPid == LastPid(ganttChart)
        invariant completed == Sum(processes, Exhausted)
        decreases PreemptiveMeasure(Preemptive.After(ps0, ticks), maxArrival)
      {
        currentTime, lastPid, completed, ganttChart, ticks :=
          PreemptiveTick(policy, ps0, ticks, maxArrival, currentTime, lastPid, completed, ganttChart);
      }
      ExhaustedCount(processes);
      PreemptiveDone(policy, ps0, ticks);
      if WellFormed(ps0) && UniquePids(ps0) {
        PreemptiveScheduled(policy, ps0, ticks);
      }
    }

    /**
     * One iteration of the preemptive loop: the scan of `policy` at the
     * current time decides the next tick, which either idles or runs the
     * chosen process for one unit; the loop's bookkeeping follows the
     * specification's state and the termination measure drops.
     */
    method PreemptiveTick(policy: Policy, ghost ps0: seq<Process>, ghost ticks: seq<int>, ghost maxArrival: int,
                          currentTime: int, lastPid: int, completed: int, ganttChart: seq<GanttEntry>)
      returns (currentTime': int, lastPid': int, completed': int, ganttChart': seq<GanttEntry>, ghost ticks': seq<int>)
      requires forall i :: 0 <= i < |ps0| ==> ps0[i].pid != Unset && ps0[i].arrivalTime <= maxArrival
      requires PreemptiveKept(policy, ps0, ticks)
      requires Preemptive.After(ps0, ticks) == Preemptive.State(processes, currentTime, ganttChart)
      requires lastPid == LastPid(ganttChart)
      requires completed == Sum(processes, Exhausted) < |processes|
      modifies this
      ensures PreemptiveKept(policy, ps0, ticks')
      ensures Preemptive.After(ps0, ticks') == Preemptive.State(processes, currentTime', ganttChart')
      ensures lastPid' == LastPid(ganttChart')
      ensures completed' == Sum(processes, Exhausted)
      ensures 0 <= PreemptiveMeasure(Preemptive.After(ps0, ticks'), maxArrival)
                < PreemptiveMeasure(Preemptive.After(ps0, ticks), maxArrival)
    {
      ExhaustedCount(processes);
      var idx;
      if policy == ShortestFirst {
        idx := ShortestRemainingScan(processes, currentTime);
      } else {
        idx := PreemptivePriorityScan(processes, currentTime);
      }
      ticks' := ticks + [idx];
      lastPid', completed', ganttChart' := lastPid, completed, ganttChart;
      if idx == -1 {
        PreemptiveIdleStep(policy, ps0, ticks, maxArrival);
        currentTime' := currentTime + 1;
        return;
      }
      PreemptiveRunStep(policy, ps0, ticks, idx, maxArrival);
      var finished;
      ganttChart', lastPid', finished := RunTick(idx, currentTime, lastPid, ganttChart);
      currentTime' := currentTime + 1;
      if finished {
        completed' := completed + 1;
      }
    }

    /**
     * One time unit of process idx in the preemptive loop: it records its
     * first run, the chart extends the entry of the previous unit when the
     * same pid ran then (or ran last before an idle gap) and otherwise gets
     * a new entry, and the process loses one unit and completes when that
     * was its last.
     */
    method RunTick(idx: int, currentTime: int, lastPid: int, ganttChart: seq<GanttEntry>)
      returns (ganttChart': seq<GanttEntry>, lastPid': int, finished: bool)
      requires 0 <= idx < |processes| && processes[idx].pid != Unset
      requires lastPid == LastPid(ganttChart)
      modifies this
      ensures Preemptive.RunTick(Preemptive.State(old(processes), currentTime, ganttChart), idx)
        == Preemptive.State(processes, currentTime + 1, ganttChart')
      ensures lastPid' == LastPid(ganttChart')
      ensures finished == (processes[idx].remainingTime == 0)
    {
      ghost var s := Preemptive.State(processes, currentTime, ganttChart);
      var p := processes[idx];
      if p.startTime == Unset {
        p := p.(startTime := currentTime, responseTime := currentTime - p.arrivalTime);
      }
      assert p == FirstRun(s.ps[idx], currentTime);
      ganttChart', lastPid' := ChartTick(ganttChart, lastPid, p.pid, currentTime);
      p := p.(remainingTime := p.remainingTime - 1);
      ghost var ran := p;
      finished := false;
      if p.remainingTime == 0 {
        p := p.(completionTime := currentTime + 1);
        p := p.(turnaroundTime := p.completionTime - p.arrivalTime);
        p := p.(waitingTime := p.turnaroundTime - p.burstTime);
        assert p == CompleteAt(ran, currentTime + 1);
        finished := true;
      }
      processes := processes[idx := p];
      assert processes == Preemptive.RunTick(s, idx).ps;
    }

    /**
     * Shortest job first, non-preemptive: a fresh copy of the processes is
     * run by the shared non-preemptive loop with the shortest burst first.
     */
    method Sjf() returns (r: SchedulingResult, ghost order: seq<int>)
      modifies this
      ensures NonPreemptive.ValidOrder(ShortestFirst, originalProcesses, order) && |order| == |originalProcesses|
      ensures processes == NonPreemptive.After(originalProcesses, order).ps
      ensures r == CalculateMetrics("SJF", processes, NonPreemptive.After(originalProcesses, order).gantt)
      ensures WellFormed(originalProcesses) ==> Scheduled(originalProcesses, processes, r.ganttChart)
    {
      ResetProcesses();
      var ganttChart;
      ganttChart, order := NonPreemptiveLoop(ShortestFirst);
      r := CalculateMetrics("SJF", processes, ganttChart);
    }

    /**
     * Shortest remaining time first: a fresh copy of the processes is run
     * by the shared preemptive loop with the least remaining time first.
     * The source takes the latest arrival of the list first, which fails on
     * an empty list.
     */
    method Srtf() returns (r: SchedulingResult, ghost ticks: seq<int>)
      requires originalProcesses != []
      requires forall i :: 0 <= i < |originalProcesses| ==>
        originalProcesses[i].remainingTime > 0 && originalProcesses[i].pid != Unset
      modifies this
      ensures Preemptive.CompleteTicks(ShortestFirst, originalProcesses, ticks)
      ensures processes == Preemptive.After(originalProcesses, ticks).ps
      ensures r == CalculateMetrics("SRTF", processes, Preemptive.After(originalProcesses, ticks).gantt)
      ensures WellFormed(originalProcesses) && UniquePids(originalProcesses) ==>
        && Scheduled(originalProcesses, processes, r.ganttChart) && NoRepeatedNeighbour(r.ganttChart)
        && forall i :: 0 <= i < |processes| ==> DurationOf(r.ganttChart, processes[i].pid) == processes[i].burstTime
    {
      ResetProcesses();
      // The source's `max_arrival`: never read, but it makes the run fail on an empty list.
      var maxArrival := LatestArrival(processes);
      var ganttChart;
      ganttChart, ticks := PreemptiveLoop(ShortestFirst);
      r := CalculateMetrics("SRTF", processes, ganttChart);
    }

    /**
     * Priority scheduling (a lower number is more urgent): a fresh copy of
     * the processes, then the preemptive or the non-preemptive variant.
     * The ghost `decisions` is the variant's schedule: the order of the
     * runs, or what each time unit did.
     */
    method PriorityScheduling(preemptive: bool := false) returns (r: SchedulingResult, ghost decisions: seq<int>)
      requires preemptive ==> forall i :: 0 <= i < |originalProcesses| ==>
        originalProcesses[i].remainingTime > 0 && originalProcesses[i].pid != Unset
      modifies this
      ensures !preemptive ==>
        && NonPreemptive.ValidOrder(PriorityFirst, originalProcesses, decisions)
        && |decisions| == |originalProcesses|
        && processes == NonPreemptive.After(originalProcesses, decisions).ps
        && r == CalculateMetrics("Priority (Non-Preemptive)", processes,
                                 NonPreemptive.After(originalProcesses, decisions).gantt)
      ensures preemptive ==>
        && Preemptive.CompleteTicks(PriorityFirst, originalProcesses, decisions)
        && processes == Preemptive.After(originalProcesses, decisions).ps
        && r == CalculateMetrics("Priority (Preemptive)", processes,
                                 Preemptive.After(originalProcesses, decisions).gantt)
      ensures WellFormed(originalProcesses) && (preemptive ==> UniquePids(originalProcesses)) ==>
        Scheduled(originalProcesses, processes, r.ganttChart)
    {
      ResetProcesses();
      if preemptive {
        r, decisions := PriorityPreemptive();
      } else {
        r, decisions := PriorityNonPreemptive();
      }
    }

    /** Non-preemptive priority on the working list as it stands. */
    method PriorityNonPreemptive() returns (r: SchedulingResult, ghost order: seq<int>)
      modifies this
      ensures NonPreemptive.ValidOrder(PriorityFirst, old(processes), order) && |order| == |old(processes)|
      ensures processes == NonPreemptive.After(old(processes), order).ps
      ensures r == CalculateMetrics("Priority (Non-Preemptive)", processes, NonPreemptive.After(old(processes), order).gantt)
      ensures WellFormed(old(processes)) ==> Scheduled(old(processes), processes, r.ganttChart)
    {
      var ganttChart;
      ganttChart, order := NonPreemptiveLoop(PriorityFirst);
      r := CalculateMetrics("Priority (Non-Preemptive)", processes, ganttChart);
    }

    /** Preemptive priority on the working list as it stands. */
    method PriorityPreemptive() returns (r: SchedulingResult, ghost ticks: seq<int>)
      requires forall i :: 0 <= i < |processes| ==> processes[i].remainingTime > 0 && processes[i].pid != Unset
      modifies this
      ensures Preemptive.CompleteTicks(PriorityFirst, old(processes), ticks)
      ensures processes == Preemptive.After(old(processes), ticks).ps
      ensures r == CalculateMetrics("Priority (Preemptive)", processes, Preemptive.After(old(processes), ticks).gantt)
      ensures WellFormed(old(processes)) && UniquePids(old(processes)) ==>
        && Scheduled(old(processes), processes, r.ganttChart) && NoRepeatedNeighbour(r.ganttChart)
        && forall i :: 0 <= i < |processes| ==> DurationOf(r.ganttChart, processes[i].pid) == processes[i].burstTime
    {
      var ganttChart;
      ganttChart, ticks := PreemptiveLoop(PriorityFirst);
      r := CalculateMetrics("Priority (Preemptive)", processes, ganttChart);
    }

    /**
     * Round robin with quantum `timeQuantum`: the processes arriving at 0
     * are queued in index order; the head of the queue runs for the quantum
     * or what it has left, whichever is less; the processes that arrived by
     * the end of the slice (and still have time left) join the queue in
     * index order, and then the head rejoins at the back unless it is done.
     * An empty queue with processes left makes the clock jump to the
     * earliest arrival not yet queued.  Each step is one of RR.Jump
     * and RR.Slice; the ghost `slices` lists, per chart entry, the
     * index of the process that ran.
     */
    method RoundRobin(timeQuantum: int := 2) returns (r: SchedulingResult, ghost slices: seq<int>)
      requires WellFormed(originalProcesses) && timeQuantum > 0
      modifies this
      ensures r == CalculateMetrics(RoundRobinName(timeQuantum), processes, r.ganttChart)
      ensures processes == RR.Schedule(originalProcesses, timeQuantum).ps
      ensures r.ganttChart == RR.Schedule(originalProcesses, timeQuantum).gantt
      ensures slices == RR.Schedule(originalProcesses, timeQuantum).slices
      ensures Scheduled(originalProcesses, processes, r.ganttChart)
      ensures forall i :: 0 <= i < |processes| ==> processes[i].remainingTime == 0
      ensures |slices| == |r.ganttChart|
      ensures forall k :: 0 <= k < |r.ganttChart| ==>
        && 0 <= slices[k] < |processes| && r.ganttChart[k].pid == processes[slices[k]].pid
        && 0 < Duration(r.ganttChart[k]) <= timeQuantum
      ensures forall k :: 0 <= k < |r.ganttChart| && Duration(r.ganttChart[k]) < timeQuantum ==>
        processes[slices[k]].completionTime == r.ganttChart[k].end
      ensures forall i :: 0 <= i < |processes| ==>
        RR.SliceTime(r.ganttChart, slices, i) == processes[i].burstTime
      ensures RR.GapsOk(processes, r.ganttChart)
      ensures timeQuantum == 1 ==>
        |r.ganttChart| == Sum(processes, Burst) && r.contextSwitches == Sum(processes, Burst) - 1
    {
      ResetProcesses();
      ghost var ps0 := processes;
      var ganttChart;
      ghost var st;
      ganttChart, slices, st := RoundRobinLoop(timeQuantum);
      RR.FinalState(ps0, timeQuantum, st);
      if timeQuantum == 1 {
        UnitEntries(ganttChart);
      }
      r := CalculateMetrics(RoundRobinName(timeQuantum), processes, ganttChart);
    }

    /**
     * The round-robin loop on the working list as it stands.  Each
     * iteration is a jump or a slice of RR; when it stops, the queue is
     * empty, every process has run out and the round-robin invariant holds
     * of the final state `st`, which is the working list, the chart and the
     * ghost `slices`.
     */
    method RoundRobinLoop(timeQuantum: int) returns (ganttChart: seq<GanttEntry>, ghost slices: seq<int>, ghost st: RR.State)
      requires WellFormed(processes) && timeQuantum > 0
      modifies this
      ensures st.ps == processes && st.gantt == ganttChart && st.slices == slices
      ensures st == RR.Schedule(old(processes), timeQuantum)
      ensures RR.Invariant(old(processes), timeQuantum, st) && st.queue == [] && Sum(st.ps, Exhausted) == |st.ps|
    {
      ghost var ps0 := processes;
      var currentTime := 0;
      ganttChart := [];
      var n := |processes|;
      var completed := 0;
      var queue, visited := RR.InitialQueue(processes);
      slices := [];
      st := RR.Initial(ps0);
      RR.InitialInvariant(ps0, timeQuantum);
      assert forall i :: 0 <= i < n ==> Get(processes[i], Exhausted) == 0;
      SumZero(processes, Exhausted);
      while completed < n || queue != []
        invariant st == RR.State(processes, queue, visited, currentTime, ganttChart, slices)
        invariant RR.Invariant(ps0, timeQuantum, st)
        invariant completed == Sum(processes, Exhausted)
        invariant RR.Run(ps0, timeQuantum, st) == RR.Schedule(ps0, timeQuantum)
        decreases RR.Measure(st)
      {
        RR.MeasureNonNegative(ps0, timeQuantum, st);
        if queue == [] {
          queue, visited, currentTime, st := RoundRobinJump(ps0, timeQuantum, queue, visited, currentTime, st);
          continue;
        }
        RR.SliceInvariant(ps0, timeQuantum, st);
        RR.RunSlice(ps0, timeQuantum, st);
        RR.InvariantHeadReady(ps0, timeQuantum, st);
        queue, visited, currentTime, ganttChart, completed, slices, st :=
          RoundRobinSlice(timeQuantum, queue, visited, currentTime, ganttChart, completed, slices, st);
      }
      ExhaustedCount(processes);
    }

    /**
     * The round-robin loop with an empty queue: the clock jumps to the
     * earliest arrival not yet enqueued and the arrivals by then join.  The
     * loop's bookkeeping follows the specification's state, the invariant
     * is kept and the measure drops.
     */
    method RoundRobinJump(ghost ps0: seq<Process>, timeQuantum: int, queue: seq<int>, visited: seq<bool>,
                          currentTime: int, ghost st: RR.State)
      returns (queue': seq<int>, visited': seq<bool>, currentTime': int, ghost st': RR.State)
      requires st.ps == processes && st.queue == queue && st.visited == visited && st.time == currentTime
      requires RR.Invariant(ps0, timeQuantum, st)
      requires Sum(processes, Exhausted) < |processes| && queue == []
      ensures st' == RR.State(processes, queue', visited', currentTime', st.gantt, st.slices)
      ensures RR.Invariant(ps0, timeQuantum, st')
      ensures RR.Measure(st') < RR.Measure(st)
      ensures RR.Run(ps0, timeQuantum, st') == RR.Run(ps0, timeQuantum, st)
    {
      RR.JumpPossible(ps0, timeQuantum, st);
      RR.RunJump(ps0, timeQuantum, st);
      currentTime' := EarliestArrival(processes, visited);
      queue', visited' := RR.EnqueueArrivals(processes, visited, queue, currentTime', false);
      RR.JumpInvariant(ps0, timeQuantum, st);
      st' := RR.Jump(st);
    }

    /**
     * The round-robin loop with a non-empty queue: the head runs one slice.
     * The loop's bookkeeping follows the specification's state and the
     * completed count follows the exhausted processes.
     */
    method RoundRobinSlice(timeQuantum: int, queue: seq<int>, visited: seq<bool>,
                           currentTime: int, ganttChart: seq<GanttEntry>, completed: int,
                           ghost slices: seq<int>, ghost st: RR.State)
      returns (queue': seq<int>, visited': seq<bool>, currentTime': int, ganttChart': seq<GanttEntry>,
               completed': int, ghost slices': seq<int>, ghost st': RR.State)
      requires st == RR.State(processes, queue, visited, currentTime, ganttChart, slices)
      requires RR.HeadReady(timeQuantum, st) && completed == Sum(processes, Exhausted)
      modifies this
      ensures st' == RR.Slice(st, timeQuantum)
      ensures st' == RR.State(processes, queue', visited', currentTime', ganttChart', slices')
      ensures completed' == Sum(processes, Exhausted)
    {
      RR.SliceSums(timeQuantum, st);
      var finished;
      queue', visited', currentTime', ganttChart', finished :=
        RunSlice(queue, visited, currentTime, ganttChart, timeQuantum, slices);
      completed' := completed;
      if finished {
        completed' := completed + 1;
      }
      slices' := slices + [queue[0]];
      st' := RR.Slice(st, timeQuantum);
    }

    /**
     * One slice of round robin: the head of the queue records its first
     * run and runs for the quantum or what it has left, the chart gains
     * the slice, the processes that arrived by its end and have time left
     * join the queue, and the head rejoins at the back, or completes.
     */
    method RunSlice(queue: seq<int>, visited: seq<bool>, currentTime: int, ganttChart: seq<GanttEntry>,
                    timeQuantum: int, ghost slices: seq<int>)
      returns (queue': seq<int>, visited': seq<bool>, currentTime': int, ganttChart': seq<GanttEntry>, finished: bool)
      requires queue != [] && 0 <= queue[0] < |processes| == |visited|
      modifies this
      ensures RR.Slice(RR.State(old(processes), queue, visited, currentTime, ganttChart, slices), timeQuantum)
              == RR.State(processes, queue', visited', currentTime', ganttChart', slices + [queue[0]])
      ensures finished == (processes[queue[0]].remainingTime == 0)
    {
      var idx := queue[0];
      queue' := queue[1..];
      var p := processes[idx];
      if p.startTime == Unset {
        p := p.(startTime := currentTime, responseTime := currentTime - p.arrivalTime);
      }
      var execTime := if timeQuantum < p.remainingTime then timeQuantum else p.remainingTime;
      var start := currentTime;
      currentTime' := currentTime + execTime;
      ganttChart' := ganttChart + [GanttEntry(p.pid, start, currentTime')];
      p := p.(remainingTime := p.remainingTime - execTime);
      processes := processes[idx := p];
      queue', visited' := RR.EnqueueArrivals(processes, visited, queue', currentTime', true);
      finished := false;
      if p.remainingTime > 0 {
        queue' := queue' + [idx];
      } else {
        p := p.(completionTime := currentTime');
        p := p.(turnaroundTime := p.completionTime - p.arrivalTime);
        p := p.(waitingTime := p.turnaroundTime - p.burstTime);
        processes := processes[idx := p];
        finished := true;
      }
    }
  }
}
