/**
 * Round robin with a quantum no shorter than any burst, on processes that
 * all arrive at time 0, is first come, first served: every process runs
 * once, to completion, in input order, so the chart and the metrics are
 * those of FCFS on the same list.
 */
module LongQuantum {
  import opened Processes
  import opened Gantt
  import opened Metrics
  import opened Sorting
  import FC = FirstCome
  import RR = RoundRobin

  /** Every process arrives at time 0 and fits in one quantum. */
  predicate AllAtZeroWithin(ps: seq<Process>, q: int) {
    forall i :: 0 <= i < |ps| ==> ps[i].arrivalTime == 0 && ps[i].burstTime <= q
  }

  /** Sorting by arrival leaves a list whose processes all arrive at time 0 as it is. */
  lemma {:induction false} SortAllAtZero(ps: seq<Process>)
    requires forall i :: 0 <= i < |ps| ==> ps[i].arrivalTime == 0
    ensures SortByArrival(ps) == ps
  {
    if ps != [] {
      SortAllAtZero(ps[1..]);
      assert [ps[0]] + ps[1..] == ps;
    }
  }

  /** With every process arriving at time 0, the initial queue is every index in order. */
  lemma {:induction false} AtZeroAll(ps: seq<Process>, m: int)
    requires forall i :: 0 <= i < |ps| ==> ps[i].arrivalTime == 0
    requires 0 <= m <= |ps|
    ensures RR.AtZero(ps, m) == seq(m, i => i)
  {
    if m > 0 {
      AtZeroAll(ps, m - 1);
      assert seq(m - 1, i => i) + [m - 1] == seq(m, i => i);
    }
  }

  /** Once every process is visited, nobody joins and the flags stay as they are. */
  lemma {:induction false} NoneJoin(ps: seq<Process>, visited: seq<bool>, t: int, needsRemaining: bool, m: int)
    requires |ps| == |visited| && 0 <= m <= |ps|
    requires forall i :: 0 <= i < |visited| ==> visited[i]
    ensures RR.Arrivals(ps, visited, t, needsRemaining, m) == []
    ensures RR.Visit(ps, visited, t, needsRemaining) == visited
  {
    if m > 0 {
      NoneJoin(ps, visited, t, needsRemaining, m - 1);
    }
  }

  /**
   * The round-robin state once the first k processes have run, one slice
   * each: they hold their FCFS record with nothing left, the others are
   * untouched; the queue holds the indices from k on, every process is
   * visited, and the clock and the chart are where FCFS has them.
   */
  ghost function After(ps0: seq<Process>, out: seq<Process>, gantt: seq<GanttEntry>, k: int): RR.State
    requires |out| == |ps0| == |gantt| && 0 <= k <= |ps0|
  {
    RR.State(seq(|ps0|, i requires 0 <= i < |ps0| => if i < k then out[i].(remainingTime := 0) else ps0[i]),
             seq(|ps0| - k, i => k + i), seq(|ps0|, _ => true),
             FC.FreeBefore(out, k), gantt[..k], seq(k, i => i))
  }

  lemma InitialAfter(ps0: seq<Process>, out: seq<Process>, gantt: seq<GanttEntry>)
    requires forall i :: 0 <= i < |ps0| ==> ps0[i].arrivalTime == 0
    requires |out| == |ps0| == |gantt|
    ensures RR.Initial(ps0) == After(ps0, out, gantt, 0)
  {
    AtZeroAll(ps0, |ps0|);
  }

  /** The FCFS clock before position k is never negative. */
  lemma FreeBeforeNonNegative(ps0: seq<Process>, out: seq<Process>, gantt: seq<GanttEntry>, k: int)
    requires WellFormed(ps0) && FC.Outcome(ps0, out, gantt) && 0 <= k <= |ps0|
    ensures FC.FreeBefore(out, k) >= 0
  {
    if k > 0 {
      assert out[k - 1] == ServeAt(ps0[k - 1], FC.StartAfter(FC.FreeBefore(out, k - 1), ps0[k - 1]));
    }
  }

  /** The process at position k runs its whole burst in one slice, as FCFS serves it. */
  lemma ServedLikeFcfs(ps0: seq<Process>, q: int, out: seq<Process>, gantt: seq<GanttEntry>, k: int)
    requires WellFormed(ps0) && AllAtZeroWithin(ps0, q) && FC.Outcome(ps0, out, gantt) && 0 <= k < |ps0|
    ensures var t := FC.FreeBefore(out, k);
      var p := FirstRun(ps0[k], t);
      var d := RR.SliceLength(q, p.remainingTime);
      && d == ps0[k].burstTime
      && CompleteAt(p.(remainingTime := p.remainingTime - d), t + d) == out[k].(remainingTime := 0)
      && t + d == FC.FreeBefore(out, k + 1)
      && gantt[k] == GanttEntry(ps0[k].pid, t, t + d)
  {
    FreeBeforeNonNegative(ps0, out, gantt, k);
    assert out[k] == ServeAt(ps0[k], FC.StartAfter(FC.FreeBefore(out, k), ps0[k]));
    assert gantt[k] == GanttEntry(ps0[k].pid, out[k].startTime, out[k].completionTime);
  }

  /** The pieces of the state after k + 1 processes, from those after k. */
  lemma AfterNext(ps0: seq<Process>, out: seq<Process>, gantt: seq<GanttEntry>, k: int, ran: Process)
    requires |out| == |ps0| == |gantt| && 0 <= k < |ps0|
    ensures After(ps0, out, gantt, k).ps[k := ran][k := out[k].(remainingTime := 0)] == After(ps0, out, gantt, k + 1).ps
    ensures After(ps0, out, gantt, k).queue[1..] == After(ps0, out, gantt, k + 1).queue
    ensures gantt[..k] + [gantt[k]] == gantt[..k + 1]
    ensures After(ps0, out, gantt, k).slices + [k] == After(ps0, out, gantt, k + 1).slices
  {
  }

  /** One slice moves the run from k processes served to k + 1. */
  lemma SliceAfter(ps0: seq<Process>, q: int, out: seq<Process>, gantt: seq<GanttEntry>, k: int)
    requires WellFormed(ps0) && AllAtZeroWithin(ps0, q) && FC.Outcome(ps0, out, gantt) && 0 <= k < |ps0|
    ensures RR.Slice(After(ps0, out, gantt, k), q) == After(ps0, out, gantt, k + 1)
  {
    var s := After(ps0, out, gantt, k);
    var t := FC.FreeBefore(out, k);
    var p := FirstRun(s.ps[k], t);
    var d := RR.SliceLength(q, p.remainingTime);
    var ran := p.(remainingTime := p.remainingTime - d);
    var ps1 := s.ps[k := ran];
    ServedLikeFcfs(ps0, q, out, gantt, k);
    NoneJoin(ps1, s.visited, t + d, true, |ps1|);
    AfterNext(ps0, out, gantt, k, ran);
  }

  /** From k processes served, the run ends with all of them served. */
  lemma {:induction false} RunAfter(ps0: seq<Process>, q: int, out: seq<Process>, gantt: seq<GanttEntry>, k: int)
    requires WellFormed(ps0) && AllAtZeroWithin(ps0, q) && FC.Outcome(ps0, out, gantt) && 0 <= k <= |ps0|
    requires RR.Invariant(ps0, q, After(ps0, out, gantt, k))
    decreases |ps0| - k, 1
    ensures RR.Run(ps0, q, After(ps0, out, gantt, k)) == After(ps0, out, gantt, |ps0|)
  {
    if k == |ps0| {
      RunAfterAll(ps0, q, out, gantt);
    } else {
      RunAfterStep(ps0, q, out, gantt, k);
    }
  }

  lemma RunAfterAll(ps0: seq<Process>, q: int, out: seq<Process>, gantt: seq<GanttEntry>)
    requires |out| == |ps0| == |gantt|
    requires RR.Invariant(ps0, q, After(ps0, out, gantt, |ps0|))
    ensures RR.Run(ps0, q, After(ps0, out, gantt, |ps0|)) == After(ps0, out, gantt, |ps0|)
  {
    var s := After(ps0, out, gantt, |ps0|);
    assert forall i :: 0 <= i < |s.ps| ==> s.ps[i].remainingTime == 0;
    ExhaustedCount(s.ps);
    RR.RunDone(ps0, q, s);
  }

  lemma {:induction false} RunAfterStep(ps0: seq<Process>, q: int, out: seq<Process>, gantt: seq<GanttEntry>, k: int)
    requires WellFormed(ps0) && AllAtZeroWithin(ps0, q) && FC.Outcome(ps0, out, gantt) && 0 <= k < |ps0|
    requires RR.Invariant(ps0, q, After(ps0, out, gantt, k))
    decreases |ps0| - k, 0
    ensures RR.Run(ps0, q, After(ps0, out, gantt, k)) == After(ps0, out, gantt, |ps0|)
  {
    RR.RunSlice(ps0, q, After(ps0, out, gantt, k));
    SliceAfter(ps0, q, out, gantt, k);
    RunAfter(ps0, q, out, gantt, k + 1);
  }

  /** Two lists that agree on completion times have the same latest completion. */
  lemma SameMaxCompletion(ps: seq<Process>, qs: seq<Process>)
    requires |ps| == |qs|
    requires forall i :: 0 <= i < |ps| ==> ps[i].completionTime == qs[i].completionTime
    ensures MaxCompletion(ps) == MaxCompletion(qs)
  {
    if ps != [] {
      var i :| 0 <= i < |ps| && ps[i].completionTime == MaxCompletion(ps);
      var j :| 0 <= j < |qs| && qs[j].completionTime == MaxCompletion(qs);
      assert qs[i].completionTime <= MaxCompletion(qs);
      assert ps[j].completionTime <= MaxCompletion(ps);
    }
  }

  /** Lists that differ only in remaining times report the same metrics. */
  lemma SameMetrics(ps: seq<Process>, out: seq<Process>, gantt: seq<GanttEntry>, name: string)
    requires |ps| == |out| && forall i :: 0 <= i < |out| ==> ps[i] == out[i].(remainingTime := 0)
    ensures CalculateMetrics(name, ps, gantt) == CalculateMetrics(name, out, gantt).(processes := ps)
  {
    SumPointwise(ps, Waiting, out, Waiting);
    SumPointwise(ps, Turnaround, out, Turnaround);
    SumPointwise(ps, SetResponse, out, SetResponse);
    SumPointwise(ps, Burst, out, Burst);
    SameMaxCompletion(ps, out);
  }

  /**
   * The long-quantum run ends where FCFS does: the FCFS chart, and each
   * process with its FCFS record and nothing remaining.
   */
  lemma LongQuantumRun(ps0: seq<Process>, q: int, out: seq<Process>, gantt: seq<GanttEntry>)
    requires WellFormed(ps0) && q > 0 && AllAtZeroWithin(ps0, q)
    requires FC.Outcome(ps0, out, gantt)
    ensures RR.Schedule(ps0, q).gantt == gantt
    ensures |RR.Schedule(ps0, q).ps| == |out|
    ensures forall i :: 0 <= i < |out| ==> RR.Schedule(ps0, q).ps[i] == out[i].(remainingTime := 0)
  {
    RR.InitialInvariant(ps0, q);
    InitialAfter(ps0, out, gantt);
    RunAfter(ps0, q, out, gantt, 0);
    assert gantt[..|ps0|] == gantt;
  }

  /**
   * Round robin with a quantum no shorter than any burst, on well-formed
   * processes all arriving at time 0, makes the FCFS chart of the same
   * list, leaves each process with its FCFS record and nothing remaining,
   * and so reports the same metrics: the two results differ only in the
   * remaining times of the process list.
   */
  lemma LongQuantumIsFcfs(ps0: seq<Process>, q: int, out: seq<Process>, gantt: seq<GanttEntry>, name: string)
    requires WellFormed(ps0) && q > 0 && AllAtZeroWithin(ps0, q)
    requires FC.Outcome(SortByArrival(ps0), out, gantt)
    ensures RR.Schedule(ps0, q).gantt == gantt
    ensures |RR.Schedule(ps0, q).ps| == |out|
    ensures forall i :: 0 <= i < |out| ==> RR.Schedule(ps0, q).ps[i] == out[i].(remainingTime := 0)
    ensures CalculateMetrics(name, RR.Schedule(ps0, q).ps, gantt)
         == CalculateMetrics(name, out, gantt).(processes := RR.Schedule(ps0, q).ps)
  {
    SortAllAtZero(ps0);
    LongQuantumRun(ps0, q, out, gantt);
    SameMetrics(RR.Schedule(ps0, q).ps, out, gantt, name);
  }

  /**
   * Two processes arriving together with unit bursts and quantum 1: the
   * first in the list runs first, then the second, whatever their pids.
   */
  lemma TwoAtZeroInListOrder(x: int, y: int)
    ensures RR.Schedule([NewProcess(x, 0, 1, 0), NewProcess(y, 0, 1, 0)], 1).gantt
         == [GanttEntry(x, 0, 1), GanttEntry(y, 1, 2)]
  {
    var ps := [NewProcess(x, 0, 1, 0), NewProcess(y, 0, 1, 0)];
    var out := [ServeAt(ps[0], 0), ServeAt(ps[1], 1)];
    var g := [GanttEntry(x, 0, 1), GanttEntry(y, 1, 2)];
    assert FC.Outcome(ps, out, g);
    LongQuantumRun(ps, 1, out, g);
  }
}
