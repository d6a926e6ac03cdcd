/**
 * First come, first served: the processes, stably sorted by arrival, run
 * to completion one after the other; the CPU waits for a process that has
 * not arrived yet.
 */
module FirstCome {
  import opened Processes
  import opened Gantt
  import opened Metrics
  import opened Sorting

  /** When a process whose predecessor completes at `free` starts: not before it arrives. */
  function StartAfter(free: int, p: Process): (t: int)
    ensures t >= free && t >= p.arrivalTime
    ensures t == free || t == p.arrivalTime
  {
    if free < p.arrivalTime then p.arrivalTime else free
  }

  /** When the CPU becomes free for position i of the served list: 0 for the first. */
  function FreeBefore(out: seq<Process>, i: int): int
    requires 0 <= i <= |out|
  {
    if i == 0 then 0 else out[i - 1].completionTime
  }

  /**
   * `out` and `gantt` are what FCFS makes of the list `queue` (already in
   * serving order): position i is served from the later of its arrival and
   * the completion of position i - 1 (0 for the first), and owns the chart
   * entry at position i.
   */
  predicate Outcome(queue: seq<Process>, out: seq<Process>, gantt: seq<GanttEntry>) {
    && |out| == |queue| && |gantt| == |queue|
    && (forall i {:trigger queue[i]} :: 0 <= i < |queue| ==>
          out[i] == ServeAt(queue[i], StartAfter(FreeBefore(out, i), queue[i])))
    && (forall i {:trigger gantt[i]} :: 0 <= i < |queue| ==>
          gantt[i] == GanttEntry(queue[i].pid, out[i].startTime, out[i].completionTime))
  }

  /** The outcome is determined by the queue. */
  lemma OutcomeUnique(queue: seq<Process>, out1: seq<Process>, g1: seq<GanttEntry>, out2: seq<Process>, g2: seq<GanttEntry>)
    requires Outcome(queue, out1, g1) && Outcome(queue, out2, g2)
    ensures out1 == out2 && g1 == g2
  {
    forall i | 0 <= i < |queue| ensures out1[i] == out2[i] {
      OutcomeUniqueUpTo(queue, out1, g1, out2, g2, i);
    }
  }

  lemma {:induction false} OutcomeUniqueUpTo(queue: seq<Process>, out1: seq<Process>, g1: seq<GanttEntry>,
                                             out2: seq<Process>, g2: seq<GanttEntry>, i: int)
    requires Outcome(queue, out1, g1) && Outcome(queue, out2, g2)
    requires 0 <= i < |queue|
    ensures out1[i] == out2[i]
  {
    if i > 0 {
      OutcomeUniqueUpTo(queue, out1, g1, out2, g2, i - 1);
    }
    assert out1[i] == ServeAt(queue[i], StartAfter(FreeBefore(out1, i), queue[i]));
    assert out2[i] == ServeAt(queue[i], StartAfter(FreeBefore(out2, i), queue[i]));
  }

  lemma OutcomePrefix(queue: seq<Process>, out: seq<Process>, gantt: seq<GanttEntry>, m: int)
    requires Outcome(queue, out, gantt) && 0 <= m <= |queue|
    ensures Outcome(queue[..m], out[..m], gantt[..m])
  {
  }

  /** Position j of the outcome of valid jobs, on its own. */
  lemma OutcomeAt(queue: seq<Process>, out: seq<Process>, gantt: seq<GanttEntry>, j: int)
    requires Outcome(queue, out, gantt) && 0 <= j < |queue| && ValidJob(queue[j])
    ensures SameJob(out[j], queue[j]) && out[j].remainingTime == queue[j].remainingTime
    ensures ValidJob(out[j]) && IsFinished(out[j])
    ensures FreeBefore(out, j) <= out[j].startTime < out[j].completionTime
    ensures FreeBefore(out, j) < out[j].startTime ==> out[j].startTime == out[j].arrivalTime
    ensures out[j].completionTime == out[j].startTime + out[j].burstTime
    ensures gantt[j] == GanttEntry(out[j].pid, out[j].startTime, out[j].completionTime)
  {
    var t := StartAfter(FreeBefore(out, j), queue[j]);
    assert out[j] == ServeAt(queue[j], t);
  }

  /**
   * For valid jobs FCFS finishes every process with its inputs and
   * remaining time untouched; each one starts no earlier than its
   * predecessor completes, and later than that only at its own arrival
   * (the CPU never idles while a process waits).
   */
  lemma OutcomeJobs(queue: seq<Process>, out: seq<Process>, gantt: seq<GanttEntry>)
    requires forall i :: 0 <= i < |queue| ==> ValidJob(queue[i])
    requires Outcome(queue, out, gantt)
    ensures AllFinished(out) && SameJobs(out, queue)
    ensures forall i :: 0 <= i < |queue| ==> out[i].remainingTime == queue[i].remainingTime
    ensures forall i :: 0 < i < |queue| ==> out[i - 1].completionTime <= out[i].startTime
    ensures forall i :: 0 < i < |queue| && out[i - 1].completionTime < out[i].startTime ==>
      out[i].startTime == out[i].arrivalTime
  {
    forall j | 0 <= j < |queue|
      ensures ValidJob(out[j]) && IsFinished(out[j]) && SameJob(out[j], queue[j])
      ensures out[j].remainingTime == queue[j].remainingTime
      ensures FreeBefore(out, j) <= out[j].startTime
      ensures FreeBefore(out, j) < out[j].startTime ==> out[j].startTime == out[j].arrivalTime
    {
      OutcomeAt(queue, out, gantt, j);
    }
  }

  /**
   * The chart of valid jobs is well-ordered, accounts for every burst and
   * ends at the latest completion.
   */
  lemma OutcomeChart(queue: seq<Process>, out: seq<Process>, gantt: seq<GanttEntry>)
    requires forall i :: 0 <= i < |queue| ==> ValidJob(queue[i])
    requires Outcome(queue, out, gantt)
    ensures WellOrdered(gantt)
    ensures TotalDuration(gantt) == Sum(out, Burst)
    ensures EndTime(gantt) == MaxCompletion(out)
  {
    forall j | 0 <= j < |queue|
      ensures 0 <= gantt[j].start < gantt[j].end
      ensures j > 0 ==> gantt[j - 1].end <= gantt[j].start
    {
      OutcomeAt(queue, out, gantt, j);
      if j > 0 {
        OutcomeAt(queue, out, gantt, j - 1);
      }
    }
    OutcomeTotal(queue, out, gantt);
    if queue != [] {
      var m := |queue| - 1;
      OutcomeAt(queue, out, gantt, m);
      forall i | 0 <= i < |queue| ensures out[i].completionTime <= out[m].completionTime {
        OutcomeCompletionsGrow(queue, out, gantt, i, m);
      }
    }
  }

  lemma {:induction false} OutcomeCompletionsGrow(queue: seq<Process>, out: seq<Process>, gantt: seq<GanttEntry>, i: int, j: int)
    requires forall k :: 0 <= k < |queue| ==> ValidJob(queue[k])
    requires Outcome(queue, out, gantt)
    requires 0 <= i <= j < |queue|
    ensures out[i].completionTime <= out[j].completionTime
  {
    if i < j {
      OutcomeCompletionsGrow(queue, out, gantt, i, j - 1);
      OutcomeAt(queue, out, gantt, j);
    }
  }

  lemma {:induction false} OutcomeTotal(queue: seq<Process>, out: seq<Process>, gantt: seq<GanttEntry>)
    requires forall i :: 0 <= i < |queue| ==> ValidJob(queue[i])
    requires Outcome(queue, out, gantt)
    ensures TotalDuration(gantt) == Sum(out, Burst)
  {
    if queue != [] {
      var m := |queue| - 1;
      OutcomePrefix(queue, out, gantt, m);
      OutcomeTotal(queue[..m], out[..m], gantt[..m]);
      OutcomeAt(queue, out, gantt, m);
    }
  }

  /**
   * FCFS proper: the queue is the input stably sorted by arrival, so
   * processes are served in order of arrival (input order among equal
   * arrivals), and with increasing start times.
   */
  lemma ServedInArrivalOrder(ps: seq<Process>, out: seq<Process>, gantt: seq<GanttEntry>)
    requires forall i :: 0 <= i < |ps| ==> ValidJob(ps[i])
    requires Outcome(SortByArrival(ps), out, gantt)
    ensures multiset(SortByArrival(ps)) == multiset(ps)
    ensures forall a :: ArrivingAt(SortByArrival(ps), a) == ArrivingAt(ps, a)
    ensures forall i, j :: 0 <= i < j < |out| ==>
      out[i].arrivalTime <= out[j].arrivalTime && out[i].startTime < out[j].startTime
  {
    SortByArrivalPermutes(ps);
    forall a ensures ArrivingAt(SortByArrival(ps), a) == ArrivingAt(ps, a) {
      SortByArrivalStable(ps, a);
    }
    SortedStarts(ps, out, gantt);
  }

  /** Served from the sorted list, arrivals and start times both grow along the outcome. */
  lemma SortedStarts(ps: seq<Process>, out: seq<Process>, gantt: seq<GanttEntry>)
    requires forall i :: 0 <= i < |ps| ==> ValidJob(ps[i])
    requires Outcome(SortByArrival(ps), out, gantt)
    ensures forall i, j :: 0 <= i < j < |out| ==>
      out[i].arrivalTime <= out[j].arrivalTime && out[i].startTime < out[j].startTime
  {
    var queue := SortByArrival(ps);
    SortByArrivalSorted(ps);
    SortByArrivalMembers(ps);
    forall i | 0 <= i < |queue| ensures ValidJob(queue[i]) {
      assert queue[i] in ps;
    }
    forall i, j | 0 <= i < j < |out|
      ensures out[i].arrivalTime <= out[j].arrivalTime && out[i].startTime < out[j].startTime
    {
      StartsGrow(queue, out, gantt, i, j);
    }
  }

  lemma StartsGrow(queue: seq<Process>, out: seq<Process>, gantt: seq<GanttEntry>, i: int, j: int)
    requires forall k :: 0 <= k < |queue| ==> ValidJob(queue[k])
    requires SortedByArrival(queue)
    requires Outcome(queue, out, gantt) && 0 <= i < j < |queue|
    ensures out[i].arrivalTime <= out[j].arrivalTime && out[i].startTime < out[j].startTime
  {
    OutcomeAt(queue, out, gantt, i);
    OutcomeCompletionsGrow(queue, out, gantt, i, j - 1);
    OutcomeAt(queue, out, gantt, j);
  }

  /** A single process runs from its arrival: waiting and response time 0. */
  lemma SingleProcess(p: Process, out: seq<Process>, gantt: seq<GanttEntry>)
    requires p.arrivalTime >= 0
    requires Outcome([p], out, gantt)
    ensures out[0].startTime == p.arrivalTime
    ensures out[0].completionTime == p.arrivalTime + p.burstTime
    ensures out[0].waitingTime == 0 && out[0].responseTime == 0
    ensures gantt == [GanttEntry(p.pid, p.arrivalTime, p.arrivalTime + p.burstTime)]
  {
    assert out[0] == ServeAt([p][0], StartAfter(0, [p][0]));
    assert gantt[0] == GanttEntry(p.pid, out[0].startTime, out[0].completionTime);
  }
}
