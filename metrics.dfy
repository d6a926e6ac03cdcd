/**
 * The result record of one algorithm run and the shared metrics step that
 * builds it from the finished processes and the Gantt chart.
 */
module Metrics {
  import opened Processes
  import opened Gantt

  /**
   * What one algorithm run hands back.  The averages, throughput and CPU
   * utilisation are fractions; they are kept as exact reals.
   */
  datatype SchedulingResult = SchedulingResult(
    algorithm: string,
    processes: seq<Process>,
    ganttChart: seq<GanttEntry>,
    avgWaitingTime: real,
    avgTurnaroundTime: real,
    avgResponseTime: real,
    throughput: real,
    cpuUtilization: real,
    totalTime: int,
    contextSwitches: int)

  /** Latest completion time of the run, 0 for an empty list. */
  function MaxCompletion(ps: seq<Process>): (m: int)
    ensures ps == [] ==> m == 0
    ensures ps != [] ==> exists i :: 0 <= i < |ps| && ps[i].completionTime == m
    ensures forall i :: 0 <= i < |ps| ==> ps[i].completionTime <= m || ps == []
  {
    if |ps| <= 1 then (if ps == [] then 0 else ps[0].completionTime)
    else
      var m := MaxCompletion(ps[..|ps| - 1]);
      if ps[|ps| - 1].completionTime > m then ps[|ps| - 1].completionTime else m
  }

  /** `total / n`, and 0 when there is nothing to divide by. */
  function Ratio(total: int, n: int): (r: real)
    ensures n > 0 ==> r * n as real == total as real
    ensures n <= 0 ==> r == 0.0
  {
    if n > 0 then total as real / n as real else 0.0
  }

  /**
   * The shared metrics step.  Averages are totals divided by the number of
   * processes; the response total counts only set response times but is
   * still divided by all of them.  The total time is the latest completion;
   * utilisation (in percent) and throughput are 0 when it is not positive,
   * the averages when the list is empty.  A context switch is counted for
   * every boundary between two chart entries, so an empty chart gives -1.
   */
  function CalculateMetrics(algorithm: string, ps: seq<Process>, gantt: seq<GanttEntry>): (r: SchedulingResult)
    ensures r.algorithm == algorithm && r.processes == ps && r.ganttChart == gantt
    ensures r.contextSwitches == |gantt| - 1
    ensures r.totalTime == MaxCompletion(ps)
    ensures r.avgWaitingTime == Ratio(Sum(ps, Waiting), |ps|)
    ensures r.avgTurnaroundTime == Ratio(Sum(ps, Turnaround), |ps|)
    ensures r.avgResponseTime == Ratio(Sum(ps, SetResponse), |ps|)
    ensures r.throughput == Ratio(|ps|, r.totalTime)
    ensures r.cpuUtilization == Ratio(Sum(ps, Burst) * 100, r.totalTime)
  {
    var n := |ps|;
    var totalTime := MaxCompletion(ps);
    var avgWaiting := Ratio(Sum(ps, Waiting), n);
    var avgTurnaround := Ratio(Sum(ps, Turnaround), n);
    var avgResponse := Ratio(Sum(ps, SetResponse), n);
    var throughput := Ratio(n, totalTime);
    var utilisation := Ratio(Sum(ps, Burst) * 100, totalTime);
    SchedulingResult(algorithm, ps, gantt, avgWaiting, avgTurnaround, avgResponse,
                     throughput, utilisation, totalTime, |gantt| - 1)
  }

  /** Dividing a sum is summing the quotients. */
  lemma RatioAdditive(a: int, b: int, n: int)
    ensures Ratio(a + b, n) == Ratio(a, n) + Ratio(b, n)
  {
    if n > 0 {
      var d := n as real;
      assert (a + b) as real / d == a as real / d + b as real / d;
    }
  }

  /** Quotients by the same positive divisor are ordered like the dividends. */
  lemma RatioMonotone(a: int, b: int, n: int)
    requires a <= b
    ensures Ratio(a, n) <= Ratio(b, n)
  {
    if n > 0 {
      var d := n as real;
      assert b as real / d - a as real / d == (b - a) as real / d;
    }
  }

  /** A share of parts no larger than the whole, in percent, lies in (0, 100]. */
  lemma PercentBound(part: int, whole: int)
    requires 0 < part <= whole
    ensures 0.0 < Ratio(part * 100, whole) <= 100.0
  {
    var d := whole as real;
    assert (part * 100) as real / d == 100.0 * (part as real / d);
    assert part as real / d <= 1.0;
  }

  /** Every process of the list has run to completion. */
  predicate AllFinished(ps: seq<Process>) {
    forall i :: 0 <= i < |ps| ==> ValidJob(ps[i]) && IsFinished(ps[i])
  }

  /**
   * The averages of a run in which every process finished: none is
   * negative, the average turnaround exceeds the average waiting time by
   * the average burst, and the average response time is at most the
   * average waiting time.
   */
  lemma {:induction false} FinishedAverages(algorithm: string, ps: seq<Process>, gantt: seq<GanttEntry>)
    requires AllFinished(ps) && ps != []
    ensures var r := CalculateMetrics(algorithm, ps, gantt);
      && 0.0 <= r.avgResponseTime <= r.avgWaitingTime
      && r.avgTurnaroundTime == r.avgWaitingTime + Ratio(Sum(ps, Burst), |ps|)
  {
    FinishedSums(ps);
    AveragesOf(Sum(ps, Waiting), Sum(ps, Turnaround), Sum(ps, Burst), Sum(ps, SetResponse), |ps|);
  }

  /** The totals of a finished run: turnaround = waiting + burst, and 0 <= response <= waiting. */
  lemma FinishedSums(ps: seq<Process>)
    requires AllFinished(ps)
    ensures Sum(ps, Turnaround) == Sum(ps, Waiting) + Sum(ps, Burst)
    ensures 0 <= Sum(ps, SetResponse) <= Sum(ps, Waiting)
  {
    SumAdditive(ps, Turnaround, Waiting, Burst);
    SumMonotone(ps, SetResponse, Waiting);
    assert forall i :: 0 <= i < |ps| ==> Get(ps[i], SetResponse) >= 0;
    SumNonNegative(ps, SetResponse);
  }

  /** The averages follow the totals: dividing by the same count keeps sums and order. */
  lemma AveragesOf(waiting: int, turnaround: int, burst: int, response: int, n: int)
    requires turnaround == waiting + burst && 0 <= response <= waiting
    ensures 0.0 <= Ratio(response, n) <= Ratio(waiting, n)
    ensures Ratio(turnaround, n) == Ratio(waiting, n) + Ratio(burst, n)
  {
    RatioAdditive(waiting, burst, n);
    RatioMonotone(response, waiting, n);
    RatioMonotone(0, response, n);
  }

  /**
   * When the chart is well-ordered, accounts for every burst and ends by the
   * total time, the CPU utilisation is a percentage in (0, 100] and the
   * throughput is positive.
   */
  lemma {:induction false} UtilisationBound(algorithm: string, ps: seq<Process>, gantt: seq<GanttEntry>)
    requires forall i :: 0 <= i < |ps| ==> ValidJob(ps[i])
    requires ps != []
    requires WellOrdered(gantt) && TotalDuration(gantt) == Sum(ps, Burst)
    requires EndTime(gantt) <= MaxCompletion(ps)
    ensures var r := CalculateMetrics(algorithm, ps, gantt);
      && 0.0 < r.cpuUtilization <= 100.0
      && 0.0 < r.throughput
  {
    var total := MaxCompletion(ps);
    assert forall i :: 0 <= i < |ps| ==> Get(ps[i], Burst) >= 0;
    assert Get(ps[0], Burst) > 0;
    SumNonNegative(ps, Burst);
    WellOrderedWithin(gantt);
    PercentBound(Sum(ps, Burst), total);
    assert 0.0 < |ps| as real / total as real;
  }
}
