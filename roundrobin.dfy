/**
 * Round robin: a FIFO queue of indices; the head runs for at most one
 * quantum, processes that have arrived meanwhile join the queue in index
 * order, and then the head rejoins at the back if it has time left.  When
 * the queue runs dry the clock jumps to the next arrival.  The run is
 * stated as a state machine with two steps, a slice and a jump.
 */
module RoundRobin {
  import opened Processes
  import opened Gantt
  import opened Selection
  import opened Metrics

  /** The loop's state: the working list, the queue, the visited flags, the clock, the chart and, per entry, the index it ran. */
  datatype State = State(ps: seq<Process>, queue: seq<int>, visited: seq<bool>, time: int,
                         gantt: seq<GanttEntry>, slices: seq<int>)

  predicate Consistent(s: State) {
    |s.visited| == |s.ps|
  }

  /**
   * Process i joins the queue at time t: it has arrived, has not been
   * queued before and, when the scan asks for it, still has time left.
   */
  predicate Joins(ps: seq<Process>, visited: seq<bool>, t: int, needsRemaining: bool, i: int)
    requires 0 <= i < |ps| == |visited|
  {
    ps[i].arrivalTime <= t && !visited[i] && (!needsRemaining || ps[i].remainingTime > 0)
  }

  /** The indices below m that join, in increasing order. */
  function Arrivals(ps: seq<Process>, visited: seq<bool>, t: int, needsRemaining: bool, m: int): seq<int>
    requires |ps| == |visited| && 0 <= m <= |ps|
  {
    if m == 0 then []
    else Arrivals(ps, visited, t, needsRemaining, m - 1) + (if Joins(ps, visited, t, needsRemaining, m - 1) then [m - 1] else [])
  }

  /** The visited flags once the indices below m that join are marked. */
  function VisitBelow(ps: seq<Process>, visited: seq<bool>, t: int, needsRemaining: bool, m: int): (r: seq<bool>)
    requires |ps| == |visited|
    ensures |r| == |visited|
  {
    seq(|visited|, j requires 0 <= j < |visited| => visited[j] || (j < m && Joins(ps, visited, t, needsRemaining, j)))
  }

  function Visit(ps: seq<Process>, visited: seq<bool>, t: int, needsRemaining: bool): (r: seq<bool>)
    requires |ps| == |visited|
    ensures |r| == |visited|
  {
    VisitBelow(ps, visited, t, needsRemaining, |ps|)
  }

  /** The arrivals are strictly increasing indices below m. */
  lemma {:induction false} ArrivalsOrdered(ps: seq<Process>, visited: seq<bool>, t: int, needsRemaining: bool, m: int)
    requires |ps| == |visited| && 0 <= m <= |ps|
    ensures forall x :: 0 <= x < |Arrivals(ps, visited, t, needsRemaining, m)| ==>
      0 <= Arrivals(ps, visited, t, needsRemaining, m)[x] < m
    ensures forall x, y :: 0 <= x < y < |Arrivals(ps, visited, t, needsRemaining, m)| ==>
      Arrivals(ps, visited, t, needsRemaining, m)[x] < Arrivals(ps, visited, t, needsRemaining, m)[y]
  {
    if m > 0 {
      ArrivalsOrdered(ps, visited, t, needsRemaining, m - 1);
      var b := Arrivals(ps, visited, t, needsRemaining, m - 1);
      var a := Arrivals(ps, visited, t, needsRemaining, m);
      assert forall x :: 0 <= x < |b| ==> a[x] == b[x];
      assert |a| > |b| ==> a[|b|] == m - 1;
    }
  }

  /** An index below m is among the arrivals exactly when it joins. */
  lemma {:induction false} ArrivalsMembers(ps: seq<Process>, visited: seq<bool>, t: int, needsRemaining: bool, m: int)
    requires |ps| == |visited| && 0 <= m <= |ps|
    ensures forall i :: 0 <= i < m ==> (i in Arrivals(ps, visited, t, needsRemaining, m) <==> Joins(ps, visited, t, needsRemaining, i))
  {
    if m > 0 {
      ArrivalsMembers(ps, visited, t, needsRemaining, m - 1);
      ArrivalsOrdered(ps, visited, t, needsRemaining, m - 1);
      var b := Arrivals(ps, visited, t, needsRemaining, m - 1);
      assert m - 1 !in b;
    }
  }

  /** Marking the arrivals adds their number to the visited count. */
  lemma {:induction false} ArrivalsCount(ps: seq<Process>, visited: seq<bool>, t: int, needsRemaining: bool, m: int)
    requires |ps| == |visited| && 0 <= m <= |ps|
    ensures CountTrue(VisitBelow(ps, visited, t, needsRemaining, m)) == CountTrue(visited) + |Arrivals(ps, visited, t, needsRemaining, m)|
  {
    if m == 0 {
      assert VisitBelow(ps, visited, t, needsRemaining, 0) == visited;
    } else {
      ArrivalsCount(ps, visited, t, needsRemaining, m - 1);
      var v := VisitBelow(ps, visited, t, needsRemaining, m - 1);
      var w := VisitBelow(ps, visited, t, needsRemaining, m);
      if Joins(ps, visited, t, needsRemaining, m - 1) {
        assert w == v[m - 1 := true];
        CountTrueSet(v, m - 1);
      } else {
        assert w == v;
      }
    }
  }

  /**
   * The arrivals at time t are the joining indices, strictly increasing;
   * marking flags exactly them, and adds their number to the visited count.
   */
  lemma ArrivalsAll(ps: seq<Process>, visited: seq<bool>, t: int, needsRemaining: bool)
    requires |ps| == |visited|
    ensures var a := Arrivals(ps, visited, t, needsRemaining, |ps|);
      && (forall x, y :: 0 <= x < y < |a| ==> a[x] < a[y])
      && (forall x :: 0 <= x < |a| ==> 0 <= a[x] < |ps| && Joins(ps, visited, t, needsRemaining, a[x]))
      && (forall i :: 0 <= i < |ps| && Joins(ps, visited, t, needsRemaining, i) ==> i in a)
      && (forall i :: 0 <= i < |ps| ==>
            Visit(ps, visited, t, needsRemaining)[i] == (visited[i] || Joins(ps, visited, t, needsRemaining, i)))
      && CountTrue(Visit(ps, visited, t, needsRemaining)) == CountTrue(visited) + |a|
  {
    ArrivalsOrdered(ps, visited, t, needsRemaining, |ps|);
    ArrivalsMembers(ps, visited, t, needsRemaining, |ps|);
    ArrivalsCount(ps, visited, t, needsRemaining, |ps|);
  }

  /** The processes that arrive at time 0, in index order: the queue the run starts with. */
  function AtZero(ps: seq<Process>, m: int): seq<int>
    requires 0 <= m <= |ps|
  {
    if m == 0 then [] else AtZero(ps, m - 1) + (if ps[m - 1].arrivalTime == 0 then [m - 1] else [])
  }

  function Initial(ps0: seq<Process>): (s: State)
    ensures Consistent(s)
  {
    State(ps0, AtZero(ps0, |ps0|), seq(|ps0|, i requires 0 <= i < |ps0| => ps0[i].arrivalTime == 0), 0, [], [])
  }

  /** With arrivals no earlier than 0 the initial queue is the join scan at time 0 over an unvisited list. */
  lemma {:induction false} AtZeroArrivals(ps: seq<Process>, m: int)
    requires forall i :: 0 <= i < |ps| ==> ps[i].arrivalTime >= 0
    requires 0 <= m <= |ps|
    ensures AtZero(ps, m) == Arrivals(ps, seq(|ps|, _ => false), 0, false, m)
  {
    if m > 0 {
      AtZeroArrivals(ps, m - 1);
    }
  }

  /** Some process has not been queued yet. */
  predicate SomeUnvisited(s: State)
    requires Consistent(s)
  {
    exists i :: 0 <= i < |s.ps| && !s.visited[i]
  }

  /** The jump of an empty queue: the clock moves to the earliest unvisited arrival, and every process arrived by then joins. */
  function Jump(s: State): State
    requires Consistent(s) && SomeUnvisited(s)
  {
    var t := EarliestArrival(s.ps, s.visited);
    State(s.ps, s.queue + Arrivals(s.ps, s.visited, t, false, |s.ps|), Visit(s.ps, s.visited, t, false),
          t, s.gantt, s.slices)
  }

  /** The length of a slice: the quantum, or what is left when that is less (the source's `min`). */
  function SliceLength(q: int, remaining: int): (d: int)
    ensures d <= q && d <= remaining && (d == q || d == remaining)
  {
    if q < remaining then q else remaining
  }

  /**
   * One slice: the head of the queue runs (recording its first run) for a
   * slice, the chart gains one entry for it, the processes that arrived by
   * the end of the slice and have time left join, and then the head
   * rejoins at the back if it has time left, or completes.
   */
  function Slice(s: State, q: int): State
    requires Consistent(s) && s.queue != [] && 0 <= s.queue[0] < |s.ps|
  {
    var idx := s.queue[0];
    var t := s.time;
    var p := FirstRun(s.ps[idx], t);
    var t1 := t + SliceLength(q, p.remainingTime);
    var ran := p.(remainingTime := p.remainingTime - SliceLength(q, p.remainingTime));
    var ps1 := s.ps[idx := ran];
    var joined := Arrivals(ps1, s.visited, t1, true, |ps1|);
    var visited1 := Visit(ps1, s.visited, t1, true);
    var gantt1 := s.gantt + [GanttEntry(ran.pid, t, t1)];
    if ran.remainingTime > 0 then State(ps1, s.queue[1..] + joined + [idx], visited1, t1, gantt1, s.slices + [idx])
    else State(ps1[idx := CompleteAt(ran, t1)], s.queue[1..] + joined, visited1, t1, gantt1, s.slices + [idx])
  }

  /** The CPU time the entries of index i have received. */
  function SliceTime(gantt: seq<GanttEntry>, slices: seq<int>, i: int): int
    requires |gantt| == |slices|
  {
    if gantt == [] then 0
    else
      SliceTime(gantt[..|gantt| - 1], slices[..|slices| - 1], i)
      + (if slices[|slices| - 1] == i then Duration(gantt[|gantt| - 1]) else 0)
  }

  lemma AppendSlice(gantt: seq<GanttEntry>, slices: seq<int>, e: GanttEntry, idx: int)
    requires |gantt| == |slices|
    ensures forall i :: SliceTime(gantt + [e], slices + [idx], i) == SliceTime(gantt, slices, i) + (if i == idx then Duration(e) else 0)
  {
    assert (gantt + [e])[..|gantt|] == gantt;
    assert (slices + [idx])[..|slices|] == slices;
  }

  /** When the CPU fell free before entry k: the end of entry k - 1, or 0. */
  function FreeBefore(g: seq<GanttEntry>, k: int): int
    requires 0 <= k <= |g|
  {
    if k == 0 then 0 else g[k - 1].end
  }

  /**
   * What holds of the processes between steps, for well-formed inputs: an
   * unvisited process is untouched and has not arrived, a visited one has;
   * the remaining time stays in [0, burst]; one that has run arrived by its
   * start and has had burst - remaining units since; one with nothing left
   * is finished, no later than the chart's end.
   */
  predicate JobsInvariant(ps0: seq<Process>, s: State) {
    && Consistent(s) && |s.ps| == |ps0| && 0 <= s.time && EndTime(s.gantt) <= s.time
    && forall i :: 0 <= i < |ps0| ==> JobInvariant(ps0[i], s.ps[i], s.visited[i], s.time, EndTime(s.gantt))
  }

  /** The clauses of JobsInvariant for one process, whose input record is p0. */
  predicate JobInvariant(p0: Process, p: Process, visited: bool, time: int, chartEnd: int) {
    && SameJob(p, p0)
    && (!visited ==> p == p0 && p.arrivalTime > time)
    && (visited ==> p.arrivalTime <= time)
    && 0 <= p.remainingTime <= p.burstTime
    && (p.remainingTime == p.burstTime ==> p == p0)
    && (p.remainingTime < p.burstTime ==>
          && p.arrivalTime <= p.startTime
          && p.responseTime == p.startTime - p.arrivalTime
          && p.startTime + (p.burstTime - p.remainingTime) <= time)
    && (p.remainingTime == 0 ==> IsFinished(p) && p.completionTime <= chartEnd)
  }

  /**
   * The queue holds distinct visited indices with time left, and every
   * visited index with time left is in it.
   */
  predicate QueueInvariant(s: State)
    requires Consistent(s)
  {
    && (forall i :: i in s.queue ==> 0 <= i < |s.ps| && s.visited[i] && s.ps[i].remainingTime > 0)
    && (forall a, b :: 0 <= a < b < |s.queue| ==> s.queue[a] != s.queue[b])
    && (forall i :: 0 <= i < |s.ps| && s.visited[i] && s.ps[i].remainingTime > 0 ==> i in s.queue)
  }

  /**
   * The chart between steps: its entries are in order (EntriesOk), short
   * slices complete their process (ShortSlicesComplete), each process has
   * had burst - remaining units (ServiceOk); when the chart ended before
   * the clock, every process that had arrived before the clock is done;
   * and before every gap in the chart every process that had arrived by
   * the gap's end was done (GapsOk).
   */
  predicate ChartInvariant(ps0: seq<Process>, q: int, s: State)
    requires Consistent(s) && |s.ps| == |ps0|
  {
    && EntriesOk(ps0, q, s.gantt, s.slices)
    && ShortSlicesComplete(s.ps, q, s.gantt, s.slices)
    && ServiceOk(ps0, s.ps, s.gantt, s.slices)
    && (EndTime(s.gantt) < s.time ==>
          forall i :: 0 <= i < |ps0| && s.ps[i].arrivalTime < s.time ==> s.ps[i].remainingTime == 0)
    && GapsOk(s.ps, s.gantt)
  }

  /**
   * The chart is well-ordered, has one index per entry, whose pid the
   * entry carries, and every entry lasts between 1 and q units.
   */
  predicate EntriesOk(ps0: seq<Process>, q: int, g: seq<GanttEntry>, slices: seq<int>) {
    && WellOrdered(g) && |slices| == |g|
    && (forall k :: 0 <= k < |g| ==>
          && 0 <= slices[k] < |ps0| && g[k].pid == ps0[slices[k]].pid
          && 0 < Duration(g[k]) <= q)
  }

  /**
   * An entry shorter than q is the slice in which its process completed,
   * and the last entry's process, once done, completed at the chart's end.
   */
  predicate ShortSlicesComplete(ps: seq<Process>, q: int, g: seq<GanttEntry>, slices: seq<int>)
    requires |slices| == |g|
  {
    && (forall k :: 0 <= k < |g| && 0 <= slices[k] < |ps| && Duration(g[k]) < q ==>
          ps[slices[k]].remainingTime == 0 && ps[slices[k]].completionTime == g[k].end)
    && (g != [] && 0 <= slices[|g| - 1] < |ps| && ps[slices[|g| - 1]].remainingTime == 0 ==>
          ps[slices[|g| - 1]].completionTime == EndTime(g))
  }

  /** Each process has had burst - remaining units of CPU, and the chart accounts for all of them. */
  predicate ServiceOk(ps0: seq<Process>, ps: seq<Process>, g: seq<GanttEntry>, slices: seq<int>)
    requires |slices| == |g| && |ps| == |ps0|
  {
    && (forall i :: 0 <= i < |ps0| ==> SliceTime(g, slices, i) == ps0[i].burstTime - ps[i].remainingTime)
    && TotalDuration(g) == Sum(ps0, Burst) - Sum(ps, Remaining)
  }

  /** Before every gap in the chart, every process that had arrived by the gap's end was done. */
  predicate GapsOk(ps: seq<Process>, g: seq<GanttEntry>) {
    forall k, i ::
      (0 <= k < |g| && FreeBefore(g, k) < g[k].start && 0 <= i < |ps| && ps[i].arrivalTime < g[k].start) ==>
      ps[i].remainingTime == 0 && ps[i].completionTime <= FreeBefore(g, k)
  }

  predicate Invariant(ps0: seq<Process>, q: int, s: State) {
    && WellFormed(ps0) && q > 0
    && JobsInvariant(ps0, s) && QueueInvariant(s) && ChartInvariant(ps0, q, s)
  }

  /** What the loop still has to do: remaining time, and processes not yet queued. */
  function Measure(s: State): int
    requires Consistent(s)
  {
    Sum(s.ps, Remaining) + (|s.ps| - CountTrue(s.visited))
  }

  lemma InitialInvariant(ps0: seq<Process>, q: int)
    requires WellFormed(ps0) && q > 0
    ensures Invariant(ps0, q, Initial(ps0))
  {
    var s := Initial(ps0);
    forall i | 0 <= i < |ps0| ensures JobInvariant(ps0[i], s.ps[i], s.visited[i], s.time, EndTime(s.gantt)) {
      assert ValidJob(ps0[i]) && IsFresh(ps0[i]);
    }
    assert JobsInvariant(ps0, s);
    InitialQueueInvariant(ps0);
    InitialChart(ps0, q);
  }

  lemma InitialChart(ps0: seq<Process>, q: int)
    requires WellFormed(ps0)
    ensures ChartInvariant(ps0, q, Initial(ps0))
  {
    var s := Initial(ps0);
    SumPointwise(ps0, Burst, ps0, Remaining);
    forall i | 0 <= i < |ps0| ensures SliceTime(s.gantt, s.slices, i) == ps0[i].burstTime - s.ps[i].remainingTime {
      assert IsFresh(ps0[i]);
    }
  }

  lemma InitialQueueInvariant(ps0: seq<Process>)
    requires WellFormed(ps0)
    ensures QueueInvariant(Initial(ps0))
  {
    var s := Initial(ps0);
    var none := seq(|ps0|, _ => false);
    AtZeroArrivals(ps0, |ps0|);
    ArrivalsAll(ps0, none, 0, false);
    forall i | 0 <= i < |ps0| ensures s.visited[i] == Joins(ps0, none, 0, false, i) {
      assert ValidJob(ps0[i]);
    }
  }

  /** An unfinished run with an empty queue has a process still to arrive. */
  lemma JumpPossible(ps0: seq<Process>, q: int, s: State)
    requires Invariant(ps0, q, s) && s.queue == []
    requires Sum(s.ps, Exhausted) < |s.ps|
    ensures SomeUnvisited(s)
  {
    ExhaustedCount(s.ps);
    var i :| 0 <= i < |s.ps| && s.ps[i].remainingTime != 0;
    assert i !in s.queue;
  }

  /**
   * The jump keeps the invariant, moves the clock forward and lets at
   * least one process join.
   */
  lemma JumpInvariant(ps0: seq<Process>, q: int, s: State)
    requires Invariant(ps0, q, s) && s.queue == [] && SomeUnvisited(s)
    ensures Invariant(ps0, q, Jump(s))
    ensures Jump(s).time > s.time && Measure(Jump(s)) < Measure(s)
  {
    JumpJobs(ps0, q, s);
    EmptyQueueSplit(ps0, q, s);
    JumpQueue(s);
    JumpChart(ps0, q, s);
  }

  lemma JumpJobs(ps0: seq<Process>, q: int, s: State)
    requires JobsInvariant(ps0, s) && SomeUnvisited(s)
    ensures JobsInvariant(ps0, Jump(s))
    ensures Jump(s).time > s.time && Measure(Jump(s)) < Measure(s)
  {
    var t := EarliestArrival(s.ps, s.visited);
    ArrivalsAll(s.ps, s.visited, t, false);
    var r := Jump(s);
    var j :| 0 <= j < |s.ps| && !s.visited[j] && s.ps[j].arrivalTime == t;
    assert JobInvariant(ps0[j], s.ps[j], s.visited[j], s.time, EndTime(s.gantt));
    assert Joins(s.ps, s.visited, t, false, j);
    forall i | 0 <= i < |ps0| ensures JobInvariant(ps0[i], r.ps[i], r.visited[i], r.time, EndTime(r.gantt)) {
      assert JobInvariant(ps0[i], s.ps[i], s.visited[i], s.time, EndTime(s.gantt));
      JumpJob(ps0[i], s.ps[i], s.visited[i], r.visited[i], s.time, t, EndTime(s.gantt));
    }
  }

  /** One process across a jump of the clock from `time` to t: it is queued exactly when it has arrived by t. */
  lemma JumpJob(p0: Process, p: Process, visited: bool, visited': bool, time: int, t: int, chartEnd: int)
    requires JobInvariant(p0, p, visited, time, chartEnd) && time < t
    requires visited' == (visited || p.arrivalTime <= t)
    ensures JobInvariant(p0, p, visited', t, chartEnd)
  {
  }

  lemma JumpQueue(s: State)
    requires Consistent(s) && s.queue == [] && SomeUnvisited(s)
    requires forall i :: 0 <= i < |s.ps| && !s.visited[i] ==> s.ps[i].remainingTime > 0
    requires forall i :: 0 <= i < |s.ps| && s.visited[i] ==> s.ps[i].remainingTime == 0
    ensures QueueInvariant(Jump(s))
  {
    var t := EarliestArrival(s.ps, s.visited);
    ArrivalsQueue(s.ps, s.visited, t);
    var r := Jump(s);
    assert r.queue == Arrivals(s.ps, s.visited, t, false, |s.ps|);
  }

  /**
   * With the queue empty, the queued processes are exactly the exhausted
   * ones: an unqueued process still has its whole burst.
   */
  lemma EmptyQueueSplit(ps0: seq<Process>, q: int, s: State)
    requires Invariant(ps0, q, s) && s.queue == []
    ensures forall i :: 0 <= i < |s.ps| && !s.visited[i] ==> s.ps[i].remainingTime > 0
    ensures forall i :: 0 <= i < |s.ps| && s.visited[i] ==> s.ps[i].remainingTime == 0
  {
    forall i | 0 <= i < |s.ps| && !s.visited[i] ensures s.ps[i].remainingTime > 0 {
      assert JobInvariant(ps0[i], s.ps[i], s.visited[i], s.time, EndTime(s.gantt));
      assert ValidJob(ps0[i]);
    }
    forall i | 0 <= i < |s.ps| && s.visited[i] ensures s.ps[i].remainingTime == 0 {
      assert i !in s.queue;
    }
  }

  /**
   * With every queued process exhausted and every unqueued one with time
   * left, the arrivals by t form a queue of distinct indices holding
   * exactly the queued processes with time left.
   */
  lemma ArrivalsQueue(ps: seq<Process>, visited: seq<bool>, t: int)
    requires |ps| == |visited|
    requires forall i :: 0 <= i < |ps| && !visited[i] ==> ps[i].remainingTime > 0
    requires forall i :: 0 <= i < |ps| && visited[i] ==> ps[i].remainingTime == 0
    ensures var a := Arrivals(ps, visited, t, false, |ps|);
      var v := Visit(ps, visited, t, false);
      && (forall i :: i in a ==> 0 <= i < |ps| && v[i] && ps[i].remainingTime > 0)
      && (forall x, y :: 0 <= x < y < |a| ==> a[x] != a[y])
      && (forall i :: 0 <= i < |ps| && v[i] && ps[i].remainingTime > 0 ==> i in a)
  {
    ArrivalsAll(ps, visited, t, false);
  }

  lemma JumpChart(ps0: seq<Process>, q: int, s: State)
    requires Invariant(ps0, q, s) && s.queue == [] && SomeUnvisited(s)
    ensures ChartInvariant(ps0, q, Jump(s))
  {
    var t := EarliestArrival(s.ps, s.visited);
    var r := Jump(s);
    forall i | 0 <= i < |ps0| && r.ps[i].arrivalTime < t ensures r.ps[i].remainingTime == 0 {
      assert s.visited[i];
      assert i !in s.queue;
    }
  }

  /** The scan reads only the unvisited processes. */
  lemma {:induction false} ArrivalsUnvisited(ps: seq<Process>, qs: seq<Process>, visited: seq<bool>, t: int, needsRemaining: bool, m: int)
    requires |ps| == |qs| == |visited| && 0 <= m <= |ps|
    requires forall i :: 0 <= i < |ps| && !visited[i] ==> ps[i] == qs[i]
    ensures Arrivals(ps, visited, t, needsRemaining, m) == Arrivals(qs, visited, t, needsRemaining, m)
    ensures VisitBelow(ps, visited, t, needsRemaining, m) == VisitBelow(qs, visited, t, needsRemaining, m)
  {
    if m > 0 {
      ArrivalsUnvisited(ps, qs, visited, t, needsRemaining, m - 1);
      assert Joins(ps, visited, t, needsRemaining, m - 1) == Joins(qs, visited, t, needsRemaining, m - 1);
    }
  }

  /** The head of the queue can run: it is a visited index with time left, and the quantum is positive. */
  predicate HeadReady(q: int, s: State) {
    && Consistent(s) && q > 0 && s.queue != []
    && 0 <= s.queue[0] < |s.ps| && s.visited[s.queue[0]] && s.ps[s.queue[0]].remainingTime > 0
  }

  lemma InvariantHeadReady(ps0: seq<Process>, q: int, s: State)
    requires Invariant(ps0, q, s) && s.queue != []
    ensures HeadReady(q, s)
  {
    assert s.queue[0] in s.queue;
  }

  /**
   * One slice in terms of the state before it: the head idx runs for d
   * units, 0 < d <= q; only idx's record changes; the chart gains idx's
   * entry; the processes that arrived by the end join behind the rest of
   * the queue, and idx behind them if it has time left.
   */
  lemma SliceShape(q: int, s: State)
    requires HeadReady(q, s)
    ensures var idx := s.queue[0];
      var d := SliceLength(q, s.ps[idx].remainingTime);
      var r := Slice(s, q);
      && 0 < d <= q
      && Consistent(r) && |r.ps| == |s.ps|
      && (forall i :: 0 <= i < |s.ps| && i != idx ==> r.ps[i] == s.ps[i])
      && SameJob(r.ps[idx], s.ps[idx])
      && r.ps[idx].remainingTime == s.ps[idx].remainingTime - d
      && r.time == s.time + d
      && r.gantt == s.gantt + [GanttEntry(s.ps[idx].pid, s.time, s.time + d)]
      && r.slices == s.slices + [idx]
      && r.visited == Visit(s.ps, s.visited, s.time + d, true)
      && r.queue == s.queue[1..] + Arrivals(s.ps, s.visited, s.time + d, true, |s.ps|)
           + (if r.ps[idx].remainingTime > 0 then [idx] else [])
  {
    var idx := s.queue[0];
    var p := FirstRun(s.ps[idx], s.time);
    var d := SliceLength(q, p.remainingTime);
    var ran := p.(remainingTime := p.remainingTime - d);
    var ps1 := s.ps[idx := ran];
    ArrivalsUnvisited(ps1, s.ps, s.visited, s.time + d, true, |s.ps|);
  }

  /** The head's record after its slice: a first run is recorded, and running out completes it at the slice's end. */
  lemma SliceRecord(q: int, s: State)
    requires HeadReady(q, s)
    ensures var idx := s.queue[0];
      var p := s.ps[idx];
      var d := SliceLength(q, p.remainingTime);
      var r := Slice(s, q).ps[idx];
      && (p.startTime == Unset ==> r.startTime == s.time && r.responseTime == s.time - p.arrivalTime)
      && (p.startTime != Unset ==> r.startTime == p.startTime && r.responseTime == p.responseTime)
      && (r.remainingTime == 0 ==> r.completionTime == s.time + d)
      && ((r.remainingTime == 0 && r.responseTime == r.startTime - r.arrivalTime && r.arrivalTime <= r.startTime
           && r.startTime + r.burstTime <= s.time + d) ==> IsFinished(r))
  {
  }

  lemma SliceJobs(ps0: seq<Process>, q: int, s: State)
    requires WellFormed(ps0) && JobsInvariant(ps0, s) && HeadReady(q, s)
    ensures JobsInvariant(ps0, Slice(s, q))
  {
    var r := Slice(s, q);
    SliceShape(q, s);
    forall i | 0 <= i < |ps0| ensures JobInvariant(ps0[i], r.ps[i], r.visited[i], r.time, EndTime(r.gantt)) {
      if i == s.queue[0] {
        SliceHead(ps0, q, s);
      } else {
        SliceOther(ps0, q, s, i);
      }
    }
  }

  lemma SliceOther(ps0: seq<Process>, q: int, s: State, i: int)
    requires WellFormed(ps0) && JobsInvariant(ps0, s) && HeadReady(q, s)
    requires 0 <= i < |ps0| && i != s.queue[0]
    ensures var r := Slice(s, q);
      JobInvariant(ps0[i], r.ps[i], r.visited[i], r.time, EndTime(r.gantt))
  {
    var idx := s.queue[0];
    SliceShape(q, s);
    var d := SliceLength(q, s.ps[idx].remainingTime);
    var r := Slice(s, q);
    assert JobInvariant(ps0[i], s.ps[i], s.visited[i], s.time, EndTime(s.gantt));
    assert r.visited[i] == (s.visited[i] || Joins(s.ps, s.visited, s.time + d, true, i));
    assert IsFresh(ps0[i]) && ValidJob(ps0[i]);
    assert r.ps[i] == s.ps[i];
    assert EndTime(r.gantt) == s.time + d && EndTime(s.gantt) <= s.time;
  }

  lemma SliceHead(ps0: seq<Process>, q: int, s: State)
    requires WellFormed(ps0) && JobsInvariant(ps0, s) && HeadReady(q, s)
    ensures var r := Slice(s, q); var idx := s.queue[0];
      JobInvariant(ps0[idx], r.ps[idx], r.visited[idx], r.time, EndTime(r.gantt))
  {
    var idx := s.queue[0];
    SliceShape(q, s);
    SliceRecord(q, s);
    var d := SliceLength(q, s.ps[idx].remainingTime);
    var r := Slice(s, q);
    assert JobInvariant(ps0[idx], s.ps[idx], s.visited[idx], s.time, EndTime(s.gantt));
    assert IsFresh(ps0[idx]);
    ArrivalsAll(s.ps, s.visited, s.time + d, true);
    assert r.visited[idx];
  }

  lemma SliceQueue(q: int, s: State)
    requires HeadReady(q, s) && QueueInvariant(s)
    ensures QueueInvariant(Slice(s, q))
  {
    var idx := s.queue[0];
    SlicePs(q, s);
    SliceQueueShape(q, s);
    SliceVisited(q, s);
    var d := SliceLength(q, s.ps[idx].remainingTime);
    var a := Arrivals(s.ps, s.visited, s.time + d, true, |s.ps|);
    ArrivalsAll(s.ps, s.visited, s.time + d, true);
    var r := Slice(s, q);
    var tail := if r.ps[idx].remainingTime > 0 then [idx] else [];
    forall x | 0 <= x < |a| ensures 0 <= a[x] < |s.visited| && !s.visited[a[x]] {
      assert Joins(s.ps, s.visited, s.time + d, true, a[x]);
    }
    DistinctStep(s.queue, a, tail, s.visited);
    SliceQueueMembers(q, s);
    SliceQueueComplete(q, s);
  }

  /**
   * Dropping the head of a queue of distinct visited indices, appending
   * distinct unvisited ones, and then possibly the head again, keeps the
   * indices distinct.
   */
  lemma DistinctStep(queue: seq<int>, a: seq<int>, tail: seq<int>, visited: seq<bool>)
    requires queue != []
    requires forall i :: i in queue ==> 0 <= i < |visited| && visited[i]
    requires forall x, y :: 0 <= x < y < |queue| ==> queue[x] != queue[y]
    requires forall x :: 0 <= x < |a| ==> 0 <= a[x] < |visited| && !visited[a[x]]
    requires forall x, y :: 0 <= x < y < |a| ==> a[x] < a[y]
    requires tail == [] || tail == [queue[0]]
    ensures var n := queue[1..] + a + tail;
      forall x, y :: 0 <= x < y < |n| ==> n[x] != n[y]
  {
    var rest := queue[1..];
    var n := rest + a + tail;
    forall x, y | 0 <= x < y < |n| ensures n[x] != n[y] {
      if y < |rest| {
        assert n[x] == queue[x + 1] && n[y] == queue[y + 1];
      } else if y < |rest| + |a| {
        assert n[y] == a[y - |rest|];
        if x < |rest| {
          assert n[x] == queue[x + 1];
          assert n[x] in queue;
        } else {
          assert n[x] == a[x - |rest|];
        }
      } else {
        assert n[y] == queue[0];
        if x < |rest| {
          assert n[x] == queue[x + 1];
        } else {
          assert n[x] == a[x - |rest|];
          assert queue[0] in queue;
        }
      }
    }
  }

  /** The queue after a slice: the rest, then the arrivals, then the head if it has time left. */
  lemma SliceQueueShape(q: int, s: State)
    requires HeadReady(q, s)
    ensures var idx := s.queue[0];
      var r := Slice(s, q);
      r.queue == s.queue[1..] + Arrivals(s.ps, s.visited, s.time + SliceLength(q, s.ps[idx].remainingTime), true, |s.ps|)
           + (if r.ps[idx].remainingTime > 0 then [idx] else [])
  {
    var idx := s.queue[0];
    var p := FirstRun(s.ps[idx], s.time);
    var d := SliceLength(q, p.remainingTime);
    var ran := p.(remainingTime := p.remainingTime - d);
    ArrivalsUnvisited(s.ps[idx := ran], s.ps, s.visited, s.time + d, true, |s.ps|);
  }

  /** Every index in the new queue is visited and has time left. */
  lemma SliceQueueMembers(q: int, s: State)
    requires HeadReady(q, s) && QueueInvariant(s)
    ensures var r := Slice(s, q);
      forall i :: i in r.queue ==> 0 <= i < |r.ps| && r.visited[i] && r.ps[i].remainingTime > 0
  {
    var idx := s.queue[0];
    SlicePs(q, s);
    SliceQueueShape(q, s);
    SliceVisited(q, s);
    var d := SliceLength(q, s.ps[idx].remainingTime);
    var r := Slice(s, q);
    var a := Arrivals(s.ps, s.visited, s.time + d, true, |s.ps|);
    ArrivalsAll(s.ps, s.visited, s.time + d, true);
    forall i | i in r.queue ensures 0 <= i < |r.ps| && r.visited[i] && r.ps[i].remainingTime > 0 {
      if i in s.queue[1..] {
        var k :| 0 <= k < |s.queue[1..]| && s.queue[1..][k] == i;
        assert s.queue[k + 1] == i && i in s.queue;
      } else if i in a {
        var k :| 0 <= k < |a| && a[k] == i;
        assert Joins(s.ps, s.visited, s.time + d, true, i);
      }
    }
  }

  /** Every visited index with time left is in the new queue. */
  lemma SliceQueueComplete(q: int, s: State)
    requires HeadReady(q, s) && QueueInvariant(s)
    ensures var r := Slice(s, q);
      forall i :: 0 <= i < |r.ps| && r.visited[i] && r.ps[i].remainingTime > 0 ==> i in r.queue
  {
    var idx := s.queue[0];
    SlicePs(q, s);
    SliceQueueShape(q, s);
    SliceVisited(q, s);
    var d := SliceLength(q, s.ps[idx].remainingTime);
    var r := Slice(s, q);
    var a := Arrivals(s.ps, s.visited, s.time + d, true, |s.ps|);
    ArrivalsAll(s.ps, s.visited, s.time + d, true);
    forall i | 0 <= i < |r.ps| && r.visited[i] && r.ps[i].remainingTime > 0 ensures i in r.queue {
      if i == idx {
        assert r.queue[|r.queue| - 1] == idx;
      } else if s.visited[i] {
        assert i in s.queue;
        var k :| 0 <= k < |s.queue| && s.queue[k] == i;
        assert s.queue[1..][k - 1] == i;
      } else {
        assert i in a;
      }
    }
  }

  lemma WellOrderedAppend(g: seq<GanttEntry>, e: GanttEntry)
    requires WellOrdered(g) && 0 <= e.start < e.end && EndTime(g) <= e.start
    ensures WellOrdered(g + [e]) && EndTime(g + [e]) == e.end
  {
  }

  lemma SliceChart(ps0: seq<Process>, q: int, s: State)
    requires Invariant(ps0, q, s) && HeadReady(q, s)
    ensures ChartInvariant(ps0, q, Slice(s, q))
  {
    var idx := s.queue[0];
    assert JobInvariant(ps0[idx], s.ps[idx], s.visited[idx], s.time, EndTime(s.gantt));
    SlicePs(q, s);
    SliceEntries(ps0, q, s);
    SliceShort(q, s);
    SliceService(ps0, q, s);
    IdleDone(ps0, q, s);
    SliceGaps(q, s);
  }

  /** The chart, the slice list and the clock after a slice; the head lost d units. */
  lemma SliceChartShape(q: int, s: State)
    requires HeadReady(q, s)
    ensures var idx := s.queue[0];
      var d := SliceLength(q, s.ps[idx].remainingTime);
      var r := Slice(s, q);
      && 0 < d <= q && |r.ps| == |s.ps|
      && r.time == s.time + d
      && r.gantt == s.gantt + [GanttEntry(s.ps[idx].pid, s.time, s.time + d)]
      && r.slices == s.slices + [idx]
      && r.ps[idx].remainingTime == s.ps[idx].remainingTime - d
  {
  }

  lemma SliceEntries(ps0: seq<Process>, q: int, s: State)
    requires HeadReady(q, s) && |s.ps| == |ps0| && 0 <= s.time && EndTime(s.gantt) <= s.time
    requires EntriesOk(ps0, q, s.gantt, s.slices)
    requires s.ps[s.queue[0]].pid == ps0[s.queue[0]].pid
    ensures |Slice(s, q).slices| == |Slice(s, q).gantt|
    ensures EntriesOk(ps0, q, Slice(s, q).gantt, Slice(s, q).slices)
  {
    var idx := s.queue[0];
    SliceChartShape(q, s);
    var d := SliceLength(q, s.ps[idx].remainingTime);
    var e := GanttEntry(s.ps[idx].pid, s.time, s.time + d);
    EntriesStep(ps0, q, s.gantt, s.slices, e, idx);
  }

  lemma SliceShort(q: int, s: State)
    requires HeadReady(q, s) && |s.slices| == |s.gantt|
    requires ShortSlicesComplete(s.ps, q, s.gantt, s.slices)
    ensures |Slice(s, q).slices| == |Slice(s, q).gantt|
    ensures ShortSlicesComplete(Slice(s, q).ps, q, Slice(s, q).gantt, Slice(s, q).slices)
  {
    var idx := s.queue[0];
    SlicePs(q, s);
    SliceChartShape(q, s);
    SliceRecord(q, s);
    var d := SliceLength(q, s.ps[idx].remainingTime);
    var e := GanttEntry(s.ps[idx].pid, s.time, s.time + d);
    ShortStep(s.ps, Slice(s, q).ps, q, s.gantt, s.slices, e, idx);
  }

  lemma SliceService(ps0: seq<Process>, q: int, s: State)
    requires HeadReady(q, s) && |s.ps| == |ps0| && |s.slices| == |s.gantt|
    requires ServiceOk(ps0, s.ps, s.gantt, s.slices)
    ensures var r := Slice(s, q);
      && |r.ps| == |ps0| && |r.slices| == |r.gantt|
      && ServiceOk(ps0, r.ps, r.gantt, r.slices)
  {
    var idx := s.queue[0];
    SlicePs(q, s);
    SliceChartShape(q, s);
    var d := SliceLength(q, s.ps[idx].remainingTime);
    var r := Slice(s, q);
    var e := GanttEntry(s.ps[idx].pid, s.time, s.time + d);
    ServiceStep(ps0, s.ps, r.ps[idx], s.gantt, s.slices, e, idx);
  }

  lemma SliceGaps(q: int, s: State)
    requires HeadReady(q, s) && EndTime(s.gantt) <= s.time && GapsOk(s.ps, s.gantt)
    requires EndTime(s.gantt) < s.time ==>
      forall i :: 0 <= i < |s.ps| && s.ps[i].arrivalTime < s.time ==>
        s.ps[i].remainingTime == 0 && s.ps[i].completionTime <= EndTime(s.gantt)
    ensures var r := Slice(s, q);
      && |r.ps| == |s.ps| && EndTime(r.gantt) == r.time && GapsOk(r.ps, r.gantt)
  {
    var idx := s.queue[0];
    SlicePs(q, s);
    SliceChartShape(q, s);
    var d := SliceLength(q, s.ps[idx].remainingTime);
    var r := Slice(s, q);
    var e := GanttEntry(s.ps[idx].pid, s.time, s.time + d);
    GapsStep(s.ps, r.ps, s.gantt, e);
  }

  /** When the chart ended before the clock, every process that had arrived before the clock was done by the chart's end. */
  lemma IdleDone(ps0: seq<Process>, q: int, s: State)
    requires Invariant(ps0, q, s)
    ensures EndTime(s.gantt) < s.time ==>
      forall i :: 0 <= i < |s.ps| && s.ps[i].arrivalTime < s.time ==>
        s.ps[i].remainingTime == 0 && s.ps[i].completionTime <= EndTime(s.gantt)
  {
    forall i | 0 <= i < |s.ps| && s.ps[i].remainingTime == 0 ensures s.ps[i].completionTime <= EndTime(s.gantt) {
      assert JobInvariant(ps0[i], s.ps[i], s.visited[i], s.time, EndTime(s.gantt));
    }
  }

  lemma EntriesStep(ps0: seq<Process>, q: int, g: seq<GanttEntry>, slices: seq<int>, e: GanttEntry, idx: int)
    requires EntriesOk(ps0, q, g, slices)
    requires 0 <= idx < |ps0| && e.pid == ps0[idx].pid
    requires 0 <= e.start && EndTime(g) <= e.start && 0 < Duration(e) <= q
    ensures EntriesOk(ps0, q, g + [e], slices + [idx])
  {
  }

  lemma ShortStep(ps: seq<Process>, ps1: seq<Process>, q: int, g: seq<GanttEntry>, slices: seq<int>, e: GanttEntry, idx: int)
    requires |slices| == |g| && ShortSlicesComplete(ps, q, g, slices)
    requires |ps1| == |ps| && 0 <= idx < |ps| && ps[idx].remainingTime > 0
    requires forall i :: 0 <= i < |ps| && i != idx ==> ps1[i] == ps[i]
    requires Duration(e) < q ==> ps1[idx].remainingTime == 0
    requires ps1[idx].remainingTime == 0 ==> ps1[idx].completionTime == e.end
    ensures ShortSlicesComplete(ps1, q, g + [e], slices + [idx])
  {
    var g1 := g + [e];
    var s1 := slices + [idx];
    forall k | 0 <= k < |g1| && 0 <= s1[k] < |ps1| && Duration(g1[k]) < q
      ensures ps1[s1[k]].remainingTime == 0 && ps1[s1[k]].completionTime == g1[k].end
    {
      if k < |g| {
        assert g1[k] == g[k] && s1[k] == slices[k];
      }
    }
  }

  lemma ServiceStep(ps0: seq<Process>, ps: seq<Process>, p: Process, g: seq<GanttEntry>, slices: seq<int>, e: GanttEntry, idx: int)
    requires |slices| == |g| && |ps| == |ps0| && ServiceOk(ps0, ps, g, slices)
    requires 0 <= idx < |ps| && p.remainingTime == ps[idx].remainingTime - Duration(e)
    ensures ServiceOk(ps0, ps[idx := p], g + [e], slices + [idx])
  {
    AppendSlice(g, slices, e, idx);
    AppendDuration(g, e);
    SumUpdate(ps, idx, p, Remaining);
  }

  lemma GapsStep(ps: seq<Process>, ps1: seq<Process>, g: seq<GanttEntry>, e: GanttEntry)
    requires GapsOk(ps, g) && |ps1| == |ps|
    requires forall i :: 0 <= i < |ps| ==> ps1[i].arrivalTime == ps[i].arrivalTime
    requires forall i :: 0 <= i < |ps| && ps[i].remainingTime == 0 ==> ps1[i] == ps[i]
    requires EndTime(g) < e.start ==>
      forall i :: 0 <= i < |ps| && ps[i].arrivalTime < e.start ==>
        ps[i].remainingTime == 0 && ps[i].completionTime <= EndTime(g)
    ensures GapsOk(ps1, g + [e])
  {
    var g1 := g + [e];
    forall k, i | 0 <= k < |g1| && FreeBefore(g1, k) < g1[k].start && 0 <= i < |ps1| && ps1[i].arrivalTime < g1[k].start
      ensures ps1[i].remainingTime == 0 && ps1[i].completionTime <= FreeBefore(g1, k)
    {
      if k < |g| {
        assert g1[k] == g[k] && FreeBefore(g1, k) == FreeBefore(g, k);
      }
    }
  }

  /**
   * A slice keeps the invariant and shrinks the measure; the completion
   * count rises by one exactly when the head runs out.
   */
  lemma SliceInvariant(ps0: seq<Process>, q: int, s: State)
    requires Invariant(ps0, q, s) && s.queue != []
    ensures 0 <= s.queue[0] < |s.ps|
    ensures Invariant(ps0, q, Slice(s, q))
    ensures Measure(Slice(s, q)) < Measure(s)
    ensures Sum(Slice(s, q).ps, Exhausted) ==
      Sum(s.ps, Exhausted) + (if Slice(s, q).ps[s.queue[0]].remainingTime == 0 then 1 else 0)
  {
    InvariantHeadReady(ps0, q, s);
    SliceJobs(ps0, q, s);
    SliceQueue(q, s);
    SliceChart(ps0, q, s);
    SliceCounts(q, s);
  }

  lemma SliceCounts(q: int, s: State)
    requires HeadReady(q, s)
    ensures Measure(Slice(s, q)) < Measure(s)
    ensures Sum(Slice(s, q).ps, Exhausted) ==
      Sum(s.ps, Exhausted) + (if Slice(s, q).ps[s.queue[0]].remainingTime == 0 then 1 else 0)
  {
    SliceSums(q, s);
    SliceVisitCount(q, s);
  }

  /** Only the head's record changes in a slice, and it loses between 1 and q units. */
  lemma SlicePs(q: int, s: State)
    requires HeadReady(q, s)
    ensures var idx := s.queue[0];
      var r := Slice(s, q);
      && |r.ps| == |s.ps| && r.ps == s.ps[idx := r.ps[idx]]
      && s.ps[idx].remainingTime - q <= r.ps[idx].remainingTime < s.ps[idx].remainingTime
  {
  }

  /** The time left drops in a slice, and the exhausted count rises by one when the head runs out. */
  lemma SliceSums(q: int, s: State)
    requires HeadReady(q, s)
    ensures Sum(Slice(s, q).ps, Remaining) < Sum(s.ps, Remaining)
    ensures Sum(Slice(s, q).ps, Exhausted) ==
      Sum(s.ps, Exhausted) + (if Slice(s, q).ps[s.queue[0]].remainingTime == 0 then 1 else 0)
  {
    var idx := s.queue[0];
    var r := Slice(s, q);
    SlicePs(q, s);
    SumUpdate(s.ps, idx, r.ps[idx], Remaining);
    SumUpdate(s.ps, idx, r.ps[idx], Exhausted);
  }

  /** A slice only adds to the visited processes. */
  lemma SliceVisitCount(q: int, s: State)
    requires HeadReady(q, s)
    ensures |Slice(s, q).visited| == |s.visited|
    ensures CountTrue(Slice(s, q).visited) >= CountTrue(s.visited)
  {
    var idx := s.queue[0];
    var d := SliceLength(q, s.ps[idx].remainingTime);
    SliceVisited(q, s);
    ArrivalsAll(s.ps, s.visited, s.time + d, true);
  }

  /** The processes marked visited after a slice, in terms of the state before it. */
  lemma SliceVisited(q: int, s: State)
    requires HeadReady(q, s)
    ensures Slice(s, q).visited == Visit(s.ps, s.visited, s.time + SliceLength(q, s.ps[s.queue[0]].remainingTime), true)
  {
    var idx := s.queue[0];
    var p := FirstRun(s.ps[idx], s.time);
    var d := SliceLength(q, p.remainingTime);
    var ran := p.(remainingTime := p.remainingTime - d);
    ArrivalsUnvisited(s.ps[idx := ran], s.ps, s.visited, s.time + d, true, |s.ps|);
  }

  /** The measure is bounded below. */
  lemma MeasureNonNegative(ps0: seq<Process>, q: int, s: State)
    requires Invariant(ps0, q, s)
    ensures Measure(s) >= 0
  {
    forall i | 0 <= i < |s.ps| ensures Get(s.ps[i], Remaining) >= 0 {
      assert JobInvariant(ps0[i], s.ps[i], s.visited[i], s.time, EndTime(s.gantt));
    }
    SumNonNegative(s.ps, Remaining);
    CountTrueBound(s.visited);
  }

  /**
   * When the queue is empty and every process has run out, the run is
   * over: every process is finished with its inputs intact; the chart is
   * well-ordered, every entry lasts between 1 and q units and carries the
   * pid of its process, an entry shorter than q ends at its process's
   * completion; each process got exactly its burst, the chart accounts
   * for all bursts and ends at the latest completion; and before every gap
   * every process that had arrived by the gap's end was done.
   */
  lemma FinalState(ps0: seq<Process>, q: int, s: State)
    requires Invariant(ps0, q, s) && s.queue == [] && Sum(s.ps, Exhausted) == |s.ps|
    ensures AllFinished(s.ps) && SameJobs(s.ps, ps0)
    ensures forall i :: 0 <= i < |s.ps| ==> s.ps[i].remainingTime == 0
    ensures WellOrdered(s.gantt) && |s.slices| == |s.gantt|
    ensures forall k :: 0 <= k < |s.gantt| ==>
      && 0 <= s.slices[k] < |s.ps| && s.gantt[k].pid == s.ps[s.slices[k]].pid
      && 0 < Duration(s.gantt[k]) <= q
    ensures forall k :: 0 <= k < |s.gantt| && Duration(s.gantt[k]) < q ==>
      s.ps[s.slices[k]].completionTime == s.gantt[k].end
    ensures forall i :: 0 <= i < |s.ps| ==> SliceTime(s.gantt, s.slices, i) == s.ps[i].burstTime
    ensures TotalDuration(s.gantt) == Sum(s.ps, Burst)
    ensures EndTime(s.gantt) <= MaxCompletion(s.ps)
    ensures GapsOk(s.ps, s.gantt)
  {
    ExhaustedCount(s.ps);
    forall i | 0 <= i < |s.ps| ensures ValidJob(s.ps[i]) && IsFinished(s.ps[i]) && SameJob(s.ps[i], ps0[i]) {
      assert JobInvariant(ps0[i], s.ps[i], s.visited[i], s.time, EndTime(s.gantt));
      assert ValidJob(ps0[i]);
    }
    assert forall i :: 0 <= i < |ps0| ==> Get(s.ps[i], Remaining) == 0;
    SumZero(s.ps, Remaining);
    SumPointwise(ps0, Burst, s.ps, Burst);
  }

  /**
   * The whole run from a state: a slice while the queue holds an index,
   * a jump while the queue is empty and a process still has time left,
   * and the state itself once neither applies.  Being a function of the
   * state, the run is determined by its input and quantum.
   */
  ghost function Run(ps0: seq<Process>, q: int, s: State): (r: State)
    requires Invariant(ps0, q, s)
    ensures |r.ps| == |s.ps| && r.queue == [] && Sum(r.ps, Exhausted) == |r.ps|
    decreases Measure(s)
  {
    MeasureNonNegative(ps0, q, s);
    if s.queue != [] then
      SliceInvariant(ps0, q, s);
      Run(ps0, q, Slice(s, q))
    else if Sum(s.ps, Exhausted) < |s.ps| then
      JumpPossible(ps0, q, s);
      JumpInvariant(ps0, q, s);
      Run(ps0, q, Jump(s))
    else
      ExhaustedCount(s.ps);
      s
  }

  /** The round-robin run of a well-formed list with a positive quantum, from its initial state. */
  ghost function Schedule(ps0: seq<Process>, q: int): (r: State)
    requires WellFormed(ps0) && q > 0
    ensures |r.ps| == |ps0| && r.queue == [] && Sum(r.ps, Exhausted) == |r.ps|
  {
    InitialInvariant(ps0, q);
    Run(ps0, q, Initial(ps0))
  }

  /** A slice is a step of the run: the run from a state with a queued index is the run after its slice. */
  lemma RunSlice(ps0: seq<Process>, q: int, s: State)
    requires Invariant(ps0, q, s) && s.queue != []
    ensures 0 <= s.queue[0] < |s.ps| && Invariant(ps0, q, Slice(s, q))
    ensures Run(ps0, q, Slice(s, q)) == Run(ps0, q, s)
  {
    SliceInvariant(ps0, q, s);
  }

  /** A run that has nothing left to do is over. */
  lemma RunDone(ps0: seq<Process>, q: int, s: State)
    requires Invariant(ps0, q, s) && s.queue == [] && Sum(s.ps, Exhausted) == |s.ps|
    ensures Run(ps0, q, s) == s
  {
  }

  /** A jump is a step of the run: with an empty queue and time left, the run is the run after the jump. */
  lemma RunJump(ps0: seq<Process>, q: int, s: State)
    requires Invariant(ps0, q, s) && s.queue == [] && Sum(s.ps, Exhausted) < |s.ps|
    ensures SomeUnvisited(s) && Invariant(ps0, q, Jump(s))
    ensures Run(ps0, q, Jump(s)) == Run(ps0, q, s)
  {
    JumpPossible(ps0, q, s);
    JumpInvariant(ps0, q, s);
  }

  /**
   * The scan that queues arrivals: in index order, every process that
   * joins at time t is appended to the queue and marked visited.
   */
  method EnqueueArrivals(ps: seq<Process>, visited: seq<bool>, queue: seq<int>, t: int, needsRemaining: bool)
    returns (queue': seq<int>, visited': seq<bool>)
    requires |visited| == |ps|
    ensures queue' == queue + Arrivals(ps, visited, t, needsRemaining, |ps|)
    ensures visited' == Visit(ps, visited, t, needsRemaining)
  {
    queue', visited' := queue, visited;
    for i := 0 to |ps|
      invariant queue' == queue + Arrivals(ps, visited, t, needsRemaining, i)
      invariant visited' == VisitBelow(ps, visited, t, needsRemaining, i)
    {
      if ps[i].arrivalTime <= t && !visited'[i] && (!needsRemaining || ps[i].remainingTime > 0) {
        queue' := queue' + [i];
        visited' := visited'[i := true];
      }
    }
  }

  /** The initial queue: the processes arriving at time 0, in index order, marked visited. */
  method InitialQueue(ps: seq<Process>) returns (queue: seq<int>, visited: seq<bool>)
    ensures queue == Initial(ps).queue && visited == Initial(ps).visited
  {
    queue := [];
    visited := seq(|ps|, _ => false);
    for i := 0 to |ps|
      invariant queue == AtZero(ps, i)
      invariant |visited| == |ps|
      invariant forall j :: 0 <= j < |ps| ==> visited[j] == (j < i && ps[j].arrivalTime == 0)
    {
      if ps[i].arrivalTime == 0 {
        queue := queue + [i];
        visited := visited[i := true];
      }
    }
  }
}
