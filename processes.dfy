/**
 * The process record of the scheduling engine and the totals the engine
 * takes over a list of processes.
 */
module Processes {

  /** Sentinel of an unset start or response time. */
  const Unset := -1

  /**
   * One process of a simulation run: four inputs (pid, arrival, burst,
   * priority; a lower priority number is more urgent) and the outcome
   * fields that the algorithms fill in.
   */
  datatype Process = Process(
    pid: int,
    arrivalTime: int,
    burstTime: int,
    priority: int,
    remainingTime: int,
    completionTime: int,
    turnaroundTime: int,
    waitingTime: int,
    responseTime: int,
    startTime: int)

  /** A process that no algorithm has touched yet: the record's defaults. */
  predicate IsFresh(p: Process) {
    && p.remainingTime == p.burstTime
    && p.startTime == Unset
    && p.responseTime == Unset
    && p.completionTime == 0
    && p.turnaroundTime == 0
    && p.waitingTime == 0
  }

  /**
   * Construction of a process (the dataclass with its post-init step):
   * every argument after the burst is optional, with the record's
   * defaults; the remaining time is not an argument but starts as the
   * burst.  The process is fresh exactly when the outcome fields keep
   * their defaults.
   */
  function NewProcess(pid: int, arrivalTime: int, burstTime: int, priority: int := 0,
                      completionTime: int := 0, turnaroundTime: int := 0, waitingTime: int := 0,
                      responseTime: int := Unset, startTime: int := Unset): (p: Process)
    ensures p.pid == pid && p.arrivalTime == arrivalTime
    ensures p.burstTime == burstTime && p.priority == priority && p.remainingTime == burstTime
    ensures p.completionTime == completionTime && p.turnaroundTime == turnaroundTime
    ensures p.waitingTime == waitingTime && p.responseTime == responseTime && p.startTime == startTime
    ensures IsFresh(p) <==>
      (completionTime == 0 && turnaroundTime == 0 && waitingTime == 0 && responseTime == Unset && startTime == Unset)
  {
    Process(pid, arrivalTime, burstTime, priority, burstTime, completionTime, turnaroundTime, waitingTime,
            responseTime, startTime)
  }

  /** The assumptions every algorithm makes of a single input process. */
  predicate ValidJob(p: Process) {
    p.arrivalTime >= 0 && p.burstTime > 0
  }

  /** An input list of valid, freshly constructed processes. */
  predicate WellFormed(ps: seq<Process>) {
    forall i :: 0 <= i < |ps| ==> ValidJob(ps[i]) && IsFresh(ps[i])
  }

  /** Process ids are non-negative and unique within the run. */
  predicate UniquePids(ps: seq<Process>) {
    && (forall i :: 0 <= i < |ps| ==> ps[i].pid >= 0)
    && (forall i, j :: 0 <= i < j < |ps| ==> ps[i].pid != ps[j].pid)
  }

  /** Two records of the same process: the four inputs agree. */
  predicate SameJob(p: Process, q: Process) {
    p.pid == q.pid && p.arrivalTime == q.arrivalTime && p.burstTime == q.burstTime && p.priority == q.priority
  }

  /** The same processes in the same order, whatever their outcome fields. */
  predicate SameJobs(ps: seq<Process>, qs: seq<Process>) {
    |ps| == |qs| && forall i :: 0 <= i < |ps| ==> SameJob(ps[i], qs[i])
  }

  /**
   * The outcome fields of a process that has run to completion:
   * turnaround = completion - arrival, waiting = turnaround - burst,
   * response = start - arrival, it started no earlier than it arrived and
   * it needed at least its burst between start and completion.  With a
   * positive burst these give waiting >= 0, response >= 0 and
   * completion > arrival.
   */
  predicate IsFinished(p: Process) {
    && p.turnaroundTime == p.completionTime - p.arrivalTime
    && p.waitingTime == p.turnaroundTime - p.burstTime
    && p.responseTime == p.startTime - p.arrivalTime
    && p.arrivalTime <= p.startTime
    && p.startTime + p.burstTime <= p.completionTime
  }

  /**
   * `p` on getting the CPU at time t: the first time it does, its start
   * and response time are recorded; a process that has started before is
   * left as it is.
   */
  function FirstRun(p: Process, t: int): (q: Process)
    ensures SameJob(q, p) && q.remainingTime == p.remainingTime
    ensures q.completionTime == p.completionTime && q.turnaroundTime == p.turnaroundTime
    ensures q.waitingTime == p.waitingTime
    ensures p.startTime == Unset ==> q.startTime == t && q.responseTime == t - p.arrivalTime
    ensures p.startTime != Unset ==> q == p
  {
    if p.startTime == Unset then p.(startTime := t, responseTime := t - p.arrivalTime) else p
  }

  /**
   * `p` on completing at time t: turnaround and waiting time follow from
   * the completion; a process that started after arriving, with a recorded
   * response, and had its burst's worth of time by t is then finished.
   */
  function CompleteAt(p: Process, t: int): (q: Process)
    ensures SameJob(q, p) && q.remainingTime == p.remainingTime
    ensures q.startTime == p.startTime && q.responseTime == p.responseTime
    ensures q.completionTime == t
    ensures (p.responseTime == p.startTime - p.arrivalTime && p.arrivalTime <= p.startTime
             && p.startTime + p.burstTime <= t) ==> IsFinished(q)
  {
    var turnaround := t - p.arrivalTime;
    p.(completionTime := t, turnaroundTime := turnaround, waitingTime := turnaround - p.burstTime)
  }

  /**
   * `p` run to completion from time t without interruption, as the
   * non-preemptive algorithms do: it starts (and first responds) at t and
   * completes after its burst; its remaining time is left as it was.
   */
  function ServeAt(p: Process, t: int): (q: Process)
    ensures SameJob(q, p) && q.remainingTime == p.remainingTime
    ensures q.startTime == t && q.completionTime == t + p.burstTime
    ensures p.arrivalTime <= t ==> IsFinished(q)
    ensures q.waitingTime == t - p.arrivalTime == q.responseTime
  {
    CompleteAt(p.(startTime := t, responseTime := t - p.arrivalTime), t + p.burstTime)
  }

  /** The per-process quantities the engine adds up. */
  datatype Field =
    | Burst
    | Remaining
    | Waiting
    | Turnaround
    | SetResponse   // response time where it is set (>= 0), else nothing
    | Exhausted     // 1 for a process whose remaining time is 0
    | Service       // CPU time a non-preemptive run has given the process

  function Get(p: Process, f: Field): int {
    match f
    case Burst => p.burstTime
    case Remaining => p.remainingTime
    case Waiting => p.waitingTime
    case Turnaround => p.turnaroundTime
    case SetResponse => if p.responseTime >= 0 then p.responseTime else 0
    case Exhausted => if p.remainingTime == 0 then 1 else 0
    case Service => if p.startTime == Unset then 0 else p.completionTime - p.startTime
  }

  /** The total of field `f` over `ps`. */
  function Sum(ps: seq<Process>, f: Field): int {
    if ps == [] then 0 else Sum(ps[..|ps| - 1], f) + Get(ps[|ps| - 1], f)
  }

  lemma {:induction false} SumConcat(ps: seq<Process>, qs: seq<Process>, f: Field)
    ensures Sum(ps + qs, f) == Sum(ps, f) + Sum(qs, f)
  {
    if qs == [] {
      assert ps + qs == ps;
    } else {
      var m := |qs| - 1;
      assert (ps + qs)[..|ps + qs| - 1] == ps + qs[..m];
      SumConcat(ps, qs[..m], f);
    }
  }

  /** Replacing one process changes the total by the difference of that process's field. */
  lemma {:induction false} SumUpdate(ps: seq<Process>, i: int, p: Process, f: Field)
    requires 0 <= i < |ps|
    ensures Sum(ps[i := p], f) == Sum(ps, f) - Get(ps[i], f) + Get(p, f)
  {
    var m := |ps| - 1;
    if i == m {
      assert ps[i := p][..m] == ps[..m];
    } else {
      assert ps[i := p][..m] == ps[..m][i := p];
      SumUpdate(ps[..m], i, p, f);
    }
  }

  /** Totals agree when the field agrees process by process. */
  lemma {:induction false} SumPointwise(ps: seq<Process>, f: Field, qs: seq<Process>, g: Field)
    requires |ps| == |qs|
    requires forall i :: 0 <= i < |ps| ==> Get(ps[i], f) == Get(qs[i], g)
    ensures Sum(ps, f) == Sum(qs, g)
  {
    if ps != [] {
      var m := |ps| - 1;
      SumPointwise(ps[..m], f, qs[..m], g);
    }
  }

  /** A field that is the sum of two others process by process has the sum of their totals. */
  lemma {:induction false} SumAdditive(ps: seq<Process>, f: Field, g: Field, h: Field)
    requires forall i :: 0 <= i < |ps| ==> Get(ps[i], f) == Get(ps[i], g) + Get(ps[i], h)
    ensures Sum(ps, f) == Sum(ps, g) + Sum(ps, h)
  {
    if ps != [] {
      SumAdditive(ps[..|ps| - 1], f, g, h);
    }
  }

  /** A field that is below another process by process has a total below the other's. */
  lemma {:induction false} SumMonotone(ps: seq<Process>, f: Field, g: Field)
    requires forall i :: 0 <= i < |ps| ==> Get(ps[i], f) <= Get(ps[i], g)
    ensures Sum(ps, f) <= Sum(ps, g)
  {
    if ps != [] {
      SumMonotone(ps[..|ps| - 1], f, g);
    }
  }

  /** A field that is 0 for every process totals 0. */
  lemma {:induction false} SumZero(ps: seq<Process>, f: Field)
    requires forall i :: 0 <= i < |ps| ==> Get(ps[i], f) == 0
    ensures Sum(ps, f) == 0
  {
    if ps != [] {
      SumZero(ps[..|ps| - 1], f);
    }
  }

  /** Totals of a field that is never negative are never negative, and positive when one term is. */
  lemma {:induction false} SumNonNegative(ps: seq<Process>, f: Field)
    requires forall i :: 0 <= i < |ps| ==> Get(ps[i], f) >= 0
    ensures Sum(ps, f) >= 0
    ensures (exists i :: 0 <= i < |ps| && Get(ps[i], f) > 0) ==> Sum(ps, f) > 0
  {
    if ps != [] {
      var m := |ps| - 1;
      SumNonNegative(ps[..m], f);
      if exists i :: 0 <= i < |ps| && Get(ps[i], f) > 0 {
        var i :| 0 <= i < |ps| && Get(ps[i], f) > 0;
        if i < m {
          assert Get(ps[..m][i], f) > 0;
        }
      }
    }
  }

  /**
   * The number of exhausted processes is at most the number of processes,
   * reaching it exactly when every remaining time is 0.
   */
  lemma {:induction false} ExhaustedCount(ps: seq<Process>)
    ensures 0 <= Sum(ps, Exhausted) <= |ps|
    ensures Sum(ps, Exhausted) == |ps| <==> forall i :: 0 <= i < |ps| ==> ps[i].remainingTime == 0
  {
    if ps != [] {
      var m := |ps| - 1;
      ExhaustedCount(ps[..m]);
      assert forall i :: 0 <= i < m ==> ps[..m][i] == ps[i];
    }
  }

  /** The number of set flags, as the engine keeps it in its `completed` counters. */
  function CountTrue(flags: seq<bool>): nat {
    if flags == [] then 0 else CountTrue(flags[..|flags| - 1]) + (if flags[|flags| - 1] then 1 else 0)
  }

  /** Setting one clear flag adds one to the count. */
  lemma {:induction false} CountTrueSet(flags: seq<bool>, i: int)
    requires 0 <= i < |flags| && !flags[i]
    ensures CountTrue(flags[i := true]) == CountTrue(flags) + 1
  {
    var m := |flags| - 1;
    if i == m {
      assert flags[i := true][..m] == flags[..m];
    } else {
      assert flags[i := true][..m] == flags[..m][i := true];
      CountTrueSet(flags[..m], i);
    }
  }

  /** The count is at most the length, reaching it exactly when every flag is set. */
  lemma {:induction false} CountTrueBound(flags: seq<bool>)
    ensures CountTrue(flags) <= |flags|
    ensures CountTrue(flags) == |flags| <==> forall i :: 0 <= i < |flags| ==> flags[i]
  {
    if flags != [] {
      var m := |flags| - 1;
      CountTrueBound(flags[..m]);
      assert forall i :: 0 <= i < m ==> flags[..m][i] == flags[i];
    }
  }
}
