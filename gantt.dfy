/**
 * The Gantt chart: the list of (pid, start, end) entries an algorithm
 * produces, and the run-length step the preemptive algorithms use to
 * record one executed tick.
 */
module Gantt {

  /** The CPU ran process `pid` over the ticks [start, end). */
  datatype GanttEntry = GanttEntry(pid: int, start: int, end: int)

  function Duration(e: GanttEntry): int {
    e.end - e.start
  }

  /**
   * Entries lie in non-negative time, are not empty, and each ends no later
   * than the next one starts.
   */
  predicate WellOrdered(g: seq<GanttEntry>) {
    && (forall k :: 0 <= k < |g| ==> 0 <= g[k].start < g[k].end)
    && (forall k :: 0 < k < |g| ==> g[k - 1].end <= g[k].start)
  }

  /** Neighbouring entries belong to different processes. */
  predicate NoRepeatedNeighbour(g: seq<GanttEntry>) {
    forall k :: 0 < k < |g| ==> g[k - 1].pid != g[k].pid
  }

  /** End of the last entry, 0 for an empty chart. */
  function EndTime(g: seq<GanttEntry>): int {
    if g == [] then 0 else g[|g| - 1].end
  }

  /** Pid of the last entry, -1 for an empty chart. */
  function LastPid(g: seq<GanttEntry>): int {
    if g == [] then -1 else g[|g| - 1].pid
  }

  /** CPU time the chart accounts for in all. */
  function TotalDuration(g: seq<GanttEntry>): int {
    if g == [] then 0 else TotalDuration(g[..|g| - 1]) + Duration(g[|g| - 1])
  }

  /** CPU time the chart gives to process `pid`. */
  function DurationOf(g: seq<GanttEntry>, pid: int): int {
    if g == [] then 0
    else DurationOf(g[..|g| - 1], pid) + (if g[|g| - 1].pid == pid then Duration(g[|g| - 1]) else 0)
  }

  /** In a well-ordered chart no two entries overlap, adjacent or not. */
  lemma {:induction false} WellOrderedDisjoint(g: seq<GanttEntry>, i: int, j: int)
    requires WellOrdered(g)
    requires 0 <= i < j < |g|
    ensures g[i].end <= g[j].start
  {
    if i < j - 1 {
      WellOrderedDisjoint(g, i, j - 1);
    }
  }

  /**
   * A well-ordered chart fits in [0, EndTime): every entry ends by then and
   * the CPU time it accounts for is at most that long.
   */
  lemma {:induction false} WellOrderedWithin(g: seq<GanttEntry>)
    requires WellOrdered(g)
    ensures forall k :: 0 <= k < |g| ==> g[k].end <= EndTime(g)
    ensures 0 <= TotalDuration(g) <= EndTime(g)
  {
    if g != [] {
      var m := |g| - 1;
      var h := g[..m];
      assert WellOrdered(h);
      WellOrderedWithin(h);
      forall k | 0 <= k < m
        ensures g[k].end <= EndTime(g)
      {
        WellOrderedDisjoint(g, k, m);
      }
      assert EndTime(h) <= g[m].start;
    }
  }

  /** A chart whose entries each last one unit accounts for as many units as it has entries. */
  lemma {:induction false} UnitEntries(g: seq<GanttEntry>)
    requires forall k :: 0 <= k < |g| ==> 0 < Duration(g[k]) <= 1
    ensures TotalDuration(g) == |g|
  {
    if g != [] {
      var h := g[..|g| - 1];
      assert forall k :: 0 <= k < |h| ==> h[k] == g[k];
      UnitEntries(h);
    }
  }

  /** Appending an entry adds its duration. */
  lemma AppendDuration(g: seq<GanttEntry>, e: GanttEntry)
    ensures TotalDuration(g + [e]) == TotalDuration(g) + Duration(e)
    ensures forall q :: DurationOf(g + [e], q) == DurationOf(g, q) + (if e.pid == q then Duration(e) else 0)
  {
    assert (g + [e])[..|g|] == g;
  }

  /** The chart with its last entry stretched to end at t + 1 and owned by `pid`. */
  function ExtendLast(g: seq<GanttEntry>, pid: int, t: int): (r: seq<GanttEntry>)
    requires g != []
  {
    g[..|g| - 1] + [GanttEntry(pid, g[|g| - 1].start, t + 1)]
  }

  /**
   * The Gantt update for one executed tick [t, t + 1) of `pid` in the
   * preemptive algorithms; `lastPid` is the pid of the last executed tick
   * (-1 before the first).  The chart either gains an entry or has its
   * last entry replaced; all earlier entries stay, and the chart now ends
   * with `pid` at t + 1.  Calling it with `lastPid == pid` on an empty
   * chart is the source's index error on an empty list; it is excluded.
   */
  function RecordTick(g: seq<GanttEntry>, lastPid: int, pid: int, t: int): (r: seq<GanttEntry>)
    requires lastPid == pid ==> g != []
    ensures |r| == |g| || |r| == |g| + 1
    ensures r != [] && r[..|r| - 1] == g[..|r| - 1]
    ensures LastPid(r) == pid && EndTime(r) == t + 1
  {
    if lastPid != pid then
      if g != [] && g[|g| - 1].pid == pid then ExtendLast(g, pid, t)
      else g + [GanttEntry(pid, t, t + 1)]
    else
      ExtendLast(g, pid, t)
  }

  /** Stretching the last entry of a chart to t + 1 keeps it well-ordered and adds t + 1 - EndTime to its owner. */
  lemma ExtendLastPreserves(g: seq<GanttEntry>, t: int)
    requires WellOrdered(g) && NoRepeatedNeighbour(g)
    requires g != [] && EndTime(g) == t
    ensures var r := ExtendLast(g, LastPid(g), t);
      && WellOrdered(r) && NoRepeatedNeighbour(r)
      && TotalDuration(r) == TotalDuration(g) + 1
      && forall q :: DurationOf(r, q) == DurationOf(g, q) + (if q == LastPid(g) then 1 else 0)
  {
    var m := |g| - 1;
    var h := g[..m];
    var e := GanttEntry(g[m].pid, g[m].start, t + 1);
    var r := ExtendLast(g, LastPid(g), t);
    assert r == h + [e];
    assert g == h + [g[m]];
    AppendDuration(h, e);
    AppendDuration(h, g[m]);
    assert forall k :: 0 <= k < m ==> r[k] == g[k];
  }

  /** Appending the tick [t, t + 1) of a new pid after the chart's end keeps it well-ordered. */
  lemma AppendTickPreserves(g: seq<GanttEntry>, pid: int, t: int)
    requires WellOrdered(g) && NoRepeatedNeighbour(g)
    requires 0 <= t && EndTime(g) <= t && LastPid(g) != pid
    ensures var r := g + [GanttEntry(pid, t, t + 1)];
      && WellOrdered(r) && NoRepeatedNeighbour(r)
      && TotalDuration(r) == TotalDuration(g) + 1
      && forall q :: DurationOf(r, q) == DurationOf(g, q) + (if q == pid then 1 else 0)
  {
    AppendDuration(g, GanttEntry(pid, t, t + 1));
  }

  /**
   * When `lastPid` is the pid of the last entry and a process resumes only
   * right where its last entry ended, recording a tick keeps the chart
   * well-ordered with distinct neighbours and gives exactly one more unit
   * of CPU time, to `pid` alone.
   */
  lemma RecordTickPreserves(g: seq<GanttEntry>, pid: int, t: int)
    requires WellOrdered(g) && NoRepeatedNeighbour(g)
    requires 0 <= t && EndTime(g) <= t && pid >= 0
    requires g != [] && LastPid(g) == pid ==> EndTime(g) == t
    ensures var r := RecordTick(g, LastPid(g), pid, t);
      && WellOrdered(r) && NoRepeatedNeighbour(r)
      && TotalDuration(r) == TotalDuration(g) + 1
      && forall q :: DurationOf(r, q) == DurationOf(g, q) + (if q == pid then 1 else 0)
  {
    if g != [] && LastPid(g) == pid {
      ExtendLastPreserves(g, t);
    } else {
      AppendTickPreserves(g, pid, t);
    }
  }
}
