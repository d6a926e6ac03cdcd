/**
 * The stable sort by arrival time that FCFS applies to its working list
 * (the list's built-in sort with an arrival-time key; the built-in sort is
 * stable).  It is modelled by insertion sort; its lemmas say that the
 * result is ordered by arrival, is a permutation of the input, and keeps
 * the input order among equal arrival times.
 */
module Sorting {
  import opened Processes

  predicate SortedByArrival(ps: seq<Process>) {
    forall i, j :: 0 <= i < j < |ps| ==> ps[i].arrivalTime <= ps[j].arrivalTime
  }

  /** `p` placed before the first process that does not arrive earlier. */
  function InsertByArrival(p: Process, ps: seq<Process>): (r: seq<Process>)
    ensures |r| == |ps| + 1
  {
    if ps == [] || p.arrivalTime <= ps[0].arrivalTime then [p] + ps
    else [ps[0]] + InsertByArrival(p, ps[1..])
  }

  function SortByArrival(ps: seq<Process>): (r: seq<Process>)
    ensures |r| == |ps|
  {
    if ps == [] then [] else InsertByArrival(ps[0], SortByArrival(ps[1..]))
  }

  /** The processes of `ps` that arrive at time `a`, in their order in `ps`. */
  function ArrivingAt(ps: seq<Process>, a: int): seq<Process> {
    if ps == [] then []
    else (if ps[0].arrivalTime == a then [ps[0]] else []) + ArrivingAt(ps[1..], a)
  }

  lemma {:induction false} InsertPermutes(p: Process, ps: seq<Process>)
    ensures multiset(InsertByArrival(p, ps)) == multiset(ps) + multiset{p}
  {
    if ps != [] && p.arrivalTime > ps[0].arrivalTime {
      InsertPermutes(p, ps[1..]);
      assert ps == [ps[0]] + ps[1..];
    }
  }

  lemma {:induction false} InsertSorted(p: Process, ps: seq<Process>)
    requires SortedByArrival(ps)
    ensures SortedByArrival(InsertByArrival(p, ps))
  {
    if ps != [] && p.arrivalTime > ps[0].arrivalTime {
      var tail := ps[1..];
      assert SortedByArrival(tail);
      InsertSorted(p, tail);
      InsertPermutes(p, tail);
      var s := InsertByArrival(p, tail);
      forall j | 0 <= j < |s| ensures ps[0].arrivalTime <= s[j].arrivalTime {
        assert s[j] in multiset(s);
        if s[j] != p {
          assert s[j] in multiset(tail);
        }
      }
      var r := [ps[0]] + s;
      assert InsertByArrival(p, ps) == r;
      forall i, j | 0 <= i < j < |r| ensures r[i].arrivalTime <= r[j].arrivalTime {
        if i > 0 {
          assert r[i] == s[i - 1] && r[j] == s[j - 1];
        } else {
          assert r[j] == s[j - 1];
        }
      }
    }
  }

  /** The sort orders by arrival time. */
  lemma {:induction false} SortByArrivalSorted(ps: seq<Process>)
    ensures SortedByArrival(SortByArrival(ps))
  {
    if ps != [] {
      SortByArrivalSorted(ps[1..]);
      InsertSorted(ps[0], SortByArrival(ps[1..]));
    }
  }

  /** The sort neither loses nor duplicates a process. */
  lemma {:induction false} SortByArrivalPermutes(ps: seq<Process>)
    ensures multiset(SortByArrival(ps)) == multiset(ps)
  {
    if ps != [] {
      SortByArrivalPermutes(ps[1..]);
      InsertPermutes(ps[0], SortByArrival(ps[1..]));
      assert ps == [ps[0]] + ps[1..];
    }
  }

  lemma {:induction false} InsertStable(p: Process, ps: seq<Process>, a: int)
    requires SortedByArrival(ps)
    ensures ArrivingAt(InsertByArrival(p, ps), a) == (if p.arrivalTime == a then [p] else []) + ArrivingAt(ps, a)
  {
    if ps == [] || p.arrivalTime <= ps[0].arrivalTime {
      var r := [p] + ps;
      assert r[0] == p && r[1..] == ps;
    } else {
      var tail := ps[1..];
      assert SortedByArrival(tail);
      InsertStable(p, tail, a);
      var r := [ps[0]] + InsertByArrival(p, tail);
      assert r[0] == ps[0] && r[1..] == InsertByArrival(p, tail);
      assert ArrivingAt(r, a) == (if ps[0].arrivalTime == a then [ps[0]] else []) + ArrivingAt(InsertByArrival(p, tail), a);
      if p.arrivalTime == a {
        // ps[0] arrives earlier than p, so not at a
        assert ps[0].arrivalTime != a;
        assert ArrivingAt(ps, a) == ArrivingAt(tail, a);
      }
    }
  }

  /** Stability: among processes with the same arrival time the input order is kept. */
  lemma {:induction false} SortByArrivalStable(ps: seq<Process>, a: int)
    ensures ArrivingAt(SortByArrival(ps), a) == ArrivingAt(ps, a)
  {
    if ps != [] {
      SortByArrivalStable(ps[1..], a);
      SortByArrivalSorted(ps[1..]);
      InsertStable(ps[0], SortByArrival(ps[1..]), a);
    }
  }

  /** The sort keeps every process's field, so every total over the list. */
  lemma {:induction false} SortByArrivalSum(ps: seq<Process>, f: Field)
    ensures Sum(SortByArrival(ps), f) == Sum(ps, f)
  {
    if ps != [] {
      SortByArrivalSum(ps[1..], f);
      InsertSum(ps[0], SortByArrival(ps[1..]), f);
      SumConcat([ps[0]], ps[1..], f);
      assert [ps[0]] + ps[1..] == ps;
    }
  }

  lemma {:induction false} InsertSum(p: Process, ps: seq<Process>, f: Field)
    ensures Sum(InsertByArrival(p, ps), f) == Get(p, f) + Sum(ps, f)
  {
    if ps == [] || p.arrivalTime <= ps[0].arrivalTime {
      SumConcat([p], ps, f);
    } else {
      InsertSum(p, ps[1..], f);
      SumConcat([ps[0]], InsertByArrival(p, ps[1..]), f);
      SumConcat([ps[0]], ps[1..], f);
      assert [ps[0]] + ps[1..] == ps;
    }
  }

  /** Every process of the sorted list comes from the input. */
  lemma SortByArrivalMembers(ps: seq<Process>)
    ensures forall i :: 0 <= i < |ps| ==> SortByArrival(ps)[i] in ps
  {
    SortByArrivalPermutes(ps);
    forall i | 0 <= i < |ps| ensures SortByArrival(ps)[i] in ps {
      assert SortByArrival(ps)[i] in multiset(SortByArrival(ps));
    }
  }
}
