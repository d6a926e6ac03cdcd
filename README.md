# CPU scheduling simulator, modelled in Dafny

This project models the scheduling engine of a CPU scheduling simulator. The engine is the `CPUScheduler` class of `cpu_scheduling_algorithms.py`.

- **Inputs.** The scheduler holds the caller's list of processes. Each process has a pid, an arrival time, a burst time and a priority; a lower priority number is more urgent.
- **Runs.** Every algorithm works on a fresh copy of that list. It updates each process in place: remaining time, start, response, completion, turnaround and waiting time.
- **Output.** Every algorithm builds a Gantt chart of `(pid, start, end)` entries. It returns the shared metrics record computed from the working list and the chart.

The six algorithms modelled are:

- first come, first served;
- shortest job first (non-preemptive);
- shortest remaining time first;
- priority, non-preemptive and preemptive;
- round robin.

The model follows the program's structure:

- `Processes` (processes.dfy): the process record, its constructor and the per-process updates the loops make: first run, completion, and serving to completion. It also defines totals over a list.
- `Gantt` (gantt.dfy): chart entries and the one-tick chart update of the preemptive loops, with the merging of consecutive ticks of one pid.
- `Metrics` (metrics.dfy): the shared `calculate_metrics` step and what it guarantees for a finished run.
- `Sorting` (sorting.dfy): the stable sort by arrival time that FCFS applies.
- `Selection` (selection.dfy): the four linear scans that pick the next process. Each is a method with its loop, proved to return the unique minimum of a stated order (or -1). It also covers the `min`/`max` over arrival times.
- `FirstCome`, `NonPreemptive`, `Preemptive` and `RoundRobin`: each states the run of one loop shape as a function of its decisions.
  - FirstCome: the outcome of serving a list in order.
  - NonPreemptive: the state after a sequence of scan choices, for SJF and non-preemptive priority.
  - Preemptive: the state after a sequence of ticks, for SRTF and preemptive priority.
  - RoundRobin: a state machine with a slice step and a jump step, and the whole run (`Run`, `Schedule`) as the function that applies them until no work is left.
  These modules prove what a complete run guarantees, and that the run is determined by its input.
- `LongQuantum` (longquantum.dfy): round robin with a quantum no shorter than any burst, on processes that all arrive at time 0, gives the same chart and metrics as FCFS on the same list.
- `Scheduler` (scheduler.dfy): the class `CPUScheduler`.
  - Its fields are `originalProcesses` and the working list `processes`.
  - Its methods mirror the source's loops statement by statement.
  - Each loop's state is tied by loop invariants to the matching module above.

A process is a value (a datatype), so the copy made by `reset_processes` shares nothing with the caller's list. The floating-point averages, throughput and utilisation are `real`.

The system's written description and its code differ on two points. The model follows the code in both:

- FCFS, SJF and non-preemptive priority never touch `remaining_time`: a served process keeps remaining time = burst. The description says every process ends with remaining time 0.
- Round robin queues new arrivals in index order, in all three scans (lines 411-414, 424-427 and 447-452). The description asks for arrival-then-pid order in the scan after a slice.

The preemptive chart update (lines 243-253 and 370-378) has a branch that cannot be taken:
- It would extend the last entry when its pid is the running pid even though `last_pid` differs.
- `last_pid` always equals the pid of the chart's last entry, so this cannot happen.
- `Scheduler.ChartTick` keeps the branch and marks it dead with `assert false`.

Time units are integers; arrivals, bursts and the clock are unbounded `int`. Python integers do not overflow, so no wrap-around is modelled.

## Model

| member | source | states |
|---|---|---|
| Processes.NewProcess | cpu_scheduling_algorithms.py:23-38 | a new process keeps every argument (priority 0, completion, turnaround and waiting 0, response and start -1 when not given) and has remaining time equal to its burst; it is fresh exactly when the five outcome arguments keep their defaults |
| Processes.FirstRun | cpu_scheduling_algorithms.py:239-241 | the first time a process gets the CPU its start becomes t and its response t - arrival; a process that has started before is returned unchanged; no other field changes |
| Processes.CompleteAt | cpu_scheduling_algorithms.py:259-262 | completion becomes t and the inputs, start and response stay; a process that started after arriving, with its response recorded and its burst's worth of time by t, is then finished (turnaround = completion - arrival, waiting = turnaround - burst) |
| Processes.ServeAt | cpu_scheduling_algorithms.py:128-139 | a process served to completion from t starts at t, completes at t + burst, has waiting = response = t - arrival, keeps its inputs and remaining time, and is finished when it had arrived by t |
| Gantt.RecordTick | cpu_scheduling_algorithms.py:243-253 | recording the tick [t, t+1) either appends one entry or replaces the last one, keeps every earlier entry, and leaves a chart whose last entry is the running pid, ending at t + 1 |
| Gantt.RecordTickPreserves | cpu_scheduling_algorithms.py:243-253 | when the last-pid variable is the last entry's pid and a process continues only where its entry ended, a tick keeps the chart well-ordered with no two neighbouring entries of one pid, adds exactly one unit in total and gives it to the running pid only |
| Scheduler.ChartTick | cpu_scheduling_algorithms.py:243-253 | the source's three-way chart update equals RecordTick, and afterwards the last-pid variable is the running pid and the pid of the chart's last entry |
| Metrics.MaxCompletion | cpu_scheduling_algorithms.py:84 | the total time is the completion time of some process and no process completes later; 0 for an empty list |
| Metrics.Ratio | cpu_scheduling_algorithms.py:91-102 | for a positive divisor the quotient times the divisor is the dividend; otherwise 0 (the source's division-by-zero guard) |
| Metrics.CalculateMetrics | cpu_scheduling_algorithms.py:76-107 | the result carries the name, list and chart; context switches are chart entries - 1; total time is the latest completion; each average is its total over n, where the response total counts only set response times but is still divided by n; utilisation is 100 * total burst / total time and throughput n / total time, each 0 when total time is 0 |
| Metrics.FinishedSums | cpu_scheduling_algorithms.py:79-81 | when every process finished, total turnaround = total waiting + total burst and 0 <= total response <= total waiting |
| Metrics.FinishedAverages | cpu_scheduling_algorithms.py:76-107 | for a non-empty finished run, 0 <= average response <= average waiting, and average turnaround = average waiting + average burst |
| Metrics.UtilisationBound | cpu_scheduling_algorithms.py:89-94 | when the chart is well-ordered, accounts for every burst and ends by the total time, utilisation lies in (0, 100] percent and throughput is positive |
| Sorting.SortByArrivalSorted | cpu_scheduling_algorithms.py:117 | the sorted list is ordered by arrival time |
| Sorting.SortByArrivalPermutes | cpu_scheduling_algorithms.py:117 | the sorted list is a permutation of the input |
| Sorting.SortByArrivalStable | cpu_scheduling_algorithms.py:117 | for every arrival time, the processes arriving then keep their input order (the sort is stable) |
| Sorting.SortByArrivalSum | cpu_scheduling_algorithms.py:117 | sorting keeps every total over the list |
| Selection.ShortestJobScan | cpu_scheduling_algorithms.py:160-168 | the SJF scan returns the not-completed, arrived process with the shortest burst, the lowest index among equals, or -1 exactly when no process is ready |
| Selection.PriorityScan | cpu_scheduling_algorithms.py:293-304 | the non-preemptive priority scan returns the ready process that is most urgent by (priority, arrival, index), or -1 exactly when none is ready |
| Selection.ShortestRemainingScan | cpu_scheduling_algorithms.py:221-229 | the SRTF scan returns the arrived process with the least positive remaining time, the lowest index among equals, or -1 exactly when none is ready |
| Selection.PreemptivePriorityScan | cpu_scheduling_algorithms.py:346-357 | the preemptive priority scan returns the arrived process with time left that is most urgent by (priority, arrival, index), or -1 exactly when none is ready |
| Selection.NPChoiceUnique | cpu_scheduling_algorithms.py:163-168 | the non-preemptive selection rule admits exactly one result for given inputs, so every scan that satisfies it agrees |
| Selection.PChoiceUnique | cpu_scheduling_algorithms.py:224-229 | the preemptive selection rule admits exactly one result for given inputs |
| Selection.NPChoiceSameJobs | cpu_scheduling_algorithms.py:163-168 | the non-preemptive choice depends only on the processes' inputs and the completed flags, not on their outcome fields |
| Selection.PChoiceSameState | cpu_scheduling_algorithms.py:224-229 | the preemptive choice depends only on the inputs and the remaining times |
| Selection.EarliestArrival | cpu_scheduling_algorithms.py:172-175 | the next arrival is the arrival of some process not excluded, and no such process arrives earlier |
| Selection.LatestArrival | cpu_scheduling_algorithms.py:217 | the latest arrival of a non-empty list is the arrival of some process, and none arrives later |
| FirstCome.StartAfter | cpu_scheduling_algorithms.py:124-125 | a process starts at the later of the CPU's free time and its own arrival |
| FirstCome.OutcomeUnique | cpu_scheduling_algorithms.py:122-139 | serving a list in order has exactly one outcome: processes and chart are determined by the list |
| FirstCome.OutcomeJobs | cpu_scheduling_algorithms.py:122-139 | for valid jobs every process is finished with its inputs and remaining time untouched; each starts no earlier than its predecessor completes, and later only at its own arrival (no idling while a process waits) |
| FirstCome.OutcomeChart | cpu_scheduling_algorithms.py:122-139 | the FCFS chart is well-ordered, accounts for exactly the bursts and ends at the latest completion |
| FirstCome.ServedInArrivalOrder | cpu_scheduling_algorithms.py:117-139 | FCFS serves a permutation of the input in arrival order, input order among equal arrivals, with strictly increasing start times |
| FirstCome.SingleProcess | cpu_scheduling_algorithms.py:122-139 | a lone process runs from its arrival for its burst, with waiting and response 0, and the chart is that one entry |
| NonPreemptive.Dispatch | cpu_scheduling_algorithms.py:170-177 | the next decision time is the clock when a process is ready, else the earliest arrival among processes not completed; some process is ready then and none is ready at any earlier time from the clock on |
| NonPreemptive.ValidOrderUnique | cpu_scheduling_algorithms.py:158-196 | two order sequences that follow the selection rule at every decision point, of the same length, are equal; so SJF and non-preemptive priority are deterministic |
| NonPreemptive.CompleteRunJobs | cpu_scheduling_algorithms.py:158-196 | a complete run of well-formed inputs serves every index exactly once; every process is finished with its inputs and remaining time untouched; the chart has one entry per decision, spanning that process's start to completion |
| NonPreemptive.CompleteRunChart | cpu_scheduling_algorithms.py:158-196 | the chart of a complete non-preemptive run is well-ordered, accounts for exactly the bursts and ends by the latest completion |
| Scheduler.NonPreemptiveScheduled | cpu_scheduling_algorithms.py:158-196 | a complete non-preemptive run of well-formed inputs is scheduled: all finished, inputs intact, the chart well-ordered, summing to the bursts and ending by the latest completion |
| Preemptive.RunTick | cpu_scheduling_algorithms.py:236-263 | a tick of process idx advances the clock by one, takes one unit from that process only, keeps its inputs and leaves every other process as it was |
| Preemptive.ValidTicksAgree | cpu_scheduling_algorithms.py:219-263 | of two tick sequences that follow the selection rule, the shorter is a prefix of the longer |
| Preemptive.CompleteTicksUnique | cpu_scheduling_algorithms.py:219-263 | a complete preemptive run is unique, ticks and length alike (SRTF and preemptive priority are deterministic) |
| Preemptive.CompleteRun | cpu_scheduling_algorithms.py:219-263 | a complete preemptive run of well-formed inputs with distinct pids finishes every process with nothing left; the chart is well-ordered, never has one pid in two neighbouring entries, gives each pid exactly its burst, accounts for all bursts and ends by the latest completion |
| Scheduler.PreemptiveIdleStep | cpu_scheduling_algorithms.py:231-234 | an idle tick, taken when nothing is ready but some process has time left, only advances the clock, keeps the loop's invariant and lowers the termination measure |
| Scheduler.PreemptiveRunStep | cpu_scheduling_algorithms.py:236-263 | a running tick is `Preemptive.RunTick`, keeps the remaining times non-negative and the inputs intact, counts a completion exactly when the process runs out, and lowers the termination measure |
| Scheduler.PreemptiveDone | cpu_scheduling_algorithms.py:219-263 | when the completion count reaches n the ticks so far form a complete run |
| Scheduler.PreemptiveScheduled | cpu_scheduling_algorithms.py:219-263 | a complete preemptive run of well-formed inputs with distinct pids is scheduled, has distinct neighbouring pids and charts exactly each burst under its pid |
| Gantt.UnitEntries | cpu_scheduling_algorithms.py:439-442 | a chart whose entries each last one unit has as many entries as it accounts for units |
| RoundRobin.SliceLength | cpu_scheduling_algorithms.py:439 | a slice lasts the quantum or the remaining time, whichever is less |
| RoundRobin.ArrivalsAll | cpu_scheduling_algorithms.py:446-452 | the joining scan queues exactly the arrived, not yet visited processes (with time left when asked), in increasing index order; it marks exactly those visited and adds their number to the visited count |
| RoundRobin.EnqueueArrivals | cpu_scheduling_algorithms.py:424-427 | the scan loop appends the joining processes to the queue in index order and marks them visited, as the arrivals function states |
| RoundRobin.InitialQueue | cpu_scheduling_algorithms.py:410-414 | the initial queue is the processes arriving at time 0, in index order, and exactly those are marked visited |
| RoundRobin.InitialInvariant | cpu_scheduling_algorithms.py:401-414 | the initial state of well-formed inputs with a positive quantum satisfies the round-robin invariant (processes, queue and chart) |
| RoundRobin.JumpInvariant | cpu_scheduling_algorithms.py:417-428 | the jump of an empty queue with processes unqueued keeps the invariant and lowers the measure |
| RoundRobin.SliceInvariant | cpu_scheduling_algorithms.py:430-461 | a slice keeps the invariant, lowers the measure, and raises the completion count by one exactly when the head runs out |
| RoundRobin.MeasureNonNegative | cpu_scheduling_algorithms.py:416 | the termination measure (remaining time plus unqueued processes) is never negative |
| RoundRobin.Run | cpu_scheduling_algorithms.py:416-461 | the run from an invariant state, a slice while the queue is non-empty and a jump while it is empty with work left, ends with an empty queue and every process run out |
| RoundRobin.Schedule | cpu_scheduling_algorithms.py:401-461 | the run of a well-formed list with a positive quantum from its initial state ends with an empty queue and every process run out; being a function, it is determined by the list and the quantum |
| RoundRobin.RunSlice | cpu_scheduling_algorithms.py:430-461 | with a non-empty queue the slice keeps the invariant and the run continues from the slice's result |
| RoundRobin.RunJump | cpu_scheduling_algorithms.py:417-428 | with an empty queue and work left the jump is possible, keeps the invariant, and the run continues from the jump's result |
| RoundRobin.RunDone | cpu_scheduling_algorithms.py:416 | with an empty queue and every process run out, the run is over |
| RoundRobin.FinalState | cpu_scheduling_algorithms.py:416-461 | when the loop stops, every process is finished with its inputs intact and nothing left; each chart entry lasts 1 to q units, carries its process's pid and, when shorter than q, ends at that process's completion; each process got exactly its burst; the chart ends by the latest completion; before any gap every process that had arrived was done |
| Scheduler.DecimalString | cpu_scheduling_algorithms.py:463 | the decimal rendering of the quantum in the algorithm name is a non-empty string of digits that spells the quantum (its `DigitsValue` is q) with no leading zero |
| Scheduler.CPUScheduler.constructor | cpu_scheduling_algorithms.py:62-70 | the scheduler keeps the caller's list and starts with an empty working list |
| Scheduler.CPUScheduler.ResetProcesses | cpu_scheduling_algorithms.py:72-74 | the working list becomes a copy of the caller's list, which no run changes |
| Scheduler.CPUScheduler.Fcfs | cpu_scheduling_algorithms.py:110-141 | the working list is the FCFS outcome of the input stably sorted by arrival and the result is its metrics; for valid jobs every process finishes, in arrival order with increasing starts, and the chart is well-ordered, sums to the bursts and ends at the latest completion |
| Scheduler.CPUScheduler.ServeInOrder | cpu_scheduling_algorithms.py:122-139 | the FCFS loop turns the working list into its served outcome with the matching chart |
| Scheduler.CPUScheduler.NonPreemptiveLoop | cpu_scheduling_algorithms.py:152-196 | the shared SJF and priority loop leaves the state after a complete order that follows the policy's rule at each decision point, and for well-formed inputs that state is scheduled |
| Scheduler.CPUScheduler.Sjf | cpu_scheduling_algorithms.py:144-198 | SJF runs a fresh copy through a complete shortest-burst order (unique by ValidOrderUnique) and returns its metrics; well-formed inputs are scheduled |
| Scheduler.CPUScheduler.PreemptiveLoop | cpu_scheduling_algorithms.py:209-263 | the shared preemptive loop terminates in a complete run of the policy's rule; for well-formed inputs with distinct pids the run is scheduled, leaves nothing remaining and charts each burst under its pid with no two neighbouring entries of one pid |
| Scheduler.CPUScheduler.RunTick | cpu_scheduling_algorithms.py:236-263 | one executed tick updates the process and the chart as `Preemptive.RunTick` states, and reports whether the process completed |
| Scheduler.CPUScheduler.Srtf | cpu_scheduling_algorithms.py:201-265 | SRTF runs a fresh copy through the complete least-remaining-time run and returns its metrics; well-formed inputs with distinct pids are scheduled, with each burst charted under its pid |
| Scheduler.CPUScheduler.PriorityScheduling | cpu_scheduling_algorithms.py:268-281 | priority scheduling runs a fresh copy through the preemptive or the non-preemptive variant, as the flag says (non-preemptive when not given), and returns that variant's result |
| Scheduler.CPUScheduler.PriorityNonPreemptive | cpu_scheduling_algorithms.py:283-334 | the working list goes through a complete most-urgent-first order and the result is its metrics; well-formed inputs are scheduled |
| Scheduler.CPUScheduler.PriorityPreemptive | cpu_scheduling_algorithms.py:336-389 | the working list goes through the complete preemptive priority run and the result is its metrics; well-formed inputs with distinct pids are scheduled |
| Scheduler.CPUScheduler.RoundRobinLoop | cpu_scheduling_algorithms.py:403-461 | the round-robin loop terminates in exactly the state `RoundRobin.Schedule` gives for the input and quantum (its working list, chart and slice list), with an empty queue, every process run out and the round-robin invariant kept |
| Scheduler.CPUScheduler.RoundRobinJump | cpu_scheduling_algorithms.py:417-428 | the empty-queue branch keeps the invariant, lowers the measure and leaves the run to come unchanged |
| Scheduler.CPUScheduler.RunSlice | cpu_scheduling_algorithms.py:430-461 | one round-robin slice updates the working list, queue, visited flags, clock and chart as the step `RoundRobin.Slice` states |
| Scheduler.CPUScheduler.RoundRobin | cpu_scheduling_algorithms.py:392-463 | the working list, the chart and the per-entry indices are those of `RoundRobin.Schedule` for the input and quantum (2 when not given), and the result is their metrics; round robin terminates with every process finished and nothing remaining, the chart well-ordered and summing to the bursts; every entry lasts 1 to q units under its process's pid; an entry shorter than q ends at its process's completion; each process got exactly its burst; no process that had arrived waited across an idle gap; with quantum 1 the chart has one entry per unit of burst, so context switches are the total burst - 1 |
| LongQuantum.SortAllAtZero | cpu_scheduling_algorithms.py:117 | the stable sort by arrival leaves a list whose processes all arrive at time 0 unchanged |
| LongQuantum.SameMetrics | cpu_scheduling_algorithms.py:76-107 | two process lists that differ only in remaining times give the same metrics with the same chart |
| LongQuantum.LongQuantumRun | cpu_scheduling_algorithms.py:401-461 | with all arrivals at 0 and every burst within the quantum, each slice runs the next process in list order to completion, so the run ends in the FCFS records with nothing remaining and the FCFS chart |
| LongQuantum.LongQuantumIsFcfs | cpu_scheduling_algorithms.py:392-463 | round robin with a quantum no shorter than any burst, on well-formed processes all arriving at 0, makes the same chart as FCFS on the same list, gives each process its FCFS record with nothing remaining, and reports the same metrics |
| LongQuantum.TwoAtZeroInListOrder | cpu_scheduling_algorithms.py:410-461 | two unit-burst processes arriving together with quantum 1 run in list order: the chart is the first from 0 to 1, then the second from 1 to 2 |

## Left out

- Printing, the textual timeline and the plots (`visualization.py`), the dataset generators (`dataset_generator.py`) and the demo driver (`comprehensive_demo.py`) are not part of this model. They only produce inputs for the engine or display its output.
- `Process.__repr__` (line 40-41) is display only and is not modelled.
- Sorting.SortByArrival: the in-place `list.sort` is modelled as a stable insertion sort on a sequence. Its result is proved sorted, a permutation and stable, which is what the source relies on. The in-place mechanics of Python's sort are not modelled.
- Scheduler.CPUScheduler.Srtf: requires a non-empty list, because the source's `max` over the arrival times (line 217) fails on an empty list. The other algorithms accept the empty list.
- Scheduler.CPUScheduler.Srtf: the `total_burst` and `max_arrival` the source computes (lines 216-217) are unused by its loop. The model's `Srtf` computes `maxArrival` as a local that is never read, as the source does. `PreemptiveLoop` computes its own ghost copy (scheduler.dfy line 495), used only in the termination measure.
- Scheduler.CPUScheduler.Srtf: requires every process to have positive remaining time and a pid other than -1.
  - A process with no remaining time is never picked and never counted complete, so the source's loop would never end.
  - The pid requirement is stronger than the source needs. `last_pid` starts at -1, so a pid -1 process that runs first takes the extend branch (line 253) on an empty chart and fails. A pid -1 process that runs after some other process is handled by the source; the model excludes it too, to keep the chart's last pid and the "nothing ran yet" value apart.
- Scheduler.CPUScheduler.PriorityScheduling: the same requirement on its preemptive variant, for the same reasons.
- Scheduler.CPUScheduler.PriorityPreemptive: the same requirement, for the same reasons.
- Scheduler.CPUScheduler.PreemptiveLoop: the same requirement, for the same reasons.
- Scheduler.CPUScheduler.RoundRobin: requires well-formed inputs and a positive quantum. Well-formed means fresh processes, arrival >= 0 and burst > 0.
  - The source checks neither. With a quantum of 0 or less its loop does not terminate.
  - A process with burst 0 does not stop the source. It is queued, runs a slice of length `min(q, 0) = 0` (line 439) and completes (lines 455-461).
  - The requirement of a positive burst is the model's choice. With it, the termination measure (remaining time plus unqueued processes) drops on every slice. Every caller in the repository passes positive bursts (dataset_generator.py lines 50-51 and the demo's lists).
- Scheduler.CPUScheduler.Sjf: states the scheduled guarantees only for well-formed inputs. For other inputs it states only that the run follows the selection rule to completion. The same holds for the non-preemptive priority methods.
- Scheduler.CPUScheduler.Fcfs: states the finished-run guarantees only for valid jobs.
- Python's `float('inf')` starting value of each scan is modelled by the "nothing chosen yet" index -1.
- Floating-point rounding of the metrics is not modelled: the averages, throughput and utilisation are exact `real` quotients.
- `copy.deepcopy` is modelled by value semantics: a process is an immutable datatype. So aliasing between the caller's list and the working copy cannot arise in the model.
- The ordering claim comparing SRTF with SJF on average waiting time is not modelled. It is a scheduling-theory property, not something this code states.
