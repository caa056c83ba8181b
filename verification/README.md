# Verified models of the systems labs

A Dafny model of the parts of this repository whose correctness is hard to see,
with proofs about every input and every run. `dafny verify dfyconfig.toml` checks
all of it.

| subject | values and theorems | the code in its own form |
|---|---|---|
| multi-core scheduler (`Lab/Scheduler`) | `PriQueueModel`, `SchedulerModel`, `SimulatorModel`, `SimulatorInvariants`, `SimulatorMoves`, `SimulatorEvents`, `SimulatorTheorems`, `SimulatorPlacement`, `SimulatorSlices`, `SimulatorDispatch`, `SimulatorTermination`, `SimulatorStatistics` | `PriQueueClass`, `SchedulerClass`, `SimulatorClass` |
| MMU, page tables, TLB (`Lab/Ideal_Indirection`) | `TlbModel`, `TlbSentinel`, `AddressBits`, `PageTables`, `MmuModel` | `TlbClass`, `PageMemory`, `MmuClass` |
| `next_permutation` (`Lab/Terrible_Threads`) | `Permutation`, `PermutationCount` | `Permutation` (methods on the array) |
| reusable barrier (`Lab/Broken_Barriers`) | `BarrierModel`, `BarrierProofs`, `BarrierProgress` | `BarrierClass` |
| companies and interns (`Lab/Overworked_Interns`) | `CompanyModel`, `CompanyTheorems`, `CompanyDays` | `CompanyClass` |
| vector and document (`MP/Vector`) | `VectorModel`, `DocumentModel` | `VectorClass`, `DocumentClass` |
| word tree lookups (`Lab/Mad_Mad_Access_Pattern`) | `WordTreeModel`, `WordTreeFile` | `WordTreeLookup` |

`Sequences` has the insertion and the deletion in a sequence that the queues and
the vector share.

How the two columns fit: the source changes arrays, lists and records step by
step, and so do the methods of the right column, each of which is proved to do
what a function of the left column says; the theorems are about those functions.
`SimulatorClass.Simulate`, `SimulatorClass.SimulateFor`, `MmuClass.Session`,
`BarrierClass.Run`, `CompanyClass.Run`, `CompanyClass.Simulation.StopAndJoin`,
`VectorClass.Session` and `WordTreeLookup.BothLookUp` are the places where whole runs
of the imperative code are tied to the theorems.

## How things are modelled

- **Scheduler.** The simulator keeps its own table of who runs where; the
  scheduler keeps cores, queue and completed list. The state machine of
  `SimulatorModel` has both, and a step that dies (`return 3`, an access outside
  `cores`) is `None`. Two jobs on one core, which fail the assertion of line 379, would
  leave no row of the diagram and so no time unit to pass; `ViewsAgree` and
  `AlwaysEnabled` exclude it. Within one phase of a time unit the events may come in
  any order, which covers the order that swap-deletion leaves in the jobs array.
  Cores >= 1 and, for round robin, a quantum >= 1 are required, as the source assumes.
  Arrival and run times are any integers, as the reader of the job file takes them:
  `Given` is that, and `Configured` is that without a run time of 0, which kills the
  run at once. The theorems hold of every `Configured` run, those that never end
  included. Who gets which core, and for how long, is said in terms of the job file
  and the timing diagram, not of the scheduler's own records. The queues of the scheduler
  are linked lists of shared job records. Their keys are mutable, which does no harm
  because a queued job and a job on a core are never the same record: `JobCell.place`
  says where a record is.
- **MMU.** Memory is an explicit map from addresses to blocks of 4096 words. An
  allocation gives a non-null block clear of those in use, `calloc` zeroed and
  `malloc` with any content; `free` requires the block to be in use, so a block
  freed twice would not verify. `TLB_create` makes a node of zeroes, the sentinel:
  it takes up a slot until evicted and is found by a lookup of page 0 of process
  0, as a miss. Machine words are 64-bit vectors where they are masked and shifted.
- **Barrier and companies.** Interleaved steps of any number of threads, a mutex
  as its owner, a condition variable as sleeping and waking threads, spurious
  wake-ups included. `times_used` and `count` wrap as unsigned integers;
  `generation` counts without wrapping. Locking a mutex one holds already blocks,
  as the default mutex of Linux does.
- **Vector.** A copied element is a number that is never used again; the copies not
  yet destroyed are `Elements.live`, and destroying requires the copy to be there.
- **Document.** A file is its sequence of characters. The code drops the last
  character of every line it reads, also of a last line without newline, and
  `strdup` ends a line at its first NUL; the round-trip theorems say exactly when
  that matters.
- **Word tree.** A file is its bytes; the tree it holds is a ghost value laid out in
  them; `WordTreeFile` writes every tree that fits as such a file. `lookup1` keeps a file position in an `int`, so the nodes on the way to a word
  have to be at positions up to 2^31 - 1 (`PathFitsInt`); the file may be longer.

## Where the code is not what it is said to be

- `simulator.c` can end exactly when no job has a negative arrival time or a run time
  below 1 (`EndsIffEveryJobCan`; then every schedule ends, `EveryRunEnds`). One job that
  is due at time -1 is enough (`NegativeArrivalNeverEnds`).
- `simulator.c` reads `cores[-1]` exactly when a job has run time 0, with or without
  other jobs (`DiesIffNoWork`, `NoWorkDies`).
- `bad_company.c` can get stuck exactly when there are at least as many companies
  as interns, a single company with a single intern included (`BadSticksIff`).
- `Vector_resize` called to shrink past elements leaves pointers to destroyed
  elements in the array or forgets live ones; it is safe exactly when the slots it
  drops are NULL (`ResizeIsSafeIff`, and the contract of `Vector.Resize`), which is how
  the other functions call it. `ShrinkSpoils` appends one element and shrinks to 0.
- A document does not survive writing and loading when a line has a newline in it,
  and a file does not survive loading and writing when it has a NUL or no final
  newline (`LoadUndoesWriteIff`, `WriteUndoesLoadIff`). A line that is one newline comes
  back as two lines (`NewlineSplitsLine`), the text `ab` as a line with `a`
  (`LastCharacterIsLost`), and what follows a NUL does not come back
  (`RestOfLineIsLost`).
- The buffer of `tlb.c` is least-recently-used but for its sentinel, which ages like a
  page used when page 0 of process 0 was used first, if it was in reach then
  (`SentinelIsPlaced`); it takes up a line until sixteen pages are in front of it
  (`SentinelIsListed`).

## Model

| member | source | states |
|---|---|---|
| PriQueueModel.OfferIsStableInsertion | Lab/Scheduler/libpriqueue.c:39-75 | offering to a sorted queue, for any total preorder, keeps it sorted, keeps the order of the others, puts the new entry behind all that compare equal, at the index that is returned |
| PriQueueModel.OfferIndexIsUnique | Lab/Scheduler/libpriqueue.c:56-73 | that place is the only one with everything not greater in front and everything greater behind |
| PriQueueModel.OfferAppends | Lab/Scheduler/libscheduler.c:34-37 | with the comparer that always answers 1 an offer is an append, and returns the old size |
| PriQueueModel.DispatchedAfterThoseAhead | Lab/Scheduler/libpriqueue.c:98-107 | first in, first out: an entry with p entries ahead is handed out by exactly the (p+1)-th following poll, whatever is offered in between |
| PriQueueClass.PriQueue.Offer | Lab/Scheduler/libpriqueue.c:39-75 | the linked list after an offer is the insertion of the model, on the same entries and one new one, and the index returned is the model's |
| PriQueueClass.PriQueue.Poll | Lab/Scheduler/libpriqueue.c:98-107 | hands out the head and keeps the rest in order, or null for an empty queue |
| PriQueueClass.PriQueue.Peek | Lab/Scheduler/libpriqueue.c:85-88 | the head, or null for an empty queue, and the queue is unchanged |
| PriQueueClass.PriQueue.Size | Lab/Scheduler/libpriqueue.c:115 | the size field is the number of entries linked |
| PriQueueClass.PriQueue.Destroy | Lab/Scheduler/libpriqueue.c:122-125 | the loop of polls empties the queue |
| SchedulerModel.ComparersAreTotalPreorders | Lab/Scheduler/libscheduler.c:14-37 | the comparers of FCFS, PRI and PSJF are total preorders, as `priqueue_offer` needs, and that of RR is none; which way they go is said by `EarliestNext`, `LeastPriorityNext` and `ShortestNext` |
| SchedulerModel.WorstCoreIsLast | Lab/Scheduler/libscheduler.c:142-152 | the two tests of the preemption loop find the running job that comes last of all, on the lowest core if several do, or none exactly when the new job comes before nobody |
| SchedulerClass.Scheduler.ChargeCores | Lab/Scheduler/libscheduler.c:121-126 | every running job, and no other, is charged the time since it was last charged |
| SchedulerClass.Scheduler.FindIdle | Lab/Scheduler/libscheduler.c:128-129 | the lowest idle core, or the number of cores when there is none |
| SchedulerClass.Scheduler.FindWorst | Lab/Scheduler/libscheduler.c:142-152 | the loop over the cores finds the worst core of the model |
| SchedulerClass.Scheduler.Preempt | Lab/Scheduler/libscheduler.c:154-163 | the newcomer is on the core, the old job in the queue at its place, its first and last run time taken back if they were now |
| SchedulerClass.Scheduler.NewJob | Lab/Scheduler/libscheduler.c:102-172 | the whole scheduler after an arrival, and the core returned, are those of the model; no two places hold the same job object |
| SchedulerClass.Scheduler.JobFinished | Lab/Scheduler/libscheduler.c:189-207 | the whole scheduler after a completion, the three times recorded, and the next job's number |
| SchedulerClass.Scheduler.QuantumExpired | Lab/Scheduler/libscheduler.c:222-236 | the whole scheduler after a quantum, and the next job's number |
| SchedulerClass.Scheduler.Totals | Lab/Scheduler/libscheduler.c:246-300 | the walks along the linked completed list compute the sums of waiting, turnaround and response times of all completed jobs, which `TotalsAreTrue` reads off the timing diagram, and the divisor is the job count |
| SchedulerClass.Scheduler.Averages | Lab/Scheduler/libscheduler.c:246-300 | the three averages are the quotients of those sums by the job count, as real numbers, and undefined exactly when there were no jobs |
| SimulatorTheorems.EveryEventGoesThrough | Lab/Scheduler/simulator.c:222-449 | in a state of the invariant no event dies, and the invariant is kept: completion, expiry, arrival with preemption, and the time unit |
| SimulatorTheorems.AlwaysEnabled | Lab/Scheduler/simulator.c:222-449 | as long as jobs are left some event can come next |
| SimulatorTheorems.ViewsAgree | Lab/Scheduler/simulator.c:222-449 | after any run: an active job has core c exactly when cores[c] holds it, and an arrived one has core -1 exactly when it is queued; two jobs never have the same core, which is the assertion of line 379; nobody is queued twice; the exits with status 3 cannot come next |
| SimulatorTheorems.WorkConserving | Lab/Scheduler/simulator.c:433-443 | in all four schemes an idle core means an empty queue and every arrived job on a core |
| SimulatorTheorems.ShortestRun | Lab/Scheduler/libscheduler.c:142-169 | under PSJF, at every moment of every run, a running job has no more time left than a queued one by the simulator's own count, and an equal one arrived no later |
| SimulatorTheorems.RemainingTimeIsExact | Lab/Scheduler/libscheduler.c:121-126 | except under RR the scheduler's remaining time is the simulator's run time, exactly for queued jobs and after charging for running ones; and the queue is sorted although its keys change |
| SimulatorPlacement.EarliestNext | Lab/Scheduler/libscheduler.c:14-17 | under FCFS, at every reachable state: the core of a job that completes goes to a waiting job that arrived first by the job file, is idle exactly if nobody waits, and nobody else is moved |
| SimulatorPlacement.LeastPriorityNext | Lab/Scheduler/libscheduler.c:19-25 | under PRI it goes to a waiting job of the least priority value, one that arrived first among those |
| SimulatorPlacement.ShortestNext | Lab/Scheduler/libscheduler.c:26-32 | under PSJF it goes to a waiting job with the fewest units left, one that arrived first among those |
| SimulatorPlacement.ArrivalIsPlaced | Lab/Scheduler/libscheduler.c:121-171 | at every reachable state an arriving job gets the lowest idle core if there is one; else, under PSJF, the core of the running job with the most units left, the latest arrival and then the lowest core among equals, provided that job has more left than the newcomer; else it waits; nobody else is moved |
| SimulatorPlacement.RunsToTheEnd | Lab/Scheduler/libscheduler.c:138-141 | under FCFS and PRI a job that is on a core is on that core until it completes, over any run |
| SimulatorSlices.SliceIsQuantum | Lab/Scheduler/simulator.c:279-315 | under RR, in every run with the given quantum: from the unit a job is put on a core it has that core in every row of the timing diagram until it completes or has had exactly `quantum` rows; exactly then it can be offered back, and no unit passes before it is |
| SimulatorSlices.OfferedBack | Lab/Scheduler/libscheduler.c:222-236 | a job whose slice is over is last in the queue, or has its core for another slice if nobody waits |
| SimulatorTheorems.FirstComeFirstStarted | Lab/Scheduler/libscheduler.c:128-141 | under FCFS and RR a job never first runs in a later unit than a job that arrived after it |
| SimulatorDispatch.RoundRobinWaitsItsTurn | Lab/Scheduler/libscheduler.c:189-236 | under RR, from any reachable state and over any events that follow: a job with p jobs ahead of it in the queue is on no core before the (p+1)-th completion or expiry, and on a core right after it |
| SimulatorTheorems.WaitedIsTheRest | Lab/Scheduler/simulator.c:373-392 | the units a job ran in and those it waited in make up the time in between |
| SimulatorTheorems.ReportIsTrue | Lab/Scheduler/libscheduler.c:191-193 | waiting time is the number of units arrived but on no core, turnaround is waiting and running time and ends with the last unit run, response is the time to the first unit really run in, and 0 <= response <= waiting |
| SimulatorTheorems.ReportsAreTrue | Lab/Scheduler/libscheduler.c:189-195 | every report made in any run is true of the timing diagram in that sense, no job is reported twice, and exactly the finished jobs are reported |
| SimulatorTheorems.EveryJobIsReported | Lab/Scheduler/libscheduler.c:117 | when a run is over every job has exactly one report, and the job count is the number of jobs and of reports |
| SimulatorTermination.TickDecreases | Lab/Scheduler/simulator.c:364-448 | every time unit lowers the remaining work plus the time to the latest arrival |
| SimulatorTermination.EveryEventCosts | Lab/Scheduler/simulator.c:222-449 | every event lowers a measure, when every job of the file can finish |
| SimulatorTermination.EndsIffEveryJobCan | Lab/Scheduler/simulator.c:222 | the main loop can end exactly when every job has an arrival time of at least 0 and a run time of at least 1 |
| SimulatorTermination.EveryRunEnds | Lab/Scheduler/simulator.c:222-449 | and then every order in which the events can come reaches the end |
| SimulatorTermination.NegativeArrivalNeverEnds | Lab/Scheduler/simulator.c:320-362 | a job of one unit that is due at time -1 is never admitted, and the loop does not end |
| SimulatorTermination.DiesIffNoWork | Lab/Scheduler/simulator.c:228-236 | a run can die, by an exit, an assertion or an access outside the cores, exactly when some job has run time 0 |
| SimulatorTermination.NoWorkDies | Lab/Scheduler/simulator.c:228-236 | a single job with run time 0 is completed before it arrives, on core -1 |
| SimulatorTermination.Completes | Lab/Scheduler/simulator.c:222-449 | from every state of the invariant the events lead to the end, when every job of the file can finish |
| SimulatorTermination.TimeIsConserved | Lab/Scheduler/libscheduler.c:246-300 | at the end the total turnaround is the total waiting time and all the work there was, the total response is between 0 and the total waiting time, and the divisor is the number of jobs |
| SimulatorStatistics.TotalsAreTrue | Lab/Scheduler/libscheduler.c:246-300 | at the end of every run the three totals are the sums over all jobs of the file of what the timing diagram shows: the first unit run minus the arrival, the units waited from the arrival to the last unit run, and the time from the arrival to the end of that unit |
| SimulatorClass.Simulator.SetActiveJob | Lab/Scheduler/simulator.c:31-42 | the loop gives the core to the arrived job of that id, or reports that there is none, as the table says |
| SimulatorClass.Simulator.RemoveEntry | Lab/Scheduler/simulator.c:242-246 | deletion by copying the last entry leaves exactly the other jobs |
| SimulatorClass.Simulator.FinishJobs | Lab/Scheduler/simulator.c:228-267 | the loop with its stepping back finishes every job without work left, and the program stays in step with the machine |
| SimulatorClass.Simulator.ExpireSlices | Lab/Scheduler/simulator.c:279-315 | every core whose quantum is used up gets its next job, and the program stays in step with the machine |
| SimulatorClass.Simulator.AdmitArrivals | Lab/Scheduler/simulator.c:320-362 | every job whose time has come is admitted, and the program stays in step with the machine |
| SimulatorClass.Simulator.PassUnit | Lab/Scheduler/simulator.c:367-448 | the unit is run with a row of the diagram as the machine has it, and the sanity check does not fire |
| SimulatorClass.Simulate | Lab/Scheduler/simulator.c:207-469 | when every job of the file can finish, the program ends, with status 0, in a final state that the machine reaches from the jobs of the file with the cores, scheme and quantum given, with that state's scheduler and timing diagram; and the averages it prints are the means of what that diagram shows of each job |
| SimulatorClass.SimulateFor | Lab/Scheduler/simulator.c:207-449 | the first so many units of any run, of one that never ends too: no exit with status 3, and scheduler and diagram are those of a state that the machine reaches from the jobs of the file |
| TlbModel.RecencyIsByLastUse | Lab/Ideal_Indirection/tlb.c:22-40 | the list without a bound has each used page once, the later used one in front |
| TlbModel.AccessShows | Lab/Ideal_Indirection/tlb.c:5-71 | a lookup, with an addition on a miss, does to the sixteen lines what it does to the list without a bound, and is a hit exactly when the page is among its first sixteen entries |
| TlbModel.UnboundedIsRecency | Lab/Ideal_Indirection/tlb.c:5-71 | apart from the sentinel the list without a bound is the recency list |
| TlbModel.SentinelIsOldest | Lab/Ideal_Indirection/tlb.c:3 | until page 0 of process 0 is used the sentinel is the oldest entry |
| TlbModel.ExactlyLru | Lab/Ideal_Indirection/tlb.c:45-71 | after any accesses: at most MAX_NODES lines, no page twice, and the pages are the most recently used ones in order, sixteen of them once the sentinel is gone and all but its slot before |
| TlbSentinel.SentinelIsPlaced | Lab/Ideal_Indirection/tlb.c:3-71 | after any history the list without a bound is the recency list with the sentinel behind the pages used since page 0 of process 0 was used first, if fewer than sixteen had been used by then, and at its end otherwise |
| TlbSentinel.SentinelIsListed | Lab/Ideal_Indirection/tlb.c:57-62 | the sentinel is in the list exactly while fewer than sixteen pages are in front of it |
| TlbSentinel.HitExactly | Lab/Ideal_Indirection/tlb.c:5-43 | a page is among the first sixteen exactly when fewer than sixteen pages have been used since it was, the sentinel counted where it is |
| TlbSentinel.ListIsExactly | Lab/Ideal_Indirection/tlb.c:5-71 | after any accesses the list is the first sixteen of the recency list with the sentinel in its place |
| TlbClass.Tlb.constructor | Lab/Ideal_Indirection/tlb.c:3 | the list starts as the one sentinel node |
| TlbClass.Tlb.Get | Lab/Ideal_Indirection/tlb.c:5-43 | relinking moves the node found to the front of the same nodes and returns its frame, or 0 and no change |
| TlbClass.Tlb.Count | Lab/Ideal_Indirection/tlb.c:46-55 | the slow and fast pointers end at the last two nodes, and the count is the length, or 2 for one node |
| TlbClass.Tlb.Add | Lab/Ideal_Indirection/tlb.c:45-71 | the new node in front, and the last one gone exactly when there were MAX_NODES |
| AddressBits.PartsInRange | Lab/Ideal_Indirection/mmu.c:21-41 | the indices are below 4096, the offset below 2^15 |
| AddressBits.KeyJoinsIndices | Lab/Ideal_Indirection/mmu.c:21-38 | key = vpn1 * 2^24 + vpn2 * 2^12 + vpn3, and the indices can be read off the key |
| AddressBits.SplitIsInjective | Lab/Ideal_Indirection/mmu.c:21-41 | addresses have the same indices and offset exactly when their low 51 bits agree, the same key exactly when the indices agree |
| AddressBits.SplitIsOnto | Lab/Ideal_Indirection/mmu.c:27-41 | every choice of three indices and an offset comes from an address |
| PageTables.TreeGrows | Lab/Ideal_Indirection/mmu.c:56-60 | setting a word to a new block adds exactly that child: the tables stay a tree without sharing |
| PageTables.FrameIsWalked | Lab/Ideal_Indirection/mmu.c:54-69 | reading the three tables by the indices of an address leads to the frame of its page |
| PageTables.TranslationIsInjective | Lab/Ideal_Indirection/mmu.c:50-76 | two translations are equal exactly when process and low 51 bits are |
| PageTables.PrefixesByLevel | Lab/Ideal_Indirection/mmu.c:56-74 | the prefixes the fault counter counts are the distinct (pid, vpn1), (pid, vpn1, vpn2) and (pid, vpn1, vpn2, vpn3), added up |
| PageTables.LevelIsOfHistory | Lab/Ideal_Indirection/mmu.c:54-74 | those of length n are the first n indices of the pages in the history |
| PageTables.UnderNext | Lab/Ideal_Indirection/page_table.c:21-36 | one more word of a table brings its child and all below it, and nothing else |
| PageTables.FreeingOne | Lab/Ideal_Indirection/page_table.c:29-37 | a node not freed yet is still there, and freeing it takes just it away |
| PageMemory.Memory.Allocate | Lab/Ideal_Indirection/page_table.c:4-6 | a block that is not null and clear of all in use; there is always one |
| PageMemory.Memory.NewFrame | Lab/Ideal_Indirection/kernel.c:4 | the same, whatever is in the block |
| MmuModel.BufferedIsRecent | Lab/Ideal_Indirection/tlb.c:5-43 | for any history, a translation will hit exactly when the page was used and is among the sixteen used last, or the fifteen used last if the sentinel is in front of it |
| MmuModel.MissesAreCounted | Lab/Ideal_Indirection/mmu.c:52-53 | the miss count is the number of positions in the history whose page was not in the buffer then |
| MmuModel.TranslatedKeeps | Lab/Ideal_Indirection/mmu.c:47-78 | a translation keeps the whole account: the buffer shows the recent pages with the frames of the tables, the miss count is exact, the fault count is the number of distinct prefixes, which are the nodes below the base tables |
| MmuModel.AnswersDiffer | Lab/Ideal_Indirection/mmu.c:50-76 | among all answers given, equal ones are for the same process and low 51 bits |
| MmuClass.Mmu.constructor | Lab/Ideal_Indirection/mmu.c:6-16 | a zeroed base table for every process, the one sentinel, counters 0, and no other memory touched |
| MmuClass.Mmu.Descend | Lab/Ideal_Indirection/mmu.c:54-60 | one level: the child is there, made if it was missing at the cost of one fault, and all else has stayed |
| MmuClass.Mmu.Translate | Lab/Ideal_Indirection/mmu.c:19-81 | the answer is the low 15 bits of the address added to the frame that a walk through the tables by bits 39, 27 and 15 on gives, hit or miss; it is the answer given before for the same place; old nodes stay; counters and buffer are as the history says |
| MmuClass.Mmu.DeleteTree | Lab/Ideal_Indirection/page_table.c:19-39 | frees the base table and everything below it, each block once and nothing else |
| MmuClass.Mmu.Delete | Lab/Ideal_Indirection/mmu.c:103-107 | frees exactly the blocks of the tables and frames, each once |
| MmuClass.Session | Lab/Ideal_Indirection/mmu.c:6-110 | over a whole life, for any interleaved requests: equal answers exactly for equal places, answers on one page as far apart as the low 15 bits of their addresses, both counters exact, and all memory given back |
| Permutation.NextIsSuccessor | Lab/Terrible_Threads/algorithm.c:14-43 | when true: a permutation of the input, greater, and no permutation in between |
| Permutation.NextWraps | Lab/Terrible_Threads/algorithm.c:38-41 | when false: the input was the greatest and the result is the least |
| Permutation.TrueIffNotGreatest | Lab/Terrible_Threads/algorithm.c:14-43 | true exactly when a greater permutation exists |
| Permutation.Reverse | Lab/Terrible_Threads/algorithm.c:3-12 | the range is reversed in place and the rest of the array unchanged |
| Permutation.FindLast | Lab/Terrible_Threads/algorithm.c:30-31 | the loop from the end finds the last element greater than the pivot |
| Permutation.FindPivot | Lab/Terrible_Threads/algorithm.c:25-42 | the loop finds the last ascent, or that there is none |
| Permutation.NextPermutation | Lab/Terrible_Threads/algorithm.c:14-43 | the result and the range of the array are the successor function's, the rest unchanged, empty and one-element ranges included |
| PermutationCount.RankIsMonotone | Lab/Terrible_Threads/algorithm.c:14-43 | the number of smaller arrangements, counted by factorials, grows with the lexicographic order |
| PermutationCount.RankOfNext | Lab/Terrible_Threads/algorithm.c:14-43 | each call goes up by exactly one in that count |
| PermutationCount.LastRank | Lab/Terrible_Threads/algorithm.c:38-41 | false comes exactly at the n!-th arrangement |
| PermutationCount.VisitsAllOnce | Lab/Terrible_Threads/algorithm.c:14-43 | from the sorted order of n distinct values the calls visit all n! arrangements, each once |
| PermutationCount.VisitsEachOnce | Lab/Terrible_Threads/algorithm.c:14-43 | from the sorted order of any values, repeats included, the states before the first false answer are exactly the arrangements of those values, each once |
| BarrierProofs.StepKeeps | Lab/Broken_Barriers/barrier.c:23-43 | every step, spurious wake-ups included, keeps the invariant that ties count, times_used and the mutex to where the threads are |
| BarrierProofs.NobodyLeavesEarly | Lab/Broken_Barriers/barrier.c:31-42 | no thread has returned more often than any other has arrived: nobody leaves round g before all have entered it |
| BarrierProofs.RoundsStayTogether | Lab/Broken_Barriers/barrier.c:23-43 | two threads are never more than one round apart |
| BarrierProofs.SavedIsRecent | Lab/Broken_Barriers/barrier.c:27-37 | a waiter's generation is the present one or the one before, and the comparison of the wrapped counters tells which |
| BarrierProofs.MutualExclusion | Lab/Broken_Barriers/barrier.c:25-40 | two threads are never at the counters at once |
| BarrierProofs.SomebodyCanGoOn | Lab/Broken_Barriers/barrier.c:36-38 | in every reachable state some thread has a step of its own that is not a spurious wake-up |
| BarrierProgress.EveryRoundEnds | Lab/Broken_Barriers/barrier.c:31-38 | a run in which the n threads take more than 16 n steps, and two more for each spurious wake-up, has opened the barrier |
| BarrierClass.Barrier.constructor | Lab/Broken_Barriers/barrier.c:11-21 | count and times_used 0, the number of threads as given |
| BarrierClass.Barrier.Act | Lab/Broken_Barriers/barrier.c:23-43 | each statement changes the struct and the threads as the machine does, or blocks where it blocks |
| BarrierClass.Run | Lab/Broken_Barriers/barrier.c:11-43 | every schedule of the statements ends in a state the theorems speak of |
| CompanyModel.StepKeeps | Lab/Overworked_Interns/good_company.c:15-37 | in both programs every step keeps: a mutex is held by exactly the company whose place in the code says so |
| CompanyModel.HiresBoth | Lab/Overworked_Interns/company.c:9-34 | a hiring company holds both its interns, and they are two, so the checks on the owners never exit |
| CompanyTheorems.HiringIsExclusive | Lab/Overworked_Interns/good_company.c:23-34 | two companies that hire at the same time have no intern in common |
| CompanyTheorems.NobodyIsCaught | Lab/Overworked_Interns/company.c:23-34 | in no run of either program does `Company_hire_interns` exit |
| CompanyTheorems.GoodNeverStuck | Lab/Overworked_Interns/good_company.c:15-37 | for any number of companies and interns: while some company is not done, some company can go on |
| CompanyTheorems.BadSticksIff | Lab/Overworked_Interns/bad_company.c:11-25 | a state in which nobody can go on is reachable exactly when there are at least as many companies as interns |
| CompanyTheorems.FewStepsAfterStop | Lab/Overworked_Interns/simulator.c:99-110 | once running is 0 the n companies take at most 9 n more steps in all |
| CompanyDays.DaysAreCounted | Lab/Overworked_Interns/company.c:36-40 | in every run of either program a company's billable days are the times it has given back its interns, and one more while it still has one after hiring: each pass through the locks hires once |
| CompanyDays.RoundsAreCounted | Lab/Overworked_Interns/good_company.c:15-37 | every round of the loop that is over ended with one board meeting in good_company.c, and with the second unlock and no meeting in bad_company.c |
| CompanyDays.EverybodyCanHire | Lab/Overworked_Interns/good_company.c:22-35 | with two interns or more every company has a reachable state in which it has a billable day |
| CompanyClass.Simulation.constructor | Lab/Overworked_Interns/simulator.c:83-97 | company i gets interns i mod k and (i + 1) mod k, all free |
| CompanyClass.Simulation.Act | Lab/Overworked_Interns/good_company.c:15-37 | each statement of either program changes mutexes and company as the machine does, or blocks where it blocks |
| CompanyClass.Run | Lab/Overworked_Interns/simulator.c:83-99 | every schedule of the statements and of `running = 0` is a run the theorems speak of, nobody is caught, and every company's billable days are its passes |
| CompanyClass.Simulation.StopAndJoin | Lab/Overworked_Interns/simulator.c:100-110 | after running = 0 all companies end, whichever the scheduler picks, for good_company and for bad_company with fewer companies than interns |
| VectorModel.CapacityIsPower | MP/Vector/vector.c:86-101 | the capacities are 10 times a power of two |
| VectorModel.RecappedIsUnique | MP/Vector/vector.c:82-123 | what `Vector.Resize` says of the new capacity leaves one number only |
| VectorModel.InsertedMeans | MP/Vector/vector.c:148-161 | what is at each index after an insertion, the NULLs before it past the end included |
| VectorModel.InsertKeeps | MP/Vector/vector.c:152-155 | a new slot with its own copy: contents, ownership and everybody else's elements |
| VectorModel.DeleteKeeps | MP/Vector/vector.c:168-172 | a slot taken out and its copy destroyed: contents, ownership and everybody else's elements |
| VectorModel.ResizeIsSafeIff | MP/Vector/vector.c:82-123 | a resize leaves nothing dangling and nothing forgotten exactly when the slots it drops are NULL |
| VectorClass.Vector.constructor | MP/Vector/vector.c:41-55 | empty, capacity 10, every slot NULL |
| VectorClass.Vector.Resize | MP/Vector/vector.c:82-123 | size as asked; capacity the least of its doublings that fits when it has to grow, halved while over twice the size, but not below 10, when it shrinks, and unchanged otherwise; every slot that stays unchanged and NULL where there was none; exactly the elements past the size in the array destroyed; nothing dangling and nothing forgotten exactly when the slots dropped were NULL |
| VectorClass.Vector.Append | MP/Vector/vector.c:177-182 | the sequence with the element, or NULL, at its end, and nobody else's elements touched |
| VectorClass.Vector.Insert | MP/Vector/vector.c:148-161 | the sequence with the element put in, filled up with NULL past the end |
| VectorClass.Vector.Set | MP/Vector/vector.c:127-137 | the sequence with that element replaced, the old copy destroyed |
| VectorClass.Vector.Get | MP/Vector/vector.c:140-145 | the slot, whose copy is live |
| VectorClass.Vector.Delete | MP/Vector/vector.c:164-174 | the sequence without that element, its copy destroyed |
| VectorClass.Vector.DestroyAll | MP/Vector/vector.c:58-67 | every copy the vector still has is destroyed, and no other |
| VectorClass.ShrinkSpoils | MP/Vector/vector.c:82-123 | a vector with one element, resized to 0, is left with a slot that points to the element it destroyed |
| VectorClass.Session | MP/Vector/vector.c:41-182 | over a whole life the vector is the sequence its operations make, and in the end each of its copies has been destroyed once |
| DocumentModel.LoadUndoesWriteIff | MP/Vector/document.c:37-84 | loading what was written gives the same lines, NULL as an empty one, exactly when no line has a newline |
| DocumentModel.WriteUndoesLoadIff | MP/Vector/document.c:37-84 | writing what was loaded gives the same text exactly when it has no NUL and is empty or ends in a newline |
| DocumentModel.NewlineSplitsLine | MP/Vector/document.c:37-84 | a document of one line that is a newline does not come back |
| DocumentModel.LastCharacterIsLost | MP/Vector/document.c:72-75 | the text `ab`, without a final newline, is loaded as the line `a` and written as `a` and a newline |
| DocumentModel.RestOfLineIsLost | MP/Vector/document.c:72-77 | a text with a NUL in a line is not written back |
| DocumentClass.Document.WriteToFile | MP/Vector/document.c:49-54 | the loop over the lines writes the text of the model |
| DocumentClass.CreateFromFile | MP/Vector/document.c:59-84 | the getline loop loads the lines of the model, and the document owns its copies |
| DocumentClass.Document.InsertLine | MP/Vector/document.c:118-125 | the lines with the C string put in |
| DocumentClass.Document.SetLine | MP/Vector/document.c:101-108 | the lines with that one replaced by the C string |
| DocumentClass.Document.DeleteLine | MP/Vector/document.c:127-133 | the lines without that one |
| WordTreeModel.AnswerIsThere | Lab/Mad_Mad_Access_Pattern/lookup2.c:64-86 | one comparison with a node's word tells where in an ordered tree the answer is |
| WordTreeModel.WordIsThere | Lab/Mad_Mad_Access_Pattern/tree.h:70-81 | the C string sixteen bytes behind a node is its word |
| WordTreeModel.NodeInBuffer | Lab/Mad_Mad_Access_Pattern/lookup1.c:65-71 | a node's bytes read into a buffer say what they say in the file |
| WordTreeFile.CompareIsLexicographic | Lab/Mad_Mad_Access_Pattern/lookup2.c:64 | strcmp is negative exactly when at the first difference the first word ends or has the smaller byte |
| WordTreeFile.NodeReadsBack | Lab/Mad_Mad_Access_Pattern/tree.h:70-81 | the four fields and the word, written byte by byte as tree.h lays them out, are what is read, wherever in the file |
| WordTreeFile.SampleRoot | Lab/Mad_Mad_Access_Pattern/tree.h:47-62 | written that way the root of sample.data has the bytes that tree.h prints |
| WordTreeFile.FileIsWellFormed | Lab/Mad_Mad_Access_Pattern/tree.h:6-23 | every search tree that fits 32-bit offsets, written node by node behind BTRE, is a file that the lookups answer from |
| WordTreeLookup.WordLength | Lab/Mad_Mad_Access_Pattern/lookup1.c:58-62 | the fgetc loop counts the bytes up to the NUL |
| WordTreeLookup.ReadNode | Lab/Mad_Mad_Access_Pattern/lookup1.c:56-67 | seeking and reading gets exactly the node at the position |
| WordTreeLookup.Search1 | Lab/Mad_Mad_Access_Pattern/lookup1.c:52-99 | the seek and read descent ends and finds the entry of the word in the tree, or that there is none, when the nodes on the way are at positions that fit an int |
| WordTreeLookup.Search2 | Lab/Mad_Mad_Access_Pattern/lookup2.c:59-87 | the descent in memory ends and finds the entry of the word in the tree, or that there is none |
| WordTreeLookup.LookUp1 | Lab/Mad_Mad_Access_Pattern/lookup1.c:40-104 | for any words the answers are the tree's, or the format is reported, exactly when the first four bytes are not BTRE |
| WordTreeLookup.LookUp2 | Lab/Mad_Mad_Access_Pattern/lookup2.c:49-88 | the same, for a file of any size |
| WordTreeLookup.BothLookUp | Lab/Mad_Mad_Access_Pattern/lookup2.c:49-88 | both programs give the same answers |

## Left out

- Printing, options, reading the job file, `usleep`, and the timing diagram's strings and their growth: the diagram is the rows of job ids it shows.
- SchedulerClass.Scheduler.Totals: the sums are exact integers, while the source adds them up as floats; `Averages` divides them as real numbers, without rounding.
- Overflow of the comparers' subtractions and of times and counters, except in the barrier, whose counters wrap.
- `scheduler_clean_up` and `scheduler_show_queue`.
- SimulatorClass.Simulate: a file with a negative arrival time or run time, for which the loop does not end and `SimulateFor` says what happens up to any time; with a run time of 0 the source reads `cores[-1]` and nothing is said of what comes after (`DiesIffNoWork`).
- `MMU_free_process_tables` in the middle of a run: it leaves the base table and lines of the buffer pointing at freed blocks, so nothing is claimed after it.
- MmuClass.Mmu.Delete: `TLB_delete` and the freeing of the MMU struct itself, since list nodes are Dafny objects; only tables and frames are in the modelled memory.
- PriQueueClass.PriQueue.Destroy: the freeing of the entries, which are Dafny objects; that the queue ends empty is stated.
- Failing allocations, failing thread creation and failing `fopen`: allocation always succeeds, and `Document_create_from_file` is given a file that is there.
- MmuClass.Session: memory other than blocks of the size of a table is not modelled.
- BarrierModel: a barrier used by another number of threads than it was made for.
- VectorClass.Vector.Set: an element that aliases the old one, which the source destroys before it copies.
- WordTreeLookup.Search1: a file in which a node on the way to a word is at 2^31 or beyond, where the `int` of `lookup1` no longer holds the position.
- WordTreeLookup.LookUp2: a file shorter than four bytes; the price is four opaque bytes.
- Job durations, screen positions and the meeting that may follow a hire inside `Company_hire_interns`: they take no lock.
- `queue.c`, `semamore.c`, `rendezvous.c`, `poisson.c`, `bmp.c`, `count_primes.c`, and the chat room, shell, camelCaser and allocator labs.
