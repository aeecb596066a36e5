# CPU scheduling simulators with memory swapping, modelled in Dafny

The system is four small simulators of a single CPU. Each keeps a fixed table
of `Process` records, a clock `current_time` and a memory counter
`available_memory`:

- `calculate_fcfs` (fcfs.c) sorts the table by arrival time with an in-place
  bubble sort and then runs every process to completion in that order.
- `calculate_priority` (PS.c) repeatedly picks the arrived, uncompleted
  process with the lowest priority value, with ties going to the shorter
  burst and then to the lower index. It runs that process to completion.
- `calculate_sjf` (sjf.c) does the same with the shortest burst, with ties
  going to the earlier arrival and then to the lower index. It records the
  dispatch order in `execution_order`.
- `calculate_rr` (RR.c) runs processes in slices of a fixed quantum. It
  keeps a FIFO array queue (`queue`, `front`, `rear`) and a `visited` flag
  per process.

Before a process runs for the first time it is swapped in. This costs
SWAP_TIME and takes its memory from the pool. When it does not fit, finished
processes still in memory are first swapped out in table order, each
returning its memory and costing SWAP_TIME. That eviction stops as soon as
the process fits. Each file has its own eviction test. The
`print_performance_metrics` functions sum integer columns and compute a
makespan.

## Layout

Each C file becomes one module, and each keeps its source's imperative form.
The process table is an `array<Process>` of a per-file datatype, and the
loops are `while`/`for` loops with invariants.

| file | module | C file |
|---|---|---|
| `common.dfy` | `Common` | the shared constants; `Sum`, `Count`, `MaxOf` and their lemmas |
| `fcfs.dfy` | `Fcfs` | fcfs.c |
| `priority.dfy` | `Priority` | PS.c |
| `sjf.dfy` | `Sjf` | sjf.c |
| `roundrobin.dfy` | `RoundRobin` | RR.c |

Large loop bodies are split into methods that keep the source's order of
statements. Examples: `SwapOut` for the eviction loop, `Pass` (FCFS, SJF) and
`Serve` (PS) for one pass of the scheduling loop, `Dispatch` and `IdleTick`
for the two branches of the RR loop, and `RunPasses`/`RunLoop`/`Schedule` for
the loops themselves. Ghost
parameters carry the history the contracts need:

- the initial table `s`;
- the dispatch order `order`;
- the times `picked` at which each choice was made.

Whole-run contracts are stated with these ghost predicates:

- `Progress` (PS, SJF): every choice was the scan's choice among the processes not yet dispatched. Every dispatched process ran its whole burst with the source's timing identities. The clock idled only while nothing was eligible.
- `Dispatched` (FCFS): the rows run so far did so in table order, each after the previous one finished.
- `Paced` (FCFS, PS, SJF): a ghost record `ev` holds one count per dispatch, and each process starts exactly SWAP_TIME·(its count + 1) after the moment it was picked. In FCFS that moment is `PickTime`, the later of the previous completion and the arrival. In PS and SJF it is the clock when the scan chose it. Within a single dispatch the count is exact: `Turn` fixes it as the rows that dispatch swapped out. The whole-run contracts tie the counts to the final table only through their sum, the rows swapped out; they do not say which dispatch swapped out which row, so a single count is not fixed by the whole-run contracts alone.
- `Evicts` (all four): where the eviction scan stops. It stops at 0 when the process fits, since the scan then does not run. Otherwise it stops right after the first evictable row whose memory makes the process fit, or at the end of its range. Before that point the process never fits.
- `Turn` (all four): the exact outcome of one dispatch. The scan stops where `Evicts` says and swaps out exactly the evictable rows before that point. Every other row is untouched. The pool ends with the freed memory less the process's memory. In FCFS and RR it also fixes the clock and the dispatched row.
- `Pending` and `Roomy` (FCFS, PS, SJF): the memory the rows still to run will claim, and a state in which the free memory covers it and nothing has been swapped out. A dispatch from a roomy state swaps nothing out and leaves the state roomy.
- `Passed` (FCFS) and `Running` (PS, SJF): the loop's state after each pass. It bundles the facts above with the memory ledger and the residency of the process dispatched last.
- `Inv` (RR): the loop invariant. It says:
  - every visited row is under way and every unvisited row is untouched;
  - every arrived process has been visited;
  - the live queue `queue[front..rear)` holds each visited, unfinished process exactly once;
  - `rear` plus the appends still owed equals the run's budget of appends;
  - the free memory plus the memory of resident processes is the total;
  - `completed` counts the finished rows.

## Model

| member | source | states |
|---|---|---|
| Fcfs.CompareExchanged | fcfs.c:132-136 | One compare-exchange leaves the same rows (multiset), puts the pair in arrival order with the later arrival on the right, and moves no other row |
| Fcfs.CompareExchange | fcfs.c:132-136 | The in-place exchange through `temp` turns the array into `CompareExchanged` of the old contents |
| Fcfs.ExchangeKeepsArranged | fcfs.c:132-136 | Exchanging neighbours only on a strict `>` keeps rows of equal arrival in their input order (stability) |
| Fcfs.PassStep | fcfs.c:131-137 | Each inner step carries the latest arrival among rows 0..j to row j+1, keeps the arrangement, and leaves the rows after the pass untouched |
| Fcfs.BubblePass | fcfs.c:131-137 | One inner pass leaves the latest arrival of rows 0..last at `last`, rows after `last` untouched, a permutation and a stable arrangement |
| Fcfs.PassExtendsSorted | fcfs.c:130-138 | After the pass that ends at `last`, rows from `last` on are sorted and no earlier row arrives after them |
| Fcfs.SortByArrival | fcfs.c:129-138 | The sort leaves the table sorted by arrival time, a permutation of the input, with equal arrivals in input order |
| Fcfs.SwapOut | fcfs.c:151-178 | Only earlier rows completed by the clock and not yet swapped out are swapped out, each once. Each gets swap_out_time equal to the scan's clock when it is reached: the start plus SWAP_TIME per earlier swap-out (`ScanClock`). Each returns its memory, costs SWAP_TIME and counts as one swap operation. The scan stops where `Evicts` says: right after the first resident row that makes process i fit, or after row i-1 with the pool still short. Before that point process i never fits |
| Fcfs.ScanSwap | fcfs.c:157-172 | Swapping out resident row j at the scan's clock moves the scan's state on by one row. The table is `Swept` one row further, the clock grows by SWAP_TIME, the pool by the row's memory and the swap count by one. Before the new stopping point the process still did not fit |
| Fcfs.MakeRoom | fcfs.c:150-178 | When process i fits, the scan does not run and its stop is 0. Otherwise the table is exactly `Swept` up to where `Evicts` says the scan stops, with each swap_out_time the exact clock of that swap-out. The clock moves by SWAP_TIME per swap-out and the pool grows by exactly the memory those rows held. The rows already run keep their timings, and the ledger balances |
| Fcfs.Executed | fcfs.c:180-199 | A row swapped in and started at `start >= arrival + SWAP_TIME` satisfies every timing identity: response, completion, turnaround, waiting, swap-in time and total_swap_time == SWAP_TIME |
| Fcfs.RunProcess | fcfs.c:180-199 | Swap-in and execution change only row i, into `Executed` at the clock plus SWAP_TIME, and return its completion time |
| Fcfs.Dispatch | fcfs.c:180-199 | Running row i extends the dispatched prefix by one resident row and takes its memory from the pool |
| Fcfs.DispatchedLater | fcfs.c:145-148 | Advancing the clock to an arrival keeps every earlier row's timing |
| Fcfs.SweptKeepsDispatched | fcfs.c:157-164 | Swapping out finished earlier rows keeps their timings, and each is swapped out after its completion |
| Fcfs.RunKeepsDispatched | fcfs.c:181-199 | Running row i no earlier than the clock extends the dispatched prefix, with row i starting SWAP_TIME after the previous completion or later |
| Fcfs.RunNext | fcfs.c:145-202 | One pass waits for the arrival, makes room and runs row i. Its `Turn` is exact: the scan stops where `Evicts` says (at 0 when row i fits), and the rows before that point that were still resident are swapped out at their exact clocks. Only row i changes otherwise: it starts at exactly max(clock, arrival) + SWAP_TIME·(swap-outs + 1) and stays resident. The pool ends with the freed memory less row i's memory. From a roomy state the pass swaps nothing out and the state stays roomy. The pass returns the completion time, and the ledger and swap count move by what it freed and counted |
| Fcfs.PassTurn | fcfs.c:145-199 | The scan's `Swept` and `Evicts` facts and the run of row i make up the pass's `Turn`; a roomy state stays roomy |
| Fcfs.TurnRoomy | fcfs.c:150-185 | In a roomy state row i fits, so the scan does not run: its stop is 0 and nothing is swapped out. The state after the pass is roomy for the rows from i + 1 on |
| Fcfs.Pass | fcfs.c:144-202 | One pass of the loop takes the loop state `Passed` from i rows to i + 1 |
| Fcfs.PassPaced | fcfs.c:145-199 | The swap-outs of a pass, then the swap-in, put row i's start exactly SWAP_TIME·(swaps + 1) after its pick time max(previous completion, arrival), and the per-pass swap counts still add up to the rows swapped out |
| Fcfs.RunPasses | fcfs.c:144-203 | After all passes every row has run once in table order, each starting exactly SWAP_TIME·(its count `ev[k]` + 1) after its pick time (`Paced`), with the per-pass counts summing to the rows swapped out. The returned clock is the last completion and the last row is still resident. When the table's total demand (`Pending`) fits total_memory, no row is swapped out. The ledger balances, and swap operations == n + rows swapped out |
| Fcfs.PacedBounds | fcfs.c:145-199 | For a paced run, every row starts between SWAP_TIME and SWAP_TIME·(rows swapped out + 1) after its pick time; with no swap-outs, exactly SWAP_TIME after it |
| Fcfs.RunInOrder | fcfs.c:144-205 | Every process ran once with the timing identities, paced as in `RunPasses`: each starts exactly SWAP_TIME·(its count `ev[k]` + 1) after max(previous completion, arrival), with the counts summing to the rows swapped out. A swapped-out row was swapped out after completing, and the last row is never swapped out. When the total demand fits total_memory no row is swapped out. Free memory plus resident memory == total_memory, and total_swap_operations == n + rows swapped out |
| Fcfs.CalculateFcfs | fcfs.c:124-206 | The whole of calculate_fcfs: the stable sort's result, then every guarantee of `RunInOrder` for that sorted table. That includes the pacing by per-pass counts tied to the table through their sum, the last row resident, and no swap-outs when the sorted table's total demand fits total_memory |
| Fcfs.LedgerExtend | fcfs.c:180-185 | Running row i adds its memory and its swapped flag to the prefix totals of the ledger |
| Fcfs.PerformanceTotals | fcfs.c:208-222 | The loop's integer totals are the column sums of waiting, turnaround, burst and swap time, and the count of swapped rows. The makespan is the last row's completion time |
| Fcfs.TotalsAfterRun | fcfs.c:181-199 | After a run waiting == response >= SWAP_TIME for every process, ΣTAT == ΣWT + Σburst, and Σtotal_swap_time == SWAP_TIME·n |
| Fcfs.MakespanIsLatest | fcfs.c:211 | After a run the last row's completion time, which the source uses as makespan, is the largest completion time |
| Priority.SelectionUnique | PS.c:82-95 | At most one index is the selection; the preference order is total and antisymmetric |
| Priority.PickIsSelection | PS.c:82-95 | The table-order scan picks the selection: -1 exactly when nothing has arrived uncompleted, otherwise the eligible row with the lowest priority, then shortest burst, then lowest index |
| Priority.PickView | PS.c:82-95 | The choice depends only on the fields the scan reads (arrival, completion flag, priority, burst), so swap-outs do not change it |
| Priority.SelectAsWritten | PS.c:78-95 | The scan as written answers -1 exactly when every eligible row has priority INT_MAX; otherwise it makes the intended choice |
| Priority.IntMaxNeverSelected | PS.c:78-100 | Witness: a single arrived process with priority INT_MAX is the selection, yet the scan as written answers -1, so the loop idles forever |
| Priority.SelectHighestPriority | PS.c:78-95 | The corrected scan returns `Pick`, and that is the selection (-1 iff nothing is eligible) |
| Priority.SwapOut | PS.c:103-117 | Exactly the completed, not-yet-swapped rows the scan passes are swapped out, in index order, each once. Each costs SWAP_TIME and returns its memory. The scan stops exactly when the process fits, or at the end of the table |
| Priority.SwapKeepsProgress | PS.c:107-117 | Swap-outs change nothing the schedule depends on |
| Priority.MakeRoom | PS.c:103-118 | The scan stops where `Evicts` says: at 0 when the chosen process fits, when nothing changes; otherwise right after the first resident row that makes it fit, or at the end of the table. Before that point it never fits. The table is exactly the scan's result up to that point, the clock moves by exactly SWAP_TIME per row swapped out, and the pool grows by exactly the memory they held. The ledger is kept |
| Priority.EvictsUnique | PS.c:103-117 | The scan's stopping point is determined by the table, the free memory and the requirement |
| Priority.SweptCount | PS.c:107-117 | The scan up to row j adds exactly the number of resident completed rows before j to the table's swapped count |
| Priority.Executed | PS.c:120-137 | A row swapped in and started at `start >= arrival + SWAP_TIME` is completed with the timing identities of the source |
| Priority.RunProcess | PS.c:120-137 | Swap-in and execution change only the chosen row, into `Executed` at the clock plus SWAP_TIME, and return its completion time |
| Priority.RunLedger | PS.c:120-140 | Completing a row adds its memory to the resident total and one to the completed count |
| Priority.RunKeepsProgress | PS.c:120-140 | Running the scan's choice extends the schedule by that process, picked at the current time |
| Priority.Dispatch | PS.c:102-140 | One dispatch completes exactly one process, the scan's choice, and leaves it resident. Its `Turn` is exact: the scan stops where `Evicts` says, the rows it swaps out are the resident completed rows before that point, and the pool ends with the freed memory less the process's memory. It completes exactly at clock + SWAP_TIME·(swap-outs + 1) + burst, where the swap-outs `e` are what the dispatch added to the swapped count. The schedule grows by it with that pacing (`Paced`), the ledger balances, and a roomy state stays roomy |
| Priority.PacedExtend | PS.c:102-140 | A dispatch that starts its row SWAP_TIME·(e + 1) after its pick time extends the pacing record by `e`, when no other start time moves |
| Priority.DispatchPaced | PS.c:102-140 | The swap-outs of a dispatch, then its swap-in, start the chosen row exactly SWAP_TIME·(e + 1) after the pick, with `e` the rise in the swapped count, and complete it a burst later |
| Priority.DispatchTurn | PS.c:102-137 | The memory check and the run of the scan's choice give the dispatch's `Turn`. The process stays resident, and a roomy state stays roomy |
| Priority.TurnRoomy | PS.c:102-122 | From a roomy state (the free memory covers every uncompleted process's requirement and nothing is swapped out) the chosen process fits. So the scan stops at 0, nothing is swapped out, and the state stays roomy |
| Priority.IdleKeepsProgress | PS.c:97-100 | With nothing eligible the clock advances by exactly 1 and no row changes |
| Priority.IdleKeepsRunning | PS.c:97-100 | An idle tick keeps the loop state `Running` at the next time unit, which is before the latest arrival |
| Priority.DispatchKeepsRunning | PS.c:102-140 | A dispatch that completes the choice, leaves it resident and balances the ledger extends `Running` by that process, its pick time and its swap-out count |
| Priority.Serve | PS.c:102-140 | The dispatch branch of the loop keeps `Running`, with the schedule grown by the scan's choice, picked at the current time |
| Priority.RunLoop | PS.c:77-141 | The loop ends with every process dispatched and `Running` holding. That covers the run's `Progress` and pacing, the ledger, the residency of the process dispatched last, and a roomy run staying roomy |
| Priority.PacedBounds | PS.c:102-137 | For a paced run whose per-dispatch swap-outs add up to the rows swapped out, every process starts between SWAP_TIME and SWAP_TIME·(rows swapped out + 1) after it was picked; with no swap-outs, exactly SWAP_TIME after |
| Priority.IdleBound | PS.c:77-100 | The clock idles only while some process has still to arrive, which bounds the loop |
| Priority.ProgressStart | PS.c:65-68 | The loop starts with nothing dispatched, completed or resident |
| Priority.CalculatePriority | PS.c:65-142 | The loop ends with completed == n and the run's `Progress`: each process was chosen by the scan, ran once with the timing identities, and the clock idled only while nothing was eligible. Each started exactly SWAP_TIME·(its count `ev[k]` + 1) after it was picked (`Paced`), with the per-dispatch counts summing to the rows swapped out. The process dispatched last is still resident. When the total demand fits total_memory, no process is swapped out. Free memory plus resident memory == total_memory |
| Priority.ScheduleComplete | PS.c:77-140 | At the end every process was dispatched exactly once (the dispatch order is a permutation) and ended with the timing identities |
| Priority.ChoicesAreSelections | PS.c:78-95 | Each dispatched process was the selection among the processes not dispatched before it, at the time it was picked |
| Priority.NoIdleWhileWaiting | PS.c:97-100 | No eligible process existed at any tick the CPU spent idle |
| Priority.RunsInSequence | PS.c:120-134 | Each dispatched process completes at least SWAP_TIME before any later one starts |
| Priority.CompletionsIncrease | PS.c:133-134 | Completion times do not decrease in dispatch order |
| Priority.PerformanceTotals | PS.c:144-161 | The integer totals are the column sums of waiting, turnaround, response, burst and swap time, and the swapped count. The makespan is the largest completion time, or 0, and context_switches == n - 1 |
| Priority.TotalsAfterRun | PS.c:120-136 | After a run waiting == response >= SWAP_TIME, ΣTAT == ΣWT + Σburst, ΣRT == ΣWT, and Σtotal_swap_time == SWAP_TIME·n |
| Sjf.SelectionUnique | sjf.c:78-89 | At most one index is the selection (shortest burst, then earlier arrival, then lower index) |
| Sjf.PickIsSelection | sjf.c:78-89 | The table-order scan picks the selection, and -1 exactly when nothing has arrived uncompleted |
| Sjf.PickView | sjf.c:78-89 | The choice depends only on the fields the scan reads |
| Sjf.SelectShortestJob | sjf.c:74-89 | With bursts below INT_MAX the scan returns `Pick`, which is the selection |
| Sjf.SwapOut | sjf.c:96-112 | Exactly the completed, not-yet-swapped rows the scan passes are swapped out, in index order, each once. Each costs SWAP_TIME and returns its memory. The scan stops exactly when the process fits, or at the end of the table |
| Sjf.SwapKeepsProgress | sjf.c:101-111 | Swap-outs change nothing the schedule depends on |
| Sjf.MakeRoom | sjf.c:97-112 | The scan stops where `Evicts` says: at 0 when the chosen process fits, when nothing changes; otherwise right after the first resident row that makes it fit, or at the end of the table. Before that point it never fits. The table is exactly the scan's result up to that point, the clock moves by exactly SWAP_TIME per row swapped out, and the pool grows by exactly the memory they held. The ledger is kept |
| Sjf.EvictsUnique | sjf.c:97-111 | The scan's stopping point is determined by the table, the free memory and the requirement |
| Sjf.SweptCount | sjf.c:101-111 | The scan up to row j adds exactly the number of resident completed rows before j to the table's swapped count |
| Sjf.Executed | sjf.c:114-131 | A row swapped in and started at `start >= arrival + SWAP_TIME` is completed with the timing identities |
| Sjf.RunProcess | sjf.c:114-131 | Swap-in and execution change only the chosen row, into `Executed` at the clock plus SWAP_TIME |
| Sjf.RunLedger | sjf.c:114-136 | Completing a row adds its memory to the resident total and one to the completed count |
| Sjf.RunKeepsProgress | sjf.c:114-131 | Running the scan's choice extends the schedule by that process |
| Sjf.RecordedExtend | sjf.c:133 | Writing `idx` at `order_count` extends the recorded prefix of `execution_order` by `idx` and leaves the rest alone |
| Sjf.Dispatch | sjf.c:96-133 | One dispatch completes exactly one process, the scan's choice, records it in `execution_order` and leaves it resident. Its `Turn` is exact: the scan stops where `Evicts` says, the rows it swaps out are the resident completed rows before that point, and the pool ends with the freed memory less the process's memory. It completes exactly at clock + SWAP_TIME·(swap-outs + 1) + burst, where the swap-outs `e` are what the dispatch added to the swapped count. The schedule grows by it with that pacing (`Paced`), the ledger balances, and a roomy state stays roomy |
| Sjf.PacedExtend | sjf.c:96-133 | A dispatch that starts its row SWAP_TIME·(e + 1) after its pick time extends the pacing record by `e`, when no other start time moves |
| Sjf.DispatchPaced | sjf.c:96-133 | The swap-outs of a dispatch, then its swap-in, start the chosen row exactly SWAP_TIME·(e + 1) after the pick, with `e` the rise in the swapped count, and complete it a burst later |
| Sjf.DispatchTurn | sjf.c:96-131 | The memory check and the run of the scan's choice give the dispatch's `Turn`. The process stays resident, and a roomy state stays roomy |
| Sjf.TurnRoomy | sjf.c:96-116 | From a roomy state the chosen process fits. So the scan stops at 0, nothing is swapped out, and the state stays roomy |
| Sjf.IdleKeepsProgress | sjf.c:91-94 | With nothing eligible the clock advances by exactly 1 and nothing else changes |
| Sjf.IdleKeepsRunning | sjf.c:91-94 | An idle tick keeps the loop state `Running` at the next time unit, which is before the latest arrival |
| Sjf.DispatchKeepsRunning | sjf.c:96-136 | A dispatch that completes the choice, leaves it resident and balances the ledger extends `Running` by that process, its pick time and its swap-out count |
| Sjf.Serve | sjf.c:96-136 | The dispatch branch keeps `Running` and writes the choice at `order_count`, so the recorded prefix of `execution_order` grows by it |
| Sjf.Pass | sjf.c:74-136 | One pass is either an idle tick or the dispatch of the scan's choice, recorded at the end of the prefix. The idle tick comes before the latest arrival, advances the clock by exactly 1, and changes no row, no memory, no `execution_order` cell, no pick time and no swap-out count. `Running` holds after either |
| Sjf.RunLoop | sjf.c:73-137 | The loop ends with every process dispatched, `Running` holding and `execution_order[0..n)` the dispatch order, with the rest of the array untouched |
| Sjf.PacedBounds | sjf.c:96-131 | For a paced run whose per-dispatch swap-outs add up to the rows swapped out, every process starts between SWAP_TIME and SWAP_TIME·(rows swapped out + 1) after it was picked; with no swap-outs, exactly SWAP_TIME after |
| Sjf.IdleBound | sjf.c:73-94 | The clock idles only while some process has still to arrive |
| Sjf.CalculateSjf | sjf.c:63-138 | The loop ends with completed == n and the run's `Progress`. Each process started exactly SWAP_TIME·(its count `ev[k]` + 1) after it was picked (`Paced`), with the per-dispatch counts summing to the rows swapped out. `execution_order[0..n)` is the dispatch order and the rest of the array is untouched. The process dispatched last is still resident, and no process is swapped out when the total demand fits total_memory. Free memory plus resident memory == total_memory |
| Sjf.ScheduleComplete | sjf.c:73-136 | At the end the dispatch order (which `CalculateSjf` leaves in `execution_order[0..n)`) is a permutation of 0..n-1, and every process ended with the timing identities |
| Sjf.BurstsKept | sjf.c:63-138 | Scheduling changes no burst time |
| Sjf.ChoicesAreSelections | sjf.c:78-89 | Each dispatched process was the shortest-job selection among those not dispatched before it |
| Sjf.NoIdleWhileWaiting | sjf.c:91-94 | No eligible process existed at any tick the CPU spent idle |
| Sjf.RunsInSequence | sjf.c:114-128 | Each dispatched process completes at least SWAP_TIME before any later one starts |
| Sjf.CompletionsIncrease | sjf.c:127-128 | Completion times do not decrease in dispatch order |
| Sjf.PerformanceTotals | sjf.c:140-154 | The integer totals are the column sums of waiting, turnaround, burst and swap time, and the swapped count. The makespan is the largest completion time, or 0 |
| Sjf.TotalsAfterRun | sjf.c:114-131 | After a run waiting == response >= SWAP_TIME, ΣTAT == ΣWT + Σburst, and Σtotal_swap_time == SWAP_TIME·n |
| RoundRobin.AdmitRow | RR.c:140-143 | A row is appended at `rear` and marked visited exactly when it passes the admission test; otherwise nothing changes |
| RoundRobin.AdmitArrivals | RR.c:139-144 | The arrival scan of RR.c:139-144; with `afterSlice == false` it is the scan of RR.c:76-81 and 86-91, which lacks the remaining_time > 0 test. It appends exactly the admitted rows in table order and marks exactly them visited |
| RoundRobin.AdmissionsMembers | RR.c:139-144 | A scan appends exactly the rows that pass its test, each once, in increasing index order |
| RoundRobin.AdmissionsDebts | RR.c:139-144 | The rows a scan admits plus the appends still owed afterwards equal the appends owed before: each admission uses up one owed append, and a visited row owes none for admission |
| RoundRobin.SwapOut | RR.c:103-113 | Only finished (`remaining_time == 0`), not-yet-swapped rows are swapped out, in index order, each once. Each costs SWAP_TIME and returns its memory. The scan stops exactly when the process fits, or at the end of the table |
| RoundRobin.Load | RR.c:98-122 | Swap-in, with eviction when needed, happens only on a first dispatch (`remaining_time == burst_time`) and costs SWAP_TIME. On a first dispatch the scan stops where `Evicts` says: at 0 when the process fits, otherwise right after the first evictable row that makes it fit, or at the end of the table. A process that has run before keeps its memory, and nothing changes |
| RoundRobin.Slice | RR.c:130 | A slice is the minimum of the remaining time and the quantum |
| RoundRobin.RunSlice | RR.c:124-136 | Start and response times are set on the first dispatch only. The process runs one slice, and the clock moves by that slice |
| RoundRobin.ServedUnderway | RR.c:124-136 | A slice lowers remaining_time by exactly the slice and never below 0. The row stays under way, with response >= SWAP_TIME |
| RoundRobin.QuantaSlice | RR.c:130-135 | Each slice uses up exactly one of the slices the remaining time is cut into |
| RoundRobin.Finish | RR.c:146-155 | A process with time left is re-appended at the tail. Otherwise it completes at the current time with the turnaround and waiting identities, and `completed` grows by one |
| RoundRobin.SliceBudget | RR.c:139-147 | The appends made so far, the arrivals, the re-append and the appends still owed add up to the run's budget, so the queue has room for them |
| RoundRobin.SliceMemory | RR.c:98-122 | What eviction frees and what swap-in takes are exactly what rows stop and start holding, so the memory ledger balances |
| RoundRobin.SliceProgress | RR.c:135-155 | Across a dispatch the appends owed and the completed count keep their balance, and the total remaining time strictly drops |
| RoundRobin.DispatchRows | RR.c:124-144 | After a dispatch every visited row is under way, every other row is untouched, and every process arrived by then is visited |
| RoundRobin.DispatchQueue | RR.c:139-147 | The new live queue is the rest of the old one, then the arrivals of the slice (swap time included) in table order, then the preempted process. It again holds each visited, unfinished process exactly once |
| RoundRobin.DispatchKeeps | RR.c:95-155 | One dispatch keeps the loop invariant, strictly lowers the total remaining time, and orders the queue as in `DispatchQueue` |
| RoundRobin.DispatchClock | RR.c:98-136 | The step facts of Load, RunSlice and Finish give the dispatch's exact `Turn`. That covers where the eviction scan stopped (`Evicts` on a first dispatch, 0 otherwise), the clock, the memory, the evicted rows and the served head |
| RoundRobin.Dispatch | RR.c:95-155 | The imperative dispatch of the queue head keeps the invariant, lowers the remaining time and leaves the queue ordered as in `DispatchQueue`. Its `Turn` is exact. On a first dispatch the eviction scan stops where `Evicts` says; otherwise it does not run. The clock moves by SWAP_TIME·(evictions + 1) on a first dispatch, else 0, plus the slice. The pool gains what the evictions freed less the process's memory on a first dispatch. Every other row is the eviction scan's result, and the head is `Served` from its slice's start |
| RoundRobin.IdleBound | RR.c:83-93 | With an empty queue and a process unfinished, the clock is before the latest arrival |
| RoundRobin.IdleKeeps | RR.c:84-93 | An idle tick followed by the arrival scan restores the invariant at the next time unit |
| RoundRobin.IdleTick | RR.c:84-93 | The empty-queue branch ticks the clock by exactly 1, before the latest arrival, and queues exactly the rows admitted at the new time |
| RoundRobin.ScanKeeps | RR.c:76-91 | An arrival scan on an empty queue restores the invariant with the queue holding exactly the admitted rows |
| RoundRobin.InitialTotals | RR.c:65-69 | The fresh table owes the whole budget, holds no memory and has nothing finished |
| RoundRobin.AdmitInitial | RR.c:65-81 | The first scan queues exactly the processes that arrived at time 0, in table order, with the invariant holding, the whole memory free and nothing completed |
| RoundRobin.Schedule | RR.c:83-156 | The loop ends with completed == n and the invariant holding |
| RoundRobin.FinishedAll | RR.c:146-155 | `completed` counts at most n rows, and reaches n exactly when every remaining_time is 0 |
| RoundRobin.RunDone | RR.c:83-156 | When the loop ends every process is done, and the queue has taken exactly the budget of appends |
| RoundRobin.CalculateRr | RR.c:64-157 | Every process ran to completion. It was swapped in once (total_swap_time == SWAP_TIME) and its start and response were fixed at first dispatch with response >= SWAP_TIME. Completion, turnaround and waiting follow the identities, with waiting >= response. The queue took exactly `Budget` = Σ⌈burst/q⌉ appends, and free memory plus resident memory == total_memory |
| RoundRobin.QuantaCeil | RR.c:130-136 | The number of slices of a burst is ⌈burst/q⌉ |
| RoundRobin.BudgetCount | RR.c:146-147 | The appends number n plus one per preemption: at least n, and exactly n iff no burst exceeds the quantum |
| RoundRobin.PerformanceTotals | RR.c:159-173 | The integer totals are the column sums of waiting, turnaround, burst and swap time, and the swapped count. The makespan is the largest completion time, or 0 |
| RoundRobin.TotalsAfterRun | RR.c:116-152 | After a run waiting >= response >= SWAP_TIME, ΣTAT == ΣWT + Σburst, ΣRT <= ΣWT, and Σtotal_swap_time == SWAP_TIME·n |

## Left out

- The `printf` event log and the display functions `print_gantt_chart` and `print_process_table`. They only write to the console.
- `get_time` and the measured execution time. They read the wall clock; the elapsed time is not an input to any modelled computation.
- The averages, throughput and CPU utilisation in `print_performance_metrics`. They are `double` quotients; the model computes the integer totals they are divided from.
- `initialize_processes` and `main`. The table is an input of the model. Process names and type strings are display-only and are not in the records.
- The `SLEEP_MS` and `CLEAR_SCREEN` macros, which are unused.
- 32-bit `int` overflow. The clock, the memory counter and the sums are unbounded integers, and the model does not capture wrap-around of very large inputs.
- Fcfs.CalculateFcfs: requires non-negative bursts and no row marked swapped at the start, as `initialize_processes` sets them up. A negative burst could give a completion time <= 0, which the eviction test of fcfs.c:158 would then skip.
- Fcfs.CalculateFcfs: the exact outcome of each pass (`Turn`, with the eviction scan's stopping rule) is stated per pass by `Fcfs.RunNext` and is not accumulated over the run. The whole run keeps the per-pass swap-out counts `ev` tied to the final table through their sum, the residency of the last row, and no swap-outs when the total demand fits. Which pass swapped out which row is not stated.
- Fcfs.CalculateFcfs: the no-swap-out guarantee is stated for the demand of the sorted table. That equals the input's demand, since the sort is a permutation, but the model does not prove that equality.
- Priority.CalculatePriority: as for FCFS, each dispatch's `Turn` is stated per dispatch by `Priority.Dispatch`. The run keeps `ev` through its sum, the last process's residency and no swap-outs when the demand fits.
- Sjf.CalculateSjf: as for FCFS, each dispatch's `Turn` is stated per dispatch by `Sjf.Dispatch`. The run keeps `ev` through its sum, the last process's residency and no swap-outs when the demand fits.
- RoundRobin.CalculateRr: the exact clock of each dispatch (`Turn`) is stated per dispatch only. The run as a whole keeps the lower bounds of the invariant (response >= SWAP_TIME, waiting >= response); it does not accumulate `Turn` into a whole-run timeline.
- Fcfs.Pass: `Passed` keeps the per-pass swap-out counts `ev` tied to the table only through their sum, so after the pass the count of an earlier pass is not fixed by the table. The pass's own `Turn` is stated by `Fcfs.RunNext`.
- Fcfs.RunPasses: as for `Fcfs.Pass`, `ev` is tied to the final table only through its sum. Which pass swapped out which row is not stated, so two runs on the same table with counts moved between passes both meet the contract.
- Fcfs.RunInOrder: inherits the gap of `Fcfs.RunPasses`; a start time is exact only relative to its own count in `ev`.
- Priority.Serve: keeps `Running`, which ties `ev` to the table only through its sum; the dispatch's exact `Turn` is stated by `Priority.Dispatch`.
- Priority.RunLoop: as for `Priority.Serve`, the run's counts in `ev` are tied to the final table only through their sum.
- Sjf.Serve: keeps `Running`, which ties `ev` to the table only through its sum; the dispatch's exact `Turn` is stated by `Sjf.Dispatch`.
- Sjf.Pass: as for `Sjf.Serve` in its dispatch branch.
- Sjf.RunLoop: as for `Sjf.Serve`, the run's counts in `ev` are tied to the final table only through their sum.
- RoundRobin.Schedule: the loop invariant keeps lower bounds on the timings (response >= SWAP_TIME, waiting >= response) and the ledger; each dispatch's exact clock is stated by `RoundRobin.Dispatch` only.
- Fcfs.SwapOut: requires every row before `i` to have completed by the current time. The dispatch loop always guarantees this. The scan still makes the source's `completion_time > 0 && completion_time <= current_time` test.
- Fcfs.PerformanceTotals: requires a non-empty table, because the makespan reads `proc[n-1]`.
- Priority.CalculatePriority: runs the corrected selection scan (see Findings). It requires the rows to start uncompleted and not swapped, as the initialiser sets them.
- Sjf.SelectShortestJob: requires every burst below INT_MAX. The tie test at sjf.c:85 reads `proc[idx]` with `idx == -1` when a burst equals INT_MAX, which is undefined in C.
- Sjf.CalculateSjf: has the same INT_MAX requirement. It also requires `execution_order` to be a separate array with at least n slots and the rows to start uncompleted and not swapped.
- RoundRobin.CalculateRr: requires a positive quantum and at most MAX_PROCESSES processes (the size of `visited`). It requires every row fresh: positive burst, all of it remaining, not swapped, never dispatched. Rows with a zero burst are not modelled: before they run, the eviction test `remaining_time == 0 && !is_swapped` of RR.c:104 would take them as finished and return memory they never held.
- RoundRobin.CalculateRr: requires `Budget(proc, q) <= 100`. `queue[100]` has no bounds check, and a run makes exactly `Budget` appends, so this is the condition under which the C code stays inside the array.

## Findings

| source | as written | input that shows it | evidently intended | confidence | as-written member | corrected member |
|---|---|---|---|---|---|---|
| PS.c:78-95 | `highest_priority` starts at INT_MAX and a row becomes the candidate only with a strictly smaller priority, so an eligible row whose priority is INT_MAX is never chosen while no candidate exists | one process, arrival 0, priority INT_MAX: the scan answers -1, and `calculate_priority` ticks the clock forever | the first eligible row becomes the candidate whatever its priority; the scan answers -1 only when nothing is eligible | not executed | Priority.IntMaxNeverSelected | Priority.SelectHighestPriority |
