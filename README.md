# Round-Robin scheduler and page-replacement simulator, in Dafny

This project models the two state machines of the teaching kernel simulator in
`main.cpp`:

* `PlanificadorRR`, the Round-Robin process scheduler. It keeps an id-keyed table of
  `Proceso` records, a FIFO queue of ready processes, a global clock, a fixed
  quantum and the next id to hand out. `ejecutar(pasos)` performs `pasos`
  scheduling steps. A step is one iteration of its loop, not one tick. It idles one
  unit when the queue is empty. Otherwise it pops the head, drops it if it is
  already finished, or runs it for `min(quantum, remaining)` units and then either
  finishes it or queues it again at the tail. `terminar` force-finishes a process,
  `estatisticas` sums turnaround and wait over the finished processes, and
  `obtener_proceso` looks a record up.
* `MemoriaVirtual`, the page-replacement simulator. It has a frame capacity, an
  access tick and a fault counter. Under FIFO the resident `(pid, page)` pairs sit
  in a deque. A hit leaves the deque alone. A miss drops the front page when the
  deque is full and appends the new page. Under LRU a map holds each resident pair
  with the tick of its last access. A hit refreshes the entry's timestamp. A miss
  evicts the entry with the smallest timestamp when the map is full. Switching
  policy (`memmode`) builds a fresh object with three frames.

Each component has two layers:

* a state machine on values, with its invariant and the lemmas about it:
  modules `RoundRobin`/`RoundRobinProps` and `Paging`/`PagingProps`;
* the source's class, whose methods update fields in place: modules `Scheduler`
  and `VirtualMemory`. The state-changing public methods (`CrearProceso`,
  `Ejecutar`, `Terminar`, `AccessPage`) are proved to perform exactly the
  value-level transition and to keep the invariant. The helpers `Paso`,
  `AccessLru` and `AccessFifo` are proved to perform the transition only; their
  callers establish the invariant through the lemmas.

The queue and the table share records through `shared_ptr` in the source. Here the
queue holds ids that index the table. The string tags `"LISTO"`, `"EJECUTANDO"` and
`"TERMINADO"` become the enumeration `Estado`.

The code has no Shortest-Job-First or working-set policy, no arrival offsets, no
per-tick preemption and no release of frames. A step runs a whole slice of the
quantum, so two 4-unit jobs with quantum 2 finish at ticks 6 and 8 after four
steps (`TwoEqualJobs`).

Files: `common.dfy`, `process_record.dfy`, `round_robin.dfy`,
`round_robin_props.dfy`, `scheduler.dfy`, `paging.dfy`, `paging_props.dfy`,
`virtual_memory.dfy`.

## Model

| member | source | states |
|---|---|---|
| `Common.Min` | main.cpp:77 | `std::min`: the result is at most both arguments and equals one of them |
| `RoundRobin.Create` | main.cpp:51-59 | the returned id is the next id; the counter moves on by one; the table gains exactly that key; the clock does not move |
| `RoundRobin.Step` | main.cpp:63-89 | one loop iteration of `ejecutar` keeps queued ids inside the table, keeps the key set and the id counter, changes no record except the queue head's, never touches a finished record, never overwrites a set start time, never changes id, demand or arrival |
| `RoundRobin.Steps` | main.cpp:62-90 | `ejecutar(n)` as n steps: queued ids stay inside the table, the key set and the id counter stay the same |
| `RoundRobin.Kill` | main.cpp:127-135 | `terminar` leaves the queue, the clock, the id counter and the key set as they were, and changes no other record |
| `RoundRobin.Lookup` | main.cpp:138-140 | on a consistent scheduler `obtener_proceso` finds a record exactly when the id is one already handed out (1 .. next-1), and the record found carries that id |
| `RoundRobin.Initial` | main.cpp:49 | the freshly built scheduler satisfies the invariant and holds no process and no queued id |
| `RoundRobin.Tally` | main.cpp:107-118 | the loop over ids 1 .. n-1 counts at most one finished process per visited id; its sums are fixed by `TallyEmpty` (zero when nothing has finished) together with `TallyUpdate` (each record adds exactly its own share) |
| `RoundRobinProps.TallyCountsFinished` | main.cpp:107-118 | the count equals the number of ids among 1 .. n-1 whose record has a finish time: every finished record is counted, nothing else |
| `RoundRobinProps.TallyIgnoresLater` | main.cpp:107-118 | the sums over ids 1 .. n-1 do not depend on a record with a larger id |
| `RoundRobinProps.TallyUpdate` | main.cpp:107-118 | replacing one record among ids 1 .. n-1 changes the wait sum, the turnaround sum and the count by exactly the new record's share minus the old one's, so each finished record contributes its wait and turnaround once |
| `RoundRobin.Stats` | main.cpp:103-125 | when `estatisticas` reports, at least one and fewer than next-id processes have finished (the none-iff is `StatsNoneIffNoneFinished`, the exact count `StatsCountsFinished`, the sums after `terminar` `StatsAfterKill`) |
| `RoundRobinProps.StatsAfterKill` | main.cpp:128-130 | `terminar` on a process without a finish time makes `estatisticas` report the old count plus one, the turnaround sum plus clock minus arrival, and the wait sum plus that minus its demand |
| `RoundRobinProps.StatsCountsFinished` | main.cpp:103-122 | on a consistent scheduler `estatisticas` reports exactly when the set of finished processes is non-empty, and then counts every one of them |
| `ProcessRecord.NuevoProceso` | main.cpp:24-31 | a new record carries its id, is ready, still owes its whole time, and with positive demand and non-negative arrival satisfies the record invariant at its arrival |
| `RoundRobinProps.CreateFreshRecord` | main.cpp:24-31 | the new id was not in use; its record is ready, unstarted, unfinished, still needs its whole time, arrived at the current clock and is last in the queue; older records are unchanged; the invariant (ids exactly 1 .. next-1) holds |
| `RoundRobinProps.StepPreservesValid` | main.cpp:63-89 | with a positive quantum one step keeps the invariant: 0 <= remaining <= required, remaining 0 only when finished, finished exactly when a finish time is set, start set exactly when some service was given, service fits between start and now, no duplicate and no dangling queue entry, every ready process queued |
| `RoundRobinProps.StepsPreserveValid` | main.cpp:62-90 | any number of steps keeps the invariant |
| `RoundRobinProps.StepIdle` | main.cpp:64-67 | on an empty queue a step advances the clock by exactly 1 and changes nothing else |
| `RoundRobinProps.StepDropsFinished` | main.cpp:68-71 | a finished process at the head is dropped from the queue without moving the clock or any record |
| `RoundRobinProps.StepDispatch` | main.cpp:73-88 | a dispatch advances the clock and lowers the remaining time by the same min(quantum, remaining) > 0; the start is set to the old clock only if unset; afterwards the process is finished at the new clock and gone from the queue, or ready with time left and at the tail |
| `RoundRobinProps.StepClock` | main.cpp:77-78 | a step moves the clock forward by at least 0 and at most one quantum |
| `RoundRobinProps.StepsClockBound` | main.cpp:62-90 | `ejecutar(n)` moves the clock forward by at most n quanta |
| `RoundRobinProps.StepForward` | main.cpp:77-79 | when no record owes negative time, a step keeps it so and does not move the clock back |
| `RoundRobinProps.StepsClockMonotone` | main.cpp:62-90 | when no record owes negative time (as the invariant guarantees), `ejecutar(n)` never moves the clock back |
| `RoundRobinProps.StartSetOnce` | main.cpp:74-75 | once a start time is set, no number of later steps changes it |
| `RoundRobinProps.FinishedStaysFinished` | main.cpp:70-71 | a finished record stays exactly as it is through any number of steps |
| `RoundRobinProps.ReadyQueuedOnce` | main.cpp:86-87 | every ready process occurs in the ready queue exactly once |
| `RoundRobinProps.KillUnknown` | main.cpp:132-134 | `terminar` on an unknown id leaves table, queue and clock unchanged |
| `RoundRobinProps.KillKnown` | main.cpp:128-130 | `terminar` on a known id replaces its record by the same record marked finished at the current clock, every other field kept, and keeps the invariant |
| `RoundRobinProps.KillPreservesValid` | main.cpp:127-135 | `terminar` keeps the invariant for any id |
| `RoundRobinProps.KillTwice` | main.cpp:127-135 | terminating the same id twice in a row equals terminating it once |
| `RoundRobinProps.FinishedTurnaround` | main.cpp:112-113 | a finished process's turnaround covers the service it received, so its wait is at least minus its unserved time |
| `RoundRobinProps.TallyEmpty` | main.cpp:107-118 | the count of finished processes is 0 exactly when no record among the visited ids has a finish time, and then the wait and turnaround sums are 0 too: unfinished records contribute nothing |
| `RoundRobinProps.StatsNoneIffNoneFinished` | main.cpp:119-122 | `estatisticas` reports nothing exactly when no process in the table has finished |
| `RoundRobinProps.TallyWaitBelowTurnaround` | main.cpp:112-117 | since each process needs at least one unit, total wait + number finished <= total turnaround |
| `RoundRobinProps.TallyWaitNonNegative` | main.cpp:112-117 | when every finished process ran to the end (none killed early), the total wait is not negative |
| `RoundRobinProps.TwoEqualJobs` | main.cpp:62-90 | quantum 2, two 4-unit jobs, four steps: finish at 6 and 8, clock 8, empty queue, wait sum 6 and turnaround sum 14 over 2 |
| `Scheduler.PlanificadorRR.constructor` | main.cpp:49 | quantum as given, empty table and queue, clock 0, next id 1, invariant holds |
| `Scheduler.PlanificadorRR.CrearProceso` | main.cpp:51-59 | the fields become `Create` of the old state, the result is its id, the invariant is kept |
| `Scheduler.PlanificadorRR.Ejecutar` | main.cpp:62-90 | the fields become `Steps` of the old state, with max(pasos, 0) steps; the invariant is kept |
| `Scheduler.PlanificadorRR.Paso` | main.cpp:63-89 | one loop iteration updates the fields exactly as `Step` |
| `Scheduler.PlanificadorRR.Estadisticas` | main.cpp:103-125 | the loop's sums and count equal `Stats`; the result is empty exactly when no process has finished |
| `Scheduler.PlanificadorRR.Terminar` | main.cpp:127-135 | the fields become `Kill` of the old state, the invariant is kept |
| `Scheduler.PlanificadorRR.ObtenerProceso` | main.cpp:138-140 | found exactly for ids 1 .. next-1, and the record found carries that id |
| `Paging.Victim` | main.cpp:170-172 | the chosen page is resident and has the smallest timestamp |
| `Paging.Access` | main.cpp:157-191 | `access_page` keeps capacity and policy, advances the tick by exactly 1, and adds at most one fault |
| `Paging.Fresh` | main.cpp:154-155 | a new simulator, as built by the constructor and by `memmode`, has no resident page and zero counters, and with at least one frame satisfies the invariant |
| `PagingProps.VictimStrictlyOldest` | main.cpp:170-174 | the evicted page is strictly older than every other resident page |
| `PagingProps.VictimUnique` | main.cpp:171-172 | with distinct timestamps any page of minimal timestamp is the victim, so search order does not matter |
| `PagingProps.LruHit` | main.cpp:162-165 | an LRU hit sets that page's timestamp to the current tick and changes neither the resident set nor the faults |
| `PagingProps.LruMiss` | main.cpp:167-176 | an LRU miss adds one fault; when full it evicts only the page with the smallest timestamp; the new page gets the current tick; the other timestamps stay |
| `PagingProps.FifoHit` | main.cpp:179-183 | a FIFO hit changes nothing but the tick, with no reordering |
| `PagingProps.FifoMiss` | main.cpp:184-190 | a FIFO miss adds one fault, pops the front when full and pushes the page at the back |
| `PagingProps.LruPreservesValid` | main.cpp:160-176 | the LRU branch keeps resident count <= capacity, timestamps within 1 .. tick and distinct, and resident <= faults <= tick |
| `PagingProps.FifoPreservesValid` | main.cpp:178-191 | the FIFO branch keeps the deque free of duplicates, its length <= capacity, and resident <= faults <= tick |
| `PagingProps.AccessPreservesValid` | main.cpp:157-191 | every access keeps the invariant, whichever the policy |
| `PagingProps.AccessAll` | main.cpp:310-314 | a run of `mem` commands, in order, keeps the invariant |
| `PagingProps.AccessAllCounts` | main.cpp:158 | over any run of accesses the tick counts them, and the faults grow by at most that many |
| `PagingProps.FifoFourPages` | main.cpp:178-191 | FIFO with three frames, pages 1, 2, 3, 4: four faults, page 1 evicted |
| `PagingProps.LruFourAccesses` | main.cpp:160-176 | LRU with three frames, pages 1, 2, 3, 1: three faults, and the refreshed page 1 carries the newest timestamp |
| `PagingProps.LruRefreshSavesPage` | main.cpp:160-176 | LRU with three frames, pages 1, 2, 3, 1, 4: four faults, page 2 evicted and page 1 kept |
| `VirtualMemory.MemoriaVirtual.constructor` | main.cpp:154-155 | the fields equal `Fresh(frames, lru)`, with the defaults three frames and FIFO, and the invariant holds (also what `memmode` does with three frames) |
| `VirtualMemory.MemoriaVirtual.InFifo` | main.cpp:179-183 | the scan reports a hit exactly when the page is in the deque |
| `VirtualMemory.MemoriaVirtual.LeastRecentlyUsed` | main.cpp:171-172 | the search returns the resident page with the smallest timestamp, which is `Victim` |
| `VirtualMemory.MemoriaVirtual.AccessPage` | main.cpp:157-193 | the fields become `Access` of the old state; the invariant is kept |
| `VirtualMemory.MemoriaVirtual.AccessLru` | main.cpp:160-176 | the LRU branch updates the fields exactly as `Access` |
| `VirtualMemory.MemoriaVirtual.AccessFifo` | main.cpp:178-191 | the FIFO branch updates the fields exactly as `Access` |

## Left out

- `ProductorConsumidor` (main.cpp:235-263) and the detached threads that drive it: its point is mutex and condition-variable concurrency, which this sequential model does not express.
- The command loop of `main` (line reading, `stringstream` parsing, dispatch): input handling, not state-machine logic. Its fixed choices are kept as inputs (quantum 2, three frames, `memmode` rebuilding the object).
- All console output, including `listar_procesos`, `show_status` and `show_visual`: formatting only.
- Floating point: the fault rate `faults / tick` and the averages of `estatisticas`. The model returns the integer sums and the count they are divided from. With no finished process it returns nothing, which is where the source prints a message.
- Integer width: every counter (clock, remaining time, ids, tick, faults, sums) is an unbounded `int`, so 32-bit overflow after about two thousand million units is not modelled.
- Scheduler.PlanificadorRR.CrearProceso: requires `tiempoRequerido > 0`. The source does not check it. A negative value would move the clock backwards, and 0 (which a failed parse of `new` yields) would give a record that finishes at its first dispatch without receiving service. Either breaks the invariant stated here.
- Scheduler.PlanificadorRR.constructor: requires a positive quantum. `main` uses 2. A quantum of 0 would dispatch processes forever without progress.
- VirtualMemory.MemoriaVirtual.constructor: requires at least one frame. With none, the source pops or erases from an empty container.
- Scheduler.PlanificadorRR.Paso: the transient `"EJECUTANDO"` tag is set and overwritten within one loop iteration. No state observable between calls carries it, and the invariant says so.
- Scheduler.PlanificadorRR.Estadisticas: visits ids 1 .. next-1 in ascending order. Under the invariant these are exactly the table's keys in `std::map` order.
- VirtualMemory.MemoriaVirtual.LeastRecentlyUsed: visits the keys in any order, while `min_element` takes the first minimum in key order. Timestamps are distinct (`VictimUnique`), so both pick the same page.
- `terminar` on a process that has already finished stamps its finish time again with the current clock. That is modelled as the source does it (`Kill`).
- Ownership and aliasing of `shared_ptr<Proceso>`: replaced by ids that index the table. A record is changed by writing the table entry, which has the same effect as writing through the shared pointer.
