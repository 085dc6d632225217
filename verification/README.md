# Models of the BitsAndBytes simulators

Dafny models of the repository's state machines, schedulers, memory systems and matrix kernels, one
module per source file, with proofs about every run and every input. `dafny verify dfyconfig.toml`
checks the whole project.

Code that updates fields or arrays in place is a class or a method over arrays. Its contract ties the
new state to a specification function, and the theorems are about that function. Threads that share
memory are a step system: program counters, sleeping and woken threads, any interleaving, and the
spurious wakeups that POSIX.1-2017 permits for `pthread_cond_wait`. Constants such as pool sizes,
line counts and batch sizes are parameters wherever the code allows other values.

| module | models | main results |
|---|---|---|
| `Cpu` | os/cpu/cpu.c | After any number of cycles the registers are those of a machine in which an instruction reads what its third predecessor left. It is the plain machine if and only if no stale read changes a sum, in particular if no instruction reads a result of its two predecessors. Both machines are stated on the bytes in memory. |
| `WritePreferringLock` | concurrency/threads/writeStarvation.c | Exclusion, no reader enters past a waiting writer, no wakeup is lost. |
| `FutexMutex` | concurrency/synchronization/preemmtibleCriticalSections.c | Exclusion and exact ownership at the level of single loads, stores and futex calls, no deadlock, exact final counter. |
| `TwoMutexLock` | concurrency/threads/rwlock-buffer/rwlock_buffer.c | Exclusion, stable data while reading, no deadlock. |
| `BoundedBuffer` | concurrency/threads/rwlock-buffer/rwlock_buffer.c | Consumption is a prefix of production, no needed signal is missed. |
| `BatchScheduler` | concurrency/scheduling/Parallelism-AwareBatchScheduling.c | Draining is, batch by batch, a stable sort by the number of requests of each bank, row hit and timestamp. Nothing is lost, and nothing moves by a batch or more. |
| `AdaptiveScheduler` | concurrency/scheduling/AdaptiveThread-AwareScheduling.c | Deletion from the middle of the ring refines removal from a sequence. Every thread is served in order. |
| `RingQueue`, `Ring` | both memory schedulers | The ring refines a sequence. |
| `Allocator` | memory/memory_management/mem_alloc.c | The blocks tile the pool, payloads are disjoint and no larger than a split allows, and freeing everything in any order restores the initial block. |
| `Mmu` | memory/virtual_mem/pageFlush.c | The TLB cannot be noticed, flushing one entry removes it, and with balanced pins pages, and up to 255 processes, never share a frame. |
| `BufferPool` | os/filesystem/CustomBufferManagementSystem.c | When linear probing survives evictions, exactly, and up to where every fetch returns the frame of its page. Pins are fetches less unpins, and who holds a pin keeps the page; a dirty page is written before it goes. The closed form of the clock. |
| `TwoLevelCache` | memory/cache/Two-Level-Cache-System.c | Every line holds the latest block with its index; coherence and inclusion follow. |
| `Matrix` | utils/matrixMul | Tiled and four-lane multiplication equal the plain loops bit for bit, over the same step (product and sum, or fused), for any interleaving of the tiles, of which the loops produce one. |
| `MultiLevelQueue` | os/process/scheduler/multi_level_queuing.c | A run is three first-come-first-served passes. Exactly when it ends. |
| `PriorityScheduler` | os/process/scheduler/priority_scheduling.c | Exactly when aging changes nothing, and exactly when the loop ends. |
| `RoundRobin` | os/process/scheduler/round_robin.c | Exactly when it ends, when it idles, that each completion time is the end of the one turn in which the process finished, and a bound on the wait between turns and on the whole wait. |
| `Counting`, `Common` | | Counts, sums and sequences, used by the others. |

Where the code does less than its purpose suggests, the model follows the code, and a lemma gives the
exact condition:

- The pipeline has no forwarding, so a near read of a result is stale (`Cpu.DelayedIsSequentialIff`, `Cpu.HazardChangesTheResult`).
- `remove_from_page_table` leaves a hole that can hide other pages (`BufferPool.StepKeepsIff`, `BufferPool.IntactIffFound`, `BufferPool.HoleLosesAPage`).
- A hidden page can be loaded into a second frame, and an eviction can then remove the entry of the wrong one, after which `fetch_page` returns the frame of a different page (`BufferPool.MissKeepsOwnIff`, `BufferPool.OwnSoFarIff`, `BufferPool.WrongFrameReturned`).
- `find_victim_page` ends if and only if some frame is unpinned (`BufferPool.FindVictimPage`, `BufferPool.ClockSteps`).
- Unpinning a frame for the last time while a page maps to it lets another page take it (`Mmu.UnpinSafeIff`, `Mmu.LastUnpinAliases`).
- Address-space identifiers repeat after 255 processes, and processes with the same one share their pages (`Mmu.AsidsDistinctIff`, `Mmu.FrameSharedIff`, `Mmu.IdentifiersRunOut`).
- The rounding of an allocation wraps near the largest `size_t` (`Allocator.AllocationHoldsRequest`, `Allocator.HugeRequestGetsTooLittle`).
- The bound check of a memory access wraps in the last 8 bytes of the address space (`TwoLevelCache.BoundCheckIff`).
- The four-lane kernel leaves the last `N % 4` columns at zero (`Matrix.MultiplyOptimized`).
- Unequal starting ages can change the order of service (`PriorityScheduler.AgingScheduleIsPlainIff`, `PriorityScheduler.UnequalAgesMatter`).
- Round robin, the priority scheduler and the feedback queue end exactly if every process starts with time remaining, which is not so in the round-robin program's own table (`RoundRobin.RunRounds`, `PriorityScheduler.RunTicks`, `MultiLevelQueue.Mlfq.RunSlices`).
- `l1_misses` never changes (`TwoLevelCache.CacheSystem.MemoryAccess`).

Hypotheses, stated as preconditions where they are needed: register operands of an ADD are below 16;
bursts and remaining times are positive; banks are below the number of banks; page ids are not
negative; page tables exist; the first cache's line count divides the second's; the tile size of the
four-lane kernel is a multiple of four; a pointer that is freed is that of a block; some frame is
unpinned when the clock has to find a victim.

## Model

| member | source | states |
|---|---|---|
| Cpu.Pack | os/cpu/cpu.c:79-104 | The four bytes that fetch packs into an instruction word are recovered by the shifts and masks of the other stages. |
| Cpu.RetireAdvances | os/cpu/cpu.c:129-137 | Writing back the last stage turns the delayed-read registers of cycle k into those of cycle k + 1, pipeline fill included. |
| Cpu.ExecuteAdvances | os/cpu/cpu.c:107-126 | Executing after the writeback of the same cycle computes the sum that the delayed-read machine prescribes. |
| Cpu.CycleAdvances | os/cpu/cpu.c:139-153 | A whole cycle keeps every stage in correspondence with the instruction stream. |
| Cpu.DelayedIsSequentialIff | os/cpu/cpu.c:79-153 | The delayed-read machine agrees with the sequential one up to n if and only if no operand read before n is stale in a way that changes the sum. |
| Cpu.HarmlessReadsAgree | os/cpu/cpu.c:107-137 | If no stale read matters, both machines agree at every point. |
| Cpu.AgreementIsHarmless | os/cpu/cpu.c:107-137 | If the machines agree, no stale read matters. |
| Cpu.UntouchedRegister | os/cpu/cpu.c:107-137 | A register that neither of the last two instructions writes has the same value in the older state. |
| Cpu.HazardFreeIsSequential | os/cpu/cpu.c:79-153 | With no read of a result of the two preceding instructions, the pipeline's registers are those of sequential execution. |
| Cpu.ExecutableBytes | os/cpu/cpu.c:79-126 | An image can be executed exactly if every fourth byte that is zero is followed by three register numbers. |
| Cpu.SequentialFromBytes | os/cpu/cpu.c:79-137 | From the bytes alone: opcode zero puts the sum modulo 2^32 of the registers named by the third and fourth byte into the one named by the second, any other opcode changes nothing. |
| Cpu.DelayedFromBytes | os/cpu/cpu.c:79-153 | The same for the pipeline, with the operands as they were two instructions ago. |
| Cpu.ExampleProgram | os/cpu/cpu.c:166-185 | The program's own image 00 01 02 03 with R2 = 5 and R3 = 3 leaves 8 in R1 and nothing else changed. |
| Cpu.HazardChangesTheResult | os/cpu/cpu.c:107-137 | The bytes of two dependent ADDs in a row: 16 sequentially and 0 in the pipeline. |
| Cpu.HazardReachesTwoInstructions | os/cpu/cpu.c:107-153 | With one instruction in between the result is still lost, with two it is not. |
| Cpu.CPU.constructor | os/cpu/cpu.c:51-69 | A new processor is at cycle 0 of its program with an empty pipeline. |
| Cpu.CPU.FetchStage | os/cpu/cpu.c:79-104 | Stage 0 receives the word at the program counter, which advances; past the end of memory nothing changes. |
| Cpu.CPU.ExecuteStage | os/cpu/cpu.c:107-126 | Only the result of a valid stage 2 changes: the 32-bit sum for an ADD, else 0. |
| Cpu.CPU.WritebackStage | os/cpu/cpu.c:129-137 | Only the destination register of a valid ADD in stage 4 changes. |
| Cpu.CPU.Shift | os/cpu/cpu.c:139-153 | Every stage moves on by one and stage 0 is duplicated, not overwritten on the way. |
| Cpu.CPU.PipelineCycle | os/cpu/cpu.c:139-153 | The four phases in their order are one step of the cycle function. |
| Cpu.CPU.Run | os/cpu/cpu.c:187-191 | After k cycles the registers are the delayed-read result of the first k - 5 instructions, and the sequential result if there is no hazard. |
| WritePreferringLock.InitHolds | concurrency/threads/writeStarvation.c:17-25 | A fresh lock satisfies the invariant for any number of threads. |
| WritePreferringLock.SignalCounts | concurrency/threads/writeStarvation.c:38-45 | A signal wakes exactly one sleeping writer if there is one. |
| WritePreferringLock.BroadcastCounts | concurrency/threads/writeStarvation.c:58-67 | A broadcast wakes all sleeping readers and nobody else. |
| WritePreferringLock.ReadUnlockKeeps | concurrency/threads/writeStarvation.c:38-45 | The last reader's release leaves no sleeping writer without a woken one. |
| WritePreferringLock.WriteUnlockKeeps | concurrency/threads/writeStarvation.c:58-67 | A writer's release wakes a writer, or else every reader, so no sleeper is stranded. |
| WritePreferringLock.StepKeeps | concurrency/threads/writeStarvation.c:27-67 | Every step of every thread, spurious wakeups included, keeps counters exact, writers alone, and no wakeup lost. |
| WritePreferringLock.RunKeeps | concurrency/threads/writeStarvation.c:17-67 | The invariant holds in every state of every interleaving. |
| WritePreferringLock.MutualExclusion | concurrency/threads/writeStarvation.c:27-67 | While a writer is inside, no other thread reads or writes. |
| WritePreferringLock.EntryConditions | concurrency/threads/writeStarvation.c:27-56 | A reader enters only with no writer inside or waiting, a writer only on a free lock. |
| WritePreferringLock.WaitingWriterIsNotOvertaken | concurrency/threads/writeStarvation.c:27-36 | Over any stretch in which a writer waits, every thread found reading has been reading since before. |
| WritePreferringLock.FreeLockHasATaker | concurrency/threads/writeStarvation.c:27-67 | Whenever the lock is free and somebody waits, some woken waiter of the preferred kind can take it in one step. |
| FutexMutex.InitHolds | concurrency/synchronization/preemmtibleCriticalSections.c:22-25 | The unlocked mutex satisfies the invariant. |
| FutexMutex.OthersStay | concurrency/synchronization/preemmtibleCriticalSections.c:39-43 | A step moves only its own thread and at most wakes sleepers. |
| FutexMutex.OwnHold | concurrency/synchronization/preemmtibleCriticalSections.c:27-43 | The lock word changes exactly when a thread gains or gives up the lock. |
| FutexMutex.LockWordKept | concurrency/synchronization/preemmtibleCriticalSections.c:27-43 | The lock word is 1 exactly while one thread holds the lock. |
| FutexMutex.NoLostWakeupKept | concurrency/synchronization/preemmtibleCriticalSections.c:27-43 | If the lock is free and a thread sleeps, some thread is about to wake one or is awake in the lock loop. |
| FutexMutex.OwnerKept | concurrency/synchronization/preemmtibleCriticalSections.c:27-43 | The recorded owner is the holder, from its store to the store of -1. |
| FutexMutex.CounterKept | concurrency/synchronization/preemmtibleCriticalSections.c:50-66 | The separate load and store of the shared counter lose no increment. |
| FutexMutex.StepKeeps | concurrency/synchronization/preemmtibleCriticalSections.c:27-79 | Every atomic action of every thread keeps the whole invariant. |
| FutexMutex.RunKeeps | concurrency/synchronization/preemmtibleCriticalSections.c:27-79 | The invariant holds in every interleaving of any number of threads. |
| FutexMutex.MutualExclusion | concurrency/synchronization/preemmtibleCriticalSections.c:27-66 | Two threads in the critical section are the same thread, and it is the recorded owner. |
| FutexMutex.DeadlockFree | concurrency/synchronization/preemmtibleCriticalSections.c:27-79 | Until every thread has done its rounds, some thread can take a step of its own, without a spurious wakeup. |
| FutexMutex.FinalCount | concurrency/synchronization/preemmtibleCriticalSections.c:68-99 | When all threads are done the counter is threads times rounds and the mutex is free with no owner. |
| TwoMutexLock.InitHolds | concurrency/threads/rwlock-buffer/rwlock_buffer.c:63-67 | The new lock satisfies the invariant. |
| TwoMutexLock.ArrivalKeeps | concurrency/threads/rwlock-buffer/rwlock_buffer.c:74-81 | Each mutex step of an arriving reader keeps the invariant, also while the first one blocks inside. |
| TwoMutexLock.DepartureKeeps | concurrency/threads/rwlock-buffer/rwlock_buffer.c:83-90 | Each mutex step of a leaving reader keeps it, and the last one hands over `write_lock`. |
| TwoMutexLock.WriterKeeps | concurrency/threads/rwlock-buffer/rwlock_buffer.c:92-98 | Writers' steps keep it. |
| TwoMutexLock.RunKeeps | concurrency/threads/rwlock-buffer/rwlock_buffer.c:63-98 | In every interleaving, `write_lock` is held exactly by one writer or by the readers as a group, and `counter_lock` by one thread. |
| TwoMutexLock.MutualExclusion | concurrency/threads/rwlock-buffer/rwlock_buffer.c:74-98 | A writer inside excludes all readers and other writers. |
| TwoMutexLock.DatumStableWhileReading | concurrency/threads/rwlock-buffer/rwlock_buffer.c:74-98 | What a reader sees does not change for as long as it reads. |
| TwoMutexLock.CounterHolder | concurrency/threads/rwlock-buffer/rwlock_buffer.c:74-90 | If `counter_lock` is held, some reader is on its way in or out. |
| TwoMutexLock.CounterHolderMoves | concurrency/threads/rwlock-buffer/rwlock_buffer.c:74-90 | That reader can move unless a writer is inside, even when it needs `write_lock`. |
| TwoMutexLock.DeadlockFree | concurrency/threads/rwlock-buffer/rwlock_buffer.c:74-98 | Whenever a thread is inside or on its way, some such thread can step: a first reader that blocks with `counter_lock` held does not deadlock. |
| BoundedBuffer.SignalCounts | concurrency/threads/rwlock-buffer/rwlock_buffer.c:118-158 | A signal moves exactly one sleeper of its kind to woken if there is one. |
| BoundedBuffer.ProduceConserves | concurrency/threads/rwlock-buffer/rwlock_buffer.c:118-136 | After producing, the ring's contents are still production minus consumption, in order. |
| BoundedBuffer.ConsumeConserves | concurrency/threads/rwlock-buffer/rwlock_buffer.c:138-158 | The same after consuming. |
| BoundedBuffer.ProduceWakes | concurrency/threads/rwlock-buffer/rwlock_buffer.c:118-136 | Producing keeps the woken consumers at least as many as the items while a consumer sleeps. |
| BoundedBuffer.ConsumeWakes | concurrency/threads/rwlock-buffer/rwlock_buffer.c:138-158 | Consuming keeps the woken producers at least as many as the free slots while a producer sleeps. |
| BoundedBuffer.StepKeeps | concurrency/threads/rwlock-buffer/rwlock_buffer.c:118-158 | Every step keeps conservation and enough woken threads. |
| BoundedBuffer.RunKeeps | concurrency/threads/rwlock-buffer/rwlock_buffer.c:100-158 | So does every run of any number of producers and consumers. |
| BoundedBuffer.FirstInFirstOut | concurrency/threads/rwlock-buffer/rwlock_buffer.c:100-158 | Consumed items are a prefix of produced items, and the difference is the count, within capacity. |
| BoundedBuffer.NoMissedSignal | concurrency/threads/rwlock-buffer/rwlock_buffer.c:118-158 | A sleeping consumer with items present, or producer with room, means a woken one can complete at once. |
| BoundedBuffer.NeverAllAsleep | concurrency/threads/rwlock-buffer/rwlock_buffer.c:118-158 | Producers and consumers never sleep at the same time without a woken thread. |
| Ring.SlotIsModulo | concurrency/scheduling/Parallelism-AwareBatchScheduling.c:39-58 | The slot of an element is the front plus its offset, modulo the capacity. |
| Ring.PushBack | concurrency/scheduling/Parallelism-AwareBatchScheduling.c:39-47 | Writing the slot behind the last element appends, across the wraparound. |
| Ring.PopFront | concurrency/scheduling/Parallelism-AwareBatchScheduling.c:49-58 | Advancing the front drops exactly the first element. |
| RingQueue.Queue.constructor | concurrency/scheduling/Parallelism-AwareBatchScheduling.c:25-29 | A new queue is empty. |
| RingQueue.Queue.Enqueue | concurrency/scheduling/AdaptiveThread-AwareScheduling.c:45-53 | The sequence grows by the request at its end, or is unchanged when full. |
| RingQueue.Queue.Dequeue | concurrency/scheduling/AdaptiveThread-AwareScheduling.c:55-64 | The first request leaves; an empty queue gives none. |
| BatchScheduler.InsertSorted | concurrency/scheduling/Parallelism-AwareBatchScheduling.c:92-122 | Insertion keeps the reference order sorted by rank, row hit, timestamp and position. |
| BatchScheduler.ServiceOrderSorts | concurrency/scheduling/Parallelism-AwareBatchScheduling.c:92-122 | The reference order is a sorted permutation of the batch. |
| BatchScheduler.BankCountIsCardinality | concurrency/scheduling/Parallelism-AwareBatchScheduling.c:70-74 | The count of a bank is the number of positions of the batch with a request to it. |
| BatchScheduler.CountBanks | concurrency/scheduling/Parallelism-AwareBatchScheduling.c:70-74 | Each counter is the number of the batch's requests to that bank. |
| BatchScheduler.SwapKeeps | concurrency/scheduling/Parallelism-AwareBatchScheduling.c:80-89 | A swap keeps banks with equal counts in their original order and the settled tail settled. |
| BatchScheduler.BubblePass | concurrency/scheduling/Parallelism-AwareBatchScheduling.c:82-88 | One pass settles one more position and keeps a stable permutation. |
| BatchScheduler.BubbleSort | concurrency/scheduling/Parallelism-AwareBatchScheduling.c:80-89 | The passes settle every position, stably, in place. |
| BatchScheduler.RankBanks | concurrency/scheduling/Parallelism-AwareBatchScheduling.c:70-90 | The ranking lists all banks by falling number of requests, equal ones by number. |
| BatchScheduler.ScanBank | concurrency/scheduling/Parallelism-AwareBatchScheduling.c:95-109 | The scan finds the oldest marked request and the oldest marked row hit of a bank, first position on ties, -1 if none. |
| BatchScheduler.ChoiceIsNext | concurrency/scheduling/Parallelism-AwareBatchScheduling.c:93-118 | What the first non-empty bank in rank order yields precedes all marked requests. |
| BatchScheduler.ScheduleRequest | concurrency/scheduling/Parallelism-AwareBatchScheduling.c:92-122 | It unmarks and returns the least marked request, and fails exactly when nothing is marked. |
| BatchScheduler.FormBatch | concurrency/scheduling/Parallelism-AwareBatchScheduling.c:60-68 | The batch is the marked prefix of the queue up to the maximum, and the queue keeps the rest. |
| BatchScheduler.NextInOrder | concurrency/scheduling/Parallelism-AwareBatchScheduling.c:92-122 | Repeated choice of the least follows the sorted permutation. |
| BatchScheduler.ServeBatch | concurrency/scheduling/Parallelism-AwareBatchScheduling.c:140-153 | Serving a batch never fails and outputs its stable sort. |
| BatchScheduler.ServeNextBatch | concurrency/scheduling/Parallelism-AwareBatchScheduling.c:140-153 | One round serves the queue's next batch in sorted order and leaves the rest queued. |
| BatchScheduler.Drain | concurrency/scheduling/Parallelism-AwareBatchScheduling.c:140-153 | The whole output is the input in an order that is a permutation and puts every request before those it outranks; it is the concatenation of the sorted batches. |
| BatchScheduler.BatchOrderPermutes | concurrency/scheduling/Parallelism-AwareBatchScheduling.c:60-122 | A batch's order is a permutation of its own positions. |
| BatchScheduler.DrainIsPermutation | concurrency/scheduling/Parallelism-AwareBatchScheduling.c:140-153 | Every request is output exactly once. |
| BatchScheduler.BatchStartIsMultiple | concurrency/scheduling/Parallelism-AwareBatchScheduling.c:60-68 | Batches are the input cut at the multiples of the batch size. |
| BatchScheduler.LoadIsBankCount | concurrency/scheduling/Parallelism-AwareBatchScheduling.c:70-74 | The counters of a batch are the numbers of its requests to each bank, as positions of the queue. |
| BatchScheduler.OutputInOrder | concurrency/scheduling/Parallelism-AwareBatchScheduling.c:92-153 | For any two requests of the output: the earlier one is from an earlier batch, or from the same batch and from a bank with more requests there, or as many and a lower number, or from the same bank and a row hit, or older, or first in the queue. |
| BatchScheduler.BoundedDisplacement | concurrency/scheduling/Parallelism-AwareBatchScheduling.c:140-153 | No request is served a batch size or more places away from its arrival place, either way. |
| AdaptiveScheduler.Select | concurrency/scheduling/AdaptiveThread-AwareScheduling.c:89-99 | The scan finds the earliest request of a thread of highest positive priority, or reports that none is positive. |
| AdaptiveScheduler.ShiftDown | concurrency/scheduling/AdaptiveThread-AwareScheduling.c:107-109 | The shifting loop moves exactly the later elements down by one slot, across the wraparound. |
| AdaptiveScheduler.CloseGap | concurrency/scheduling/AdaptiveThread-AwareScheduling.c:105-111 | The queue loses exactly the chosen element and keeps the order of all others, also when it becomes empty. |
| AdaptiveScheduler.ScheduleRequest | concurrency/scheduling/AdaptiveThread-AwareScheduling.c:83-114 | The chosen request is returned and removed; with no positive priority it is the first one; an empty queue gives none. |
| AdaptiveScheduler.ChoiceIsFirstOfThread | concurrency/scheduling/AdaptiveThread-AwareScheduling.c:83-114 | The choice heads its own thread's requests and leaves every other thread's as they are. |
| AdaptiveScheduler.ServedInThreadOrder | concurrency/scheduling/AdaptiveThread-AwareScheduling.c:45-114 | Over every run with changing priorities, each thread's served and waiting requests are its accepted ones in order. |
| Allocator.RoundUp | memory/memory_management/mem_alloc.c:40 | The rounded size is a multiple of 16 that holds the request, if and only if the request is at most 2^64 - 16. |
| Allocator.BlocksDisjoint | memory/memory_management/mem_alloc.c:26-32 | Blocks lie one behind the other without overlap. |
| Allocator.AllocationKeeps | memory/memory_management/mem_alloc.c:96-111 | Splitting keeps the pool tiled and no two free blocks adjacent. |
| Allocator.FreeKeeps | memory/memory_management/mem_alloc.c:113-135 | Coalescing with both neighbours keeps them too. |
| Allocator.FreeAgainChangesNothing | memory/memory_management/mem_alloc.c:113-135 | Freeing a block that is already free changes nothing. |
| Allocator.AllocationAddsOne | memory/memory_management/mem_alloc.c:34-111 | An allocation adds one payload, large enough and not live before, and moves no other. |
| Allocator.MergeRemovesOne | memory/memory_management/mem_alloc.c:113-135 | Turning a run of blocks with one live payload into a free block removes just that payload. |
| Allocator.FreeRemovesOne | memory/memory_management/mem_alloc.c:113-135 | A free removes exactly the freed payload and moves no other. |
| Allocator.NothingLiveIsInitial | memory/memory_management/mem_alloc.c:26-135 | A coalesced heap without live payloads is the single initial block. |
| Allocator.PayloadsDisjoint | memory/memory_management/mem_alloc.c:34-111 | Any two live payloads are apart by at least a header. |
| Allocator.RunKeeps | memory/memory_management/mem_alloc.c:26-135 | After every mix of allocations, failures, frees and repeated frees the blocks tile the pool, coalesced. |
| Allocator.LivePersists | memory/memory_management/mem_alloc.c:34-135 | A payload stays live, at its address and size, until it is freed. |
| Allocator.AllocationHoldsRequest | memory/memory_management/mem_alloc.c:34-111 | In every run an allocation adds a new payload, which holds the request if and only if the request is at most 2^64 - 16. |
| Allocator.AllocationSplitsIff | memory/memory_management/mem_alloc.c:96-111 | An allocation leaves the rest of its block free, with a payload of exactly the rounded request, if and only if the rest is larger than a header and the smallest payload. |
| Allocator.AllocationIsTight | memory/memory_management/mem_alloc.c:34-111 | In every run the new payload has at least the rounded request and at most a header and the smallest payload more. |
| Allocator.StrategyFollowed | memory/memory_management/mem_alloc.c:34-95 | First fit takes the lowest block that fits, best fit a smallest and worst fit a largest one, the lowest among equals. |
| Allocator.HugeRequestGetsTooLittle | memory/memory_management/mem_alloc.c:40-111 | A request of 2^64 - 1 bytes succeeds with a payload that does not hold it. |
| Allocator.FreeingEverythingRestores | memory/memory_management/mem_alloc.c:113-135 | Whenever everything has been freed, in any order, the heap is what it was at the start. |
| Allocator.SegmentReplace | memory/memory_management/mem_alloc.c:96-135 | Rewriting the headers of a stretch of the linked list replaces exactly those blocks. |
| Allocator.FreedInSteps | memory/memory_management/mem_alloc.c:113-135 | Retagging, absorbing the right and being absorbed by the left amount to one block in place of the run. |
| Allocator.Heap.constructor | memory/memory_management/mem_alloc.c:26-32 | The pool starts as one free block. |
| Allocator.Heap.Find | memory/memory_management/mem_alloc.c:42-90 | Each strategy finds the first fit, the first smallest or the first largest, and none only if there is none. |
| Allocator.Heap.SplitBlock | memory/memory_management/mem_alloc.c:96-111 | The linked list is that of the block list with the block split or taken whole. |
| Allocator.Heap.AllocateMemory | memory/memory_management/mem_alloc.c:34-94 | The strategy's choice for the rounded size is allocated and its payload address returned; failure changes nothing. |
| Allocator.Heap.Absorb | memory/memory_management/mem_alloc.c:119-132 | A block and its successor become one in the linked list. |
| Allocator.Heap.Predecessor | memory/memory_management/mem_alloc.c:124-127 | The walk from the head finds the block before, or none for the first. |
| Allocator.Heap.FreeMemory | memory/memory_management/mem_alloc.c:113-135 | The freed block and its free neighbours are one free block; null and a block that is already free change nothing. |
| MultiLevelQueue.FirstBusy | os/process/scheduler/multi_level_queuing.c:53-57 | The highest non-empty queue, or none. |
| MultiLevelQueue.SliceKeepsPlaces | os/process/scheduler/multi_level_queuing.c:53-94 | Every queued process has the level of its queue, and above the lowest has not used up its quantum. |
| MultiLevelQueue.SliceWorks | os/process/scheduler/multi_level_queuing.c:53-94 | A slice does one unit of work and leaves nobody queued without work. |
| MultiLevelQueue.ScheduleLength | os/process/scheduler/multi_level_queuing.c:97-117 | A run takes exactly as many slices as there is work. |
| MultiLevelQueue.BottomQueue | os/process/scheduler/multi_level_queuing.c:53-117 | The lowest queue serves each process to its end, in order. |
| MultiLevelQueue.MiddleQueue | os/process/scheduler/multi_level_queuing.c:53-117 | The middle queue gives each up to two ticks and sends the rest behind the bottom queue. |
| MultiLevelQueue.TopQueue | os/process/scheduler/multi_level_queuing.c:53-117 | The top queue gives each one tick and sends the rest behind the middle queue. |
| MultiLevelQueue.RunIsThreePasses | os/process/scheduler/multi_level_queuing.c:97-117 | From new processes the ticks of a run are those of three first-come-first-served passes with caps one, two and none. |
| MultiLevelQueue.CompletionOrder | os/process/scheduler/multi_level_queuing.c:97-117 | Bursts of 1 complete first, then 2 and 3, then the rest, each group in order of arrival. |
| MultiLevelQueue.StuckStays | os/process/scheduler/multi_level_queuing.c:53-94 | A process whose remaining time is not positive never leaves the queues. |
| MultiLevelQueue.Mlfq.constructor | os/process/scheduler/multi_level_queuing.c:28-37 | Three empty queues with quanta 1, 2 and 4. |
| MultiLevelQueue.Mlfq.AddProcess | os/process/scheduler/multi_level_queuing.c:40-50 | The process joins the end of the top queue with its whole burst before it. |
| MultiLevelQueue.Mlfq.RemoveFirst | os/process/scheduler/multi_level_queuing.c:69-73 | The shifting loop drops the first process of one queue and touches no other queue. |
| MultiLevelQueue.Mlfq.RunFirst | os/process/scheduler/multi_level_queuing.c:53-94 | The first process runs one tick, then leaves, moves down or stays first; total occupancy does not grow. |
| MultiLevelQueue.Mlfq.ExecuteTimeSlice | os/process/scheduler/multi_level_queuing.c:53-94 | Exactly the highest non-empty queue runs, or nothing changes. |
| MultiLevelQueue.Mlfq.RunMlfq | os/process/scheduler/multi_level_queuing.c:97-117 | The loop ends with all queues empty and its ticks are the schedule. |
| MultiLevelQueue.Mlfq.RunSlices | os/process/scheduler/multi_level_queuing.c:97-117 | With a process whose remaining time is not positive, the loop is not over after any number of slices. |
| Mmu.EncodeRoundTrip | memory/virtual_mem/pageFlush.c:118-141 | A frame number survives being stored in a page-table entry, which reads as present, with the writable and user bits. |
| Mmu.Lookup | memory/virtual_mem/pageFlush.c:109-114 | The first valid entry with the key, or none. |
| Mmu.FirstWithKey | memory/virtual_mem/pageFlush.c:87-96 | The first entry with the key, valid or stale. |
| Mmu.FirstUnpinned | memory/virtual_mem/pageFlush.c:61-71 | The first frame with no pins, or none. |
| Mmu.WalkMaps | memory/virtual_mem/pageFlush.c:117-128 | A walk keeps all mappings, adds at most the one asked for, and returns it. |
| Mmu.WalkKeeps | memory/virtual_mem/pageFlush.c:117-128 | A walk keeps mapped frames pinned and not shared. |
| Mmu.FillKeepsOrder | memory/virtual_mem/pageFlush.c:130-139 | Filling after a miss leaves no entry, valid or stale, with a valid entry's key below it. |
| Mmu.TlbTransparent | memory/virtual_mem/pageFlush.c:105-142 | With a coherent TLB, translation gives the frame, pins and tables of a walk without TLB. |
| Mmu.TranslationCached | memory/virtual_mem/pageFlush.c:105-142 | A translation puts the page into the TLB unless that is full of valid entries, and drops no valid entry. |
| Mmu.TranslateKeeps | memory/virtual_mem/pageFlush.c:105-142 | Translation keeps coherence, key order, pinning and exclusiveness. |
| Mmu.FlushEntryRemoves | memory/virtual_mem/pageFlush.c:87-96 | After flushing a key no valid entry has it, and all other entries stay, given the key order. |
| Mmu.FlushNeedsKeyOrder | memory/virtual_mem/pageFlush.c:87-96 | Without the key order a stale entry hides the valid one and the flush misses it. |
| Mmu.UnpinSafeIff | memory/virtual_mem/pageFlush.c:78-85 | Unpinning keeps mapped frames pinned if and only if it does not take the last pin of a mapped frame. |
| Mmu.LastUnpinAliases | memory/virtual_mem/pageFlush.c:61-85 | After such an unpin the next page to be mapped shares the frame. |
| Mmu.OutstandingIsNotLast | memory/virtual_mem/pageFlush.c:73-85 | An unpin that gives back an outstanding pin never takes the last pin of a mapped frame. |
| Mmu.WalkPins | memory/virtual_mem/pageFlush.c:61-71 | A newly mapped page takes a frame that nobody has pinned, and accounts for its one pin. |
| Mmu.PinsKept | memory/virtual_mem/pageFlush.c:61-85 | Every step of a balanced run keeps pins equal to outstanding pins plus one per mapped frame. |
| Mmu.MemoryStepKeeps | memory/virtual_mem/pageFlush.c:61-142 | With that account, unpins need no further condition to keep frames in use pinned and apart. |
| Mmu.StepKeeps | memory/virtual_mem/pageFlush.c:61-142 | Every call, of a translation, flush, pin, outstanding unpin or switch, keeps coherence, pinning, exclusiveness, the account of the pins and the numbering, and every mapping. |
| Mmu.RunKeeps | memory/virtual_mem/pageFlush.c:61-142 | In every run in which each unpin is preceded by a pin of its own, the invariant holds in every state; in particular the pins of a frame are those outstanding, and one more if a page is in it. |
| Mmu.PagesIsolated | memory/virtual_mem/pageFlush.c:61-142 | Two pages that map to one frame are the same page of the same space. |
| Mmu.FrameSharedIff | memory/virtual_mem/pageFlush.c:61-155 | In every run, a process has a page in the frame of another's page if and only if the page numbers and the identifiers are equal. |
| Mmu.ProcessesIsolated | memory/virtual_mem/pageFlush.c:61-155 | While at most 255 processes have been switched to, two processes never have pages in the same frame. |
| Mmu.SwitchInTurn | memory/virtual_mem/pageFlush.c:144-155 | Every run in which processes 0 to n - 1 have been switched to in turn goes on by switching to the next ones in turn. |
| Mmu.IdentifiersRunOut | memory/virtual_mem/pageFlush.c:144-155 | The bound is exact: in a run of 256 switches, with a page touched after the first, the last process has the identifier of the first and that page in the same frame, and all its other pages. |
| Mmu.MappingPersists | memory/virtual_mem/pageFlush.c:105-142 | A mapping, once made, lasts. |
| Mmu.TranslationStable | memory/virtual_mem/pageFlush.c:105-142 | A successful translation gives the same frame ever after, through fills, flushes, switches, pins and unpins. |
| Mmu.RunRefinesMachineWithoutTlb | memory/virtual_mem/pageFlush.c:87-142 | Forgetting the TLB turns every run into a run of the machine without one: same results, pins, tables and identifiers. |
| Mmu.SwitchKeeps | memory/virtual_mem/pageFlush.c:144-155 | Identifiers are handed out in order of first switch, one to each process: 1 to 255, and then from 1 again. |
| Mmu.FlushAtWrap | memory/virtual_mem/pageFlush.c:144-155 | The switch that gives out the last identifier leaves no TLB entry valid; every other one leaves the TLB as it is. |
| Mmu.PinsNeverNegative | memory/virtual_mem/pageFlush.c:61-142 | In any run, with unpins that nobody owes as well, no pin count is negative. |
| Mmu.AsidsDistinctIff | memory/virtual_mem/pageFlush.c:144-155 | Identifiers of different processes differ if and only if at most 255 have been handed out. |
| Mmu.System.constructor | memory/virtual_mem/pageFlush.c:49-59 | Nothing pinned, nothing mapped, nothing cached. |
| Mmu.System.AllocatePage | memory/virtual_mem/pageFlush.c:61-71 | The first unpinned frame is pinned once and returned; all ones when there is none. |
| Mmu.System.PinPage | memory/virtual_mem/pageFlush.c:73-76 | Only that frame's count rises. |
| Mmu.System.UnpinPage | memory/virtual_mem/pageFlush.c:78-85 | Only that frame's count falls, and not below zero. |
| Mmu.System.FlushTlbEntry | memory/virtual_mem/pageFlush.c:87-96 | Exactly the first entry with the key becomes invalid. |
| Mmu.System.FlushTlb | memory/virtual_mem/pageFlush.c:98-103 | All entries become invalid and keep their keys. |
| Mmu.System.WalkTable | memory/virtual_mem/pageFlush.c:117-128 | A present entry is used; otherwise a frame is allocated and entered, or the walk fails with nothing changed. |
| Mmu.System.TranslateAddress | memory/virtual_mem/pageFlush.c:105-142 | The physical address is frame and offset, all ones only on failure, and the invariant is kept. |
| Mmu.System.SwitchProcess | memory/virtual_mem/pageFlush.c:144-155 | The machine goes through exactly the switch step: an identifier at the first switch, a flush exactly when the numbering wraps, and the current identifier. |
| BufferPool.HomeRepeats | os/filesystem/CustomBufferManagementSystem.c:70-72 | Pages that differ by the size of the table have the same home. |
| BufferPool.PutKeeps | os/filesystem/CustomBufferManagementSystem.c:85-92 | Inserting at the first empty slot of the probe path keeps every page reachable. |
| BufferPool.RemoveIntactIff | os/filesystem/CustomBufferManagementSystem.c:94-101 | Emptying a slot keeps all other pages reachable if and only if no other page's probe path crosses it. |
| BufferPool.ReplaceIntactIff | os/filesystem/CustomBufferManagementSystem.c:94-101 | With an insertion after it: if and only if the new page fills the hole or nothing crosses it. |
| BufferPool.HoleLosesAPage | os/filesystem/CustomBufferManagementSystem.c:94-101 | A run of four calls, from the empty pool, after which a page is in its frame and in the table but a lookup does not find it. |
| BufferPool.IntactIffFound | os/filesystem/CustomBufferManagementSystem.c:74-83 | Chains are intact if and only if a lookup finds every page of the table in the slot where it is. |
| BufferPool.MissingIsAbsent | os/filesystem/CustomBufferManagementSystem.c:74-83 | In an intact table, a page that is not found is not there. |
| BufferPool.LookupExact | os/filesystem/CustomBufferManagementSystem.c:74-83 | In a consistent pool a frame holds a page if and only if a lookup of the page finds that frame. |
| BufferPool.AtHomeNothingCrosses | os/filesystem/CustomBufferManagementSystem.c:70-101 | If every page is in its home slot, no probe path crosses another slot. |
| BufferPool.InsertedAtHome | os/filesystem/CustomBufferManagementSystem.c:85-92 | A page that collides with none goes to its home slot. |
| BufferPool.SmallIdsDoNotCollide | os/filesystem/CustomBufferManagementSystem.c:70-72 | Page ids below the table size do not collide. |
| BufferPool.StopUnique | os/filesystem/CustomBufferManagementSystem.c:103-116 | The clock's stopping place is determined by pins, bits and hand. |
| BufferPool.PassOne | os/filesystem/CustomBufferManagementSystem.c:103-116 | The clock stops where the closed form says, and passes no unpinned frame twice. |
| BufferPool.ClockStep | os/filesystem/CustomBufferManagementSystem.c:103-116 | One step clears the bit of an unpinned frame or finds the victim, and moves the hand by one. |
| BufferPool.ClockSteps | os/filesystem/CustomBufferManagementSystem.c:103-116 | With every frame pinned, no number of steps finds a victim. |
| BufferPool.FindVictimPage | os/filesystem/CustomBufferManagementSystem.c:103-116 | Within two turns: the first unpinned frame without reference bit, or the first unpinned one if all are referenced, with exactly the passed bits cleared. |
| BufferPool.LoadFreeKeeps | os/filesystem/CustomBufferManagementSystem.c:128-165 | Loading into a free frame keeps table, residents and free list consistent, collisions or not. |
| BufferPool.LoadFreeAccounted | os/filesystem/CustomBufferManagementSystem.c:128-165 | Loading into a free frame keeps as many entries as frames for every page, even in a pool with cut chains. |
| BufferPool.EvictAccounted | os/filesystem/CustomBufferManagementSystem.c:128-165 | So does an eviction, whichever entry of the victim's page is removed. |
| BufferPool.VictimHasEntry | os/filesystem/CustomBufferManagementSystem.c:94-101 | The victim's page is in the table, so the search of the removal ends. |
| BufferPool.OwnEntry | os/filesystem/CustomBufferManagementSystem.c:94-101 | In a consistent pool the entry removed is the victim's own. |
| BufferPool.ReplaceKeepsIff | os/filesystem/CustomBufferManagementSystem.c:128-165 | Reusing a victim's frame keeps the pool consistent if and only if it keeps the probe chains. |
| BufferPool.EvictionKeepsIff | os/filesystem/CustomBufferManagementSystem.c:128-165 | The same with the clock's bookkeeping. |
| BufferPool.ProbeEnds | os/filesystem/CustomBufferManagementSystem.c:74-83 | An empty slot on the probe path means that the lookup does not find the page, whatever lies beyond. |
| BufferPool.BufferManager.constructor | os/filesystem/CustomBufferManagementSystem.c:50-68 | All frames free, the last one first, and an empty table. |
| BufferPool.BufferManager.LookupPage | os/filesystem/CustomBufferManagementSystem.c:74-83 | On any reachable pool the probe ends; it yields the frame of the first entry of the page before an empty slot, -1 exactly if there is none. |
| BufferPool.BufferManager.InsertIntoPageTable | os/filesystem/CustomBufferManagementSystem.c:85-92 | Exactly the first empty slot of the probe path is filled. |
| BufferPool.BufferManager.RemoveFromPageTable | os/filesystem/CustomBufferManagementSystem.c:94-101 | Exactly the first slot of the page on its path is emptied, past empty slots if need be. |
| BufferPool.BufferManager.Evict | os/filesystem/CustomBufferManagementSystem.c:128-165 | The clock's victim is written if dirty and unhooked from the table, and nothing else changes but bits and hand. |
| BufferPool.BufferManager.LoadPage | os/filesystem/CustomBufferManagementSystem.c:128-165 | The frame holds the page, clean, pinned once and referenced, with its entry. |
| BufferPool.BufferManager.FetchPage | os/filesystem/CustomBufferManagementSystem.c:128-165 | On any reachable pool: a hit pins the frame that the lookup found, a miss loads the page as the step relation of the runs says, and the account is kept; the frame returned holds the page as long as entries and frames match; a dirty victim is written. |
| BufferPool.BufferManager.UnpinPage | os/filesystem/CustomBufferManagementSystem.c:167-172 | On any reachable pool only the frame that the lookup finds loses a pin, not below zero; a page not found changes nothing. |
| BufferPool.BufferManager.MarkPageDirty | os/filesystem/CustomBufferManagementSystem.c:174-179 | Only the frame that the lookup finds becomes dirty. |
| BufferPool.BufferManager.FlushDirtyPages | os/filesystem/CustomBufferManagementSystem.c:181-188 | The pages of the dirty frames are written, in order, and all frames are clean. |
| BufferPool.MissKeepsIff | os/filesystem/CustomBufferManagementSystem.c:128-165 | A miss keeps the pool consistent if and only if it evicts nothing or cuts no chain. |
| BufferPool.StepKeepsIff | os/filesystem/CustomBufferManagementSystem.c:128-172 | Every call keeps the pool consistent, except exactly the misses that cut a chain. |
| BufferPool.AlwaysAccounted | os/filesystem/CustomBufferManagementSystem.c:50-172 | In every run, collisions and cut chains included, each page has as many entries as frames and a slot is empty, so that every probe ends. |
| BufferPool.FetchReturnsThePage | os/filesystem/CustomBufferManagementSystem.c:128-165 | A fetch returns the frame that holds the page, if every table entry names a frame of its page and no frame is named twice; chains may be cut. |
| BufferPool.ForeignEntryBreaksOwn | os/filesystem/CustomBufferManagementSystem.c:94-101 | Taking out another frame's entry leaves the victim's, which then names a frame with a different page or named twice. |
| BufferPool.MissKeepsOwnIff | os/filesystem/CustomBufferManagementSystem.c:128-165 | A miss keeps entries and frames matched if and only if it takes a free frame or removes the entry that names the victim. |
| BufferPool.SoleFrameTakesOwnEntry | os/filesystem/CustomBufferManagementSystem.c:94-101 | It does so whenever the victim's page is in no other frame. |
| BufferPool.StepKeepsOwnIff | os/filesystem/CustomBufferManagementSystem.c:128-172 | Every call keeps entries and frames matched, except exactly such misses. |
| BufferPool.OwnSoFarIff | os/filesystem/CustomBufferManagementSystem.c:128-172 | In every run, entries and frames have matched so far if and only if every eviction so far removed the victim's own entry. |
| BufferPool.FetchesReturnTheirPages | os/filesystem/CustomBufferManagementSystem.c:128-172 | Up to the first eviction that does not, every fetch of a run returns the frame that holds its page. |
| BufferPool.PinStep | os/filesystem/CustomBufferManagementSystem.c:128-172 | A fetch adds a pin to the frame it returns and sets its reference bit, an unpin takes one away, and a pinned frame keeps its page. |
| BufferPool.PinsAreBalance | os/filesystem/CustomBufferManagementSystem.c:128-172 | In every run the pin count of a frame is the number of fetches that returned it less that of its unpins that took effect. |
| BufferPool.PinnedStays | os/filesystem/CustomBufferManagementSystem.c:103-172 | A frame with more fetches than unpins is never a victim and keeps its page. |
| BufferPool.HolderKeepsThePage | os/filesystem/CustomBufferManagementSystem.c:128-172 | Who has fetched a page and not unpinned it finds it in the frame that the fetch returned, as long as table entries and frames matched at the fetch. |
| BufferPool.VictimExact | os/filesystem/CustomBufferManagementSystem.c:103-116 | The victim is the first unpinned frame from the hand on that is not referenced, and the first unpinned one only if all are referenced. |
| BufferPool.SecondChance | os/filesystem/CustomBufferManagementSystem.c:103-116 | Exactly the unpinned frames that the hand passes lose their reference bit, all of them if it goes round. |
| BufferPool.DirtyStep | os/filesystem/CustomBufferManagementSystem.c:128-188 | A call that does not write a dirty page leaves it dirty in its frame. |
| BufferPool.DirtyUntilWritten | os/filesystem/CustomBufferManagementSystem.c:128-188 | In every run a dirty page stays in its frame, dirty, until it is written. |
| BufferPool.MarkedIsWritten | os/filesystem/CustomBufferManagementSystem.c:128-188 | A page that was marked dirty and is no longer there has been written since. |
| BufferPool.WrongFrameReturned | os/filesystem/CustomBufferManagementSystem.c:94-165 | A run of twelve calls, from the empty pool, whose last fetch returns a frame that holds a different page. |
| BufferPool.ConsistentUntilEviction | os/filesystem/CustomBufferManagementSystem.c:128-165 | In every run the pool is consistent up to the first eviction, for any page ids. |
| BufferPool.ConsistentWithSmallIds | os/filesystem/CustomBufferManagementSystem.c:70-165 | With page ids below the table size it is consistent through all evictions. |
| TwoLevelCache.TagAndIndexIdentify | memory/cache/Two-Level-Cache-System.c:24-30 | Tag and index together are equal exactly for the same block. |
| TwoLevelCache.LatestIff | memory/cache/Two-Level-Cache-System.c:43-76 | The latest block of an index is the one access of the history after which none has that index. |
| TwoLevelCache.LatestIncluded | memory/cache/Two-Level-Cache-System.c:43-76 | The latest block of a coarse index is the latest of its own fine index. |
| TwoLevelCache.UpdateTracks | memory/cache/Two-Level-Cache-System.c:43-50 | Overwriting a line keeps every line at the latest block with its index. |
| TwoLevelCache.HitTracks | memory/cache/Two-Level-Cache-System.c:52-76 | So does a hit, which changes nothing. |
| TwoLevelCache.HitIff | memory/cache/Two-Level-Cache-System.c:32-41 | A level hits if and only if the latest access with that index was to this block. |
| TwoLevelCache.BoundCheckIff | memory/cache/Two-Level-Cache-System.c:67-68 | The 32-bit bound check accepts every block of the memory, and a block outside it if and only if the address is at least 0xFFFF_FFF8. |
| TwoLevelCache.HeldBlock | memory/cache/Two-Level-Cache-System.c:32-50 | The block in a valid line is the one that its tag and index name, with its bytes. |
| TwoLevelCache.Inclusion | memory/cache/Two-Level-Cache-System.c:43-76 | Every valid first-level line is in the second level with the same bytes, without back-invalidation. |
| TwoLevelCache.CacheSystem.constructor | memory/cache/Two-Level-Cache-System.c:84-90 | Both levels start invalid. |
| TwoLevelCache.CacheSystem.CheckCache | memory/cache/Two-Level-Cache-System.c:32-41 | The line's bytes if valid and tagged for the address, else a miss. |
| TwoLevelCache.CacheSystem.UpdateCache | memory/cache/Two-Level-Cache-System.c:43-50 | Only the address's line changes. |
| TwoLevelCache.CacheSystem.ReadMemory | memory/cache/Two-Level-Cache-System.c:65-75 | A block of the memory enters both levels; other addresses are refused, or in the last 8 bytes of the address space read outside, and change nothing in the model. |
| TwoLevelCache.CacheSystem.MemoryAccess | memory/cache/Two-Level-Cache-System.c:52-76 | For every 32-bit address: an access yields the eight bytes of the memory around the address whenever the block is in memory, and the hit and miss counters follow from the history alone. |
| Matrix.Multiply | utils/matrixMul/matrix_basic.c:25-35 | Every cell is the running sum over k in order. |
| Matrix.CellDependsOn | utils/matrixMul/matrix_basic.c:25-35 | A cell depends only on its row of the first matrix and its column of the second. |
| Matrix.TimesIdentity | utils/matrixMul/matrix_basic.c:25-35 | In exact arithmetic the identity matrix is neutral on both sides. |
| Matrix.MultiplyBlock | utils/matrixMul/matrix_cache.c:54-61 | A block continues the running sums of its cells from k to the block's end and touches no other cell. |
| Matrix.MultiplyStripe | utils/matrixMul/matrix_cache.c:40-64 | A stripe of tiles completes its rows. |
| Matrix.MultiplyBlocked | utils/matrixMul/matrix_cache.c:40-64 | For every size and tile size, each cell is the same running sum, operation by operation, as in the plain loops. |
| Matrix.RowStartIsProduct | utils/matrixMul/matrix_optimized.c:67-97 | Row i starts at position i * N. |
| Matrix.AtIsProduct | utils/matrixMul/matrix_optimized.c:67-97 | The row-major position of cell (i, j) is i * N + j. |
| Matrix.LaneCells | utils/matrixMul/matrix_optimized.c:85-92 | Four consecutive positions are four cells of one row and no others. |
| Matrix.AddFourLanes | utils/matrixMul/matrix_optimized.c:87-90 | One load, fused multiply-add and store is one lane step: a product more in each of four cells, and nothing else. |
| Matrix.AddToLanes | utils/matrixMul/matrix_optimized.c:85-92 | The innermost loop makes exactly the steps of the full lanes in its strip, left to right. |
| Matrix.MultiplyTile | utils/matrixMul/matrix_optimized.c:79-95 | A tile makes each of its steps once and no others, block of products by block, row by row, product by product. |
| Matrix.DoTile | utils/matrixMul/matrix_optimized.c:77-96 | Any tile after any sequence of other tiles adds just its own steps, after theirs. |
| Matrix.BlockTraced | utils/matrixMul/matrix_optimized.c:79-95 | The steps of a block of products come after those of all smaller blocks. |
| Matrix.ScheduleInterleaves | utils/matrixMul/matrix_optimized.c:76-96 | The tiles one after the other, in any order, are an execution of the parallel loop. |
| Matrix.MultiplyOptimized | utils/matrixMul/matrix_optimized.c:67-97 | For every order of the tiles the loops make an execution of the parallel loop that leads to the result, and the result is that of the plain loops over the fused step, zero in the last N % 4 columns. |
| Matrix.LaneOrder | utils/matrixMul/matrix_optimized.c:76-96 | However tiles are interleaved, the steps on one lane come in the order of their products. |
| Matrix.NextProduct | utils/matrixMul/matrix_optimized.c:76-96 | The next step on a lane brings the product that the lane is at. |
| Matrix.StepCell | utils/matrixMul/matrix_optimized.c:85-92 | A step adds one product to the four cells of its lane and changes no other cell. |
| Matrix.CellAfter | utils/matrixMul/matrix_optimized.c:76-96 | At every point of every interleaving each cell holds the running sum of the products its lane has got. |
| Matrix.InterleavingsAgree | utils/matrixMul/matrix_optimized.c:67-97 | Every interleaving of the steps of all tiles, each tile in the order of its loops, gives the sums of the plain loops, zero in the last N % 4 columns. |
| Matrix.SeqCellIsFlatCell | utils/matrixMul/matrix_optimized.c:67-97 | The running sums on values are those on the arrays. |
| Matrix.FlatCellIsCell | utils/matrixMul/matrix_optimized.c:67-97 | The flat layout gives the same running sums as the two-dimensional one. |
| PriorityScheduler.AgingExact | os/process/scheduler/priority_scheduling.c:12-25 | Aging adds a fifth of a priority to whoever is unfinished, carried over at five, and changes nothing else. |
| PriorityScheduler.Highest | os/process/scheduler/priority_scheduling.c:27-42 | The first unfinished process of highest priority, or -1 if all are finished. |
| PriorityScheduler.GainClosedForm | os/process/scheduler/priority_scheduling.c:12-25 | From an age below the threshold, t agings raise the priority by (age + t) / 5 and leave the age (age + t) % 5. |
| PriorityScheduler.AgingAges | os/process/scheduler/priority_scheduling.c:12-25 | Every unfinished process has gained and aged as its starting age and the number of rounds say, whoever ran. |
| PriorityScheduler.ChoiceLeads | os/process/scheduler/priority_scheduling.c:27-42 | The choice is a given process if and only if its gained priority leads all other unfinished ones. |
| PriorityScheduler.AheadAfterTick | os/process/scheduler/priority_scheduling.c:44-68 | When a process has run for a tick, all that come after it have one tick less to wait. |
| PriorityScheduler.InOrderUnfolds | os/process/scheduler/priority_scheduling.c:44-68 | Everybody stays in order for the whole run if and only if the first process leads now and everybody stays in order afterwards. |
| PriorityScheduler.AgedScheduleIsPlainIff | os/process/scheduler/priority_scheduling.c:12-68 | From a table after any number of rounds, the aging schedule is the plain one if and only if everybody stays in order. |
| PriorityScheduler.AgingScheduleIsPlainIff | os/process/scheduler/priority_scheduling.c:12-68 | Aging changes nothing if and only if, in the starting table, each process leads all that come after it at each tick of its own time. |
| PriorityScheduler.PlainRunsInOrder | os/process/scheduler/priority_scheduling.c:44-68 | Processes run one after the other, by priority, ties by index, without preemption. |
| PriorityScheduler.PlainGivesEachItsTime | os/process/scheduler/priority_scheduling.c:44-68 | Every process runs exactly its remaining time, and the run takes the total. |
| PriorityScheduler.AgingScheduleIsPlain | os/process/scheduler/priority_scheduling.c:12-68 | From equal ages the aging schedule is the plain one: non-preemptive, by priority and index, everybody for their time, total time in all. |
| PriorityScheduler.UnequalAgesMatter | os/process/scheduler/priority_scheduling.c:12-25 | A starting table that does not meet the condition: an older process of equal priority is served first. |
| PriorityScheduler.AgeProcesses | os/process/scheduler/priority_scheduling.c:12-25 | Every unfinished process ages by one, and gains priority and starts over at the threshold. |
| PriorityScheduler.GetHighestPriorityProcess | os/process/scheduler/priority_scheduling.c:27-42 | The scan returns the choice. |
| PriorityScheduler.TickWorks | os/process/scheduler/priority_scheduling.c:44-68 | While somebody is unfinished a tick finds a process, does one unit of work and counts completions exactly. |
| PriorityScheduler.TickCounts | os/process/scheduler/priority_scheduling.c:48-67 | A round counts exactly the process it completes, also in the idle branch, and leaves finished ones as they are. |
| PriorityScheduler.Tick | os/process/scheduler/priority_scheduling.c:49-59 | One round ages everybody and runs the choice for one unit, if there is one. |
| PriorityScheduler.RunTicks | os/process/scheduler/priority_scheduling.c:48-67 | With a process that starts with nothing to do, the loop is not over after any number of rounds. |
| PriorityScheduler.PriorityScheduleWithAging | os/process/scheduler/priority_scheduling.c:44-68 | The loop ends with everybody finished, after exactly the schedule's ticks. |
| RoundRobin.TurnStart | os/process/scheduler/round_robin.c:25-46 | A turn starts at most one quantum per earlier turn after its pass. |
| RoundRobin.BoundedWait | os/process/scheduler/round_robin.c:17-52 | An unfinished process gets its next turn after at most one quantum for every other process. |
| RoundRobin.TurnInTime | os/process/scheduler/round_robin.c:29-44 | A turn uses up the wait that the process was allowed for it: one quantum for every other process. |
| RoundRobin.RowTakenTimely | os/process/scheduler/round_robin.c:25-46 | While one row runs, nobody else's wait exceeds the turns since its last chance. |
| RoundRobin.TurnAccounted | os/process/scheduler/round_robin.c:29-44 | A turn keeps the accounts: time since arrival covers the work done, and the waiting time is not negative. |
| RoundRobin.RowTaken | os/process/scheduler/round_robin.c:25-46 | Clock, table, turns and completions stay in step over a turn. |
| RoundRobin.TakeTurn | os/process/scheduler/round_robin.c:29-44 | One row runs up to a quantum and, if done, gets the time at the end of its turn as completion time, and turnaround and waiting time from it; no other row changes. |
| RoundRobin.RunPass | os/process/scheduler/round_robin.c:25-46 | A pass runs everybody who was ready, in table order, back to back; an empty pass changes nothing and means that nobody unfinished had arrived. |
| RoundRobin.PassTells | os/process/scheduler/round_robin.c:25-46 | After a pass the turns so far say of every process how long it has run and, if it has finished, in which one turn and when. |
| RoundRobin.PassProgress | os/process/scheduler/round_robin.c:22-51 | Every round reduces the remaining time or comes nearer to the last arrival. |
| RoundRobin.PassLogged | os/process/scheduler/round_robin.c:22-51 | A pass extends the history of the run, with idle ticks only while everybody unfinished is to arrive. |
| RoundRobin.RunRound | os/process/scheduler/round_robin.c:22-51 | One round is a pass and, if nothing ran, a tick. |
| RoundRobin.RoundRobinSchedule | os/process/scheduler/round_robin.c:17-52 | It ends at total time plus idle ticks with everybody finished, each in exactly one turn, at whose end its completion time is; and from full bursts with exact metrics, no negative waiting time, and none above one quantum of every other process for each turn the burst takes. |
| RoundRobin.OneIsNeverCounted | os/process/scheduler/round_robin.c:22-46 | A process that starts with no time remaining is never counted as completed. |
| RoundRobin.RunRounds | os/process/scheduler/round_robin.c:22-51 | With such a process the loop is not over after any number of rounds. |

## Left out

- Printing, `main` drivers, random input, clocks and sleeps: input and output; times and choices that matter are parameters.
- Cpu.CPU.FetchStage: the `immediate` field is not modelled, because no stage reads it.
- FutexMutex.MutualExclusion: shared words are sequentially consistent; what a weaker machine may do with the plain stores of `owner` and `lock` is not modelled.
- TwoMutexLock.DeadlockFree: `write_lock` is a binary semaphore, because the last reader releases a mutex that another reader locked, which the POSIX standard leaves undefined.
- The `running = 0` shutdown of concurrency/threads/rwlock-buffer/rwlock_buffer.c: threads that leave without consuming would only weaken the statements.
- Fairness of waiters in the locks: barging is allowed, so only the stated progress properties hold.
- BatchScheduler.Drain: requests whose bank number is not below the number of banks would index outside the counters and are excluded.
- Thread classification in concurrency/scheduling/AdaptiveThread-AwareScheduling.c: floating-point ratios; any priorities are covered instead.
- Allocator.Heap.FreeMemory: a pointer that is not the payload of a block of the list, such as one into a block that has been merged away, is excluded; the source reads whatever is stored there.
- Allocator.Heap.Find: the three strategy loops of the source are one loop with the three updates.
- Integer overflow of counters, pins, clocks and priorities: unbounded in the models, except the size rounding of the allocator and the identifiers of address spaces.
- MultiLevelQueue.Mlfq.AddProcess: the fixed capacity of a queue is a precondition, since the source does not check it; slots hold process records instead of pointers to them.
- Mmu.System.constructor: page tables and process records start allocated and cleared, which `init_system` leaves to its caller.
- Mmu.System.TranslateAddress: addresses outside the page tables are excluded, since the source does not check them; page contents are not modelled.
- BufferPool.BufferManager.FetchPage: a miss with every frame pinned is excluded, since the clock then goes on for ever (`BufferPool.ClockSteps`); the returned frame holds the page as long as table entries and frames match (`BufferPool.FetchReturnsThePage`), and beyond that it need not (`BufferPool.WrongFrameReturned`).
- Page contents, disk reads and `last_used` in os/filesystem/CustomBufferManagementSystem.c: stubs without influence on the pool; a disk write is an entry in a list of written pages.
- TwoLevelCache.CacheSystem.ReadMemory: what a read outside the memory does to the caches is undefined in the source; the model leaves them unchanged.
- Matrix.MultiplyOptimized: tile sizes that are not multiples of four are excluded, since lanes of neighbouring tiles would overlap; null matrices, on which the source returns at once, do not occur; a step of the interleavings loads, computes and stores a lane as one action.
- memory/allocation/allocator.c, accessPatterns/memoryController.c, memory/virtual_mem/pageTable.c, concurrency/scheduling/commandScheduling.c, concurrency/threads/upgradeableReadLocks.c, os/process/scheduler/completely_fair_scheduler.c and os/filesystem/whyNotUseOS.c: not modelled.
- utils/circularQueue.c and the serial-port ring buffers: rings easier than the ones modelled.
- security/, networking, graphics, databases and documentation: not simulators of the kind modelled here.
