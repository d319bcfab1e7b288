# Verified models of the firmware's core

This project models five parts of the firmware in Dafny and proves what they promise. Each part
has a specification (datatypes, functions, lemmas) and, where the code changes things step by
step, classes and methods proved against it.

**Heap** (`HeapModel`, `HeapMemory`, `Heap`). The allocator is modelled at the level of the bytes
of RAM. A block header is eight bytes inside the heap (next pointer, size with the "allocated" top
bit), `xStart` is a header outside it, and the methods walk and rewrite those headers as the code
does. The contracts tie every call to an abstract heap: an address-ordered list of free blocks, a
map of the allocated ones and the two counters. Proved: over every run of malloc and free the free
list is ordered, aligned and coalesced, free and allocated blocks tile the heap, the counters are
the sum of the free sizes and its minimum; the free list is a function of the allocated blocks
alone, so the order of frees is irrelevant, malloc and free of its result cancel, and freeing
everything restores the initial block; malloc succeeds exactly when the rounded size is at most the
largest free block, takes the first fit, returns zeroed bytes and touches no other owner's byte. The
heap reaches from the least aligned address to the greatest one with room for the end marker.

**Event loop** (`Waiting`, `EventTimers`, `UserCode`, `EventLoop`, `WakeUp`, `MessageQueue`). The timer list and the
request queue are objects and sequences that the methods relink; the tick is 32 bits wide and wraps
while an unbounded clock runs beside it. The list stays sorted by remaining time at every moment,
`active` is membership in the list, a request is membership in the queue, and queued work is always
announced by a notification bit. Hence a timer with a queued request never fires and the last
request wins. Over a whole run firings of one timer never overlap, firings of a timer
and of the tick differ by whole intervals until it is started or set anew, the first tick counts from
the beginning of the run, and a wait that runs out always finds something due. `Waiting` says how long
the loop sleeps and when that is without limit. `UserCode` says what the calls of user callbacks do:
every callback makes all the calls of its script up to a refused one, with exactly their effects, and
a run is the chain of these effects. The wake-up protocol between a message queue and the loop
is a state machine whose steps are the critical sections of the code,
interleaved in any order with any number of threads; no wake-up is lost. `MessageQueue` is the code
of those steps, proved equal to them, and the loop's rounds composed of them with other threads at
every point between.

**Digital sequence** (`WaveModel`, `DigitalSignal`, `DigitalSequence`). A signal is the waveform it denotes, one
level per unit of the reload value. Transmission puts into the ring exactly the run-length code of the concatenated
waveforms, with equal levels at a boundary merged and the correction ticks in place, and the
hardware reads a prefix of it. Whatever the hardware does, every period is stored in its slot, and a
wait gives up only with reason. The error correction conserves ticks, and a transmission lasts as long
as its signals were built to last, but for the merges and the last rounding. The waveform in timer ticks is
compared with the unmerged one. Building a signal keeps every 10 ps of the durations asked for.

**Bits and dates** (`BitModel`, `BitLib`, `BitParity`, `BitWriting`, `Crc`, `CrcDivision`,
`DateTime`). The fast readers are the big-endian fold of the single bits, writes change nothing else,
removing the parity bits undoes adding them, both CRCs are the remainders of a polynomial division,
linear and with residue zero, and timestamps round-trip through civil dates that agree with section
4.16 of IEEE Std 1003.1-2017.

**Two protocols** (`Record`, `ThreadStdout`). The record registry under interleaved threads, and
the buffered standard output of a thread.

## Where the code differs from what one may expect

- For a valid date from 1970 on, the result of `datetime_datetime_to_timestamp` is the date's Seconds
  Since the Epoch if and only if those fit 32 bits, that is before February 2106 (`ToTimestamp`,
  `FitsIff`); `NewYear2200` is a date for which it is not. It counts years in 8-bit counters: modulo
  2^32 it is right if and only if the year is at most 2306 (`ExactIff`).
- `furi_record_open` returns the data of the create that made the entry ready in every run if and only
  if no name is created both with NULL and with other data (`HonouredIff`). After a create with NULL a second create
  replaces the data of a ready entry, because the check looks at the pointer and not at the flag.
- The rounding error of a digital sequence stays within half a timer tick for every order of the
  signals if and only if every remainder of the bank lies in [0, 1562] (`ErrorBoundedIff`).
  A negative or too large remainder drifts without bound when it is repeated. `digital_signal_add_period`
  leaves every remainder from -781 to 780, so for built signals the condition is that none is negative
  (`BuiltErrorBoundedIff`); `NegativeRemainder` is an input.
- A duration smaller than the negative remainder before it wraps: the sum is a `uint32_t`, and a period
  of nearly 2^32 units is accepted. Nothing wraps exactly when the sum is in range (`NoWrapIff`);
  `ShortDurationWraps` is an input.
- A timer or tick with the interval 2^32 - 1 makes the loop wait without limit when the sleep is
  computed in the tick of its start, because that remaining time is `FuriWaitForever`
  (`furi/core/base.h:13`). For one state this happens exactly when everything that runs is such a clock
  (`TicksToSleep`, `WakesIff`); the sleep is bounded in every state exactly when no interval is 2^32 - 1
  (`AlwaysWakesIff`). `LongestTimer` is the input.
- A period lasts one timer tick more than its reload value, so every merged boundary makes the
  transmission one tick shorter than the unmerged one. The two waveforms on the pin are equal if and
  only if nothing merges (`PinExactIff`, `Transmit`); `MergeLosesATick` is the smallest case.
- Slot 0 of the ring holds the terminator only after the first transmission. The hardware starts on a
  slot nobody wrote if and only if the sequence is new and its signals merge into the one period that
  is held (`started` in `Transmit`); `FirstSinglePeriod` is the input.
- `bit_lib_test_parity_32` answers true for an odd number of ones under Even. Of the four modes of
  `bit_lib_test_parity` the only one that accepts everything `bit_lib_add_parity` wrote under a mode is
  the one with Even and Odd exchanged (`AcceptingModeIff`); what each of the others accepts is
  `AddedParityPasses`.
- The lengths of the parity functions are 8 bits wide. Adding parity and removing it gives the source
  back if and only if the result has fewer than 256 bits (`AddThenRemove`).
- An unaligned `bit_lib_get_bits` loads the following byte even when all wanted bits come from the
  first. A reader touches a byte with none of the wanted bits exactly when the position is unaligned
  and the last part fits one byte (`OverreadIff`). It stays inside the buffer exactly when the position
  is aligned or the byte behind its last step of eight bits exists (`ReaderInsideIff`);
  `OneByteOverread` is the smallest case.
- A 16-bit CRC with an even polynomial misses changes inside two bytes; with an odd one it detects
  every such change (`DetectsWindowsIff`). The same holds of an 8-bit CRC and one byte
  (`DetectsBytesIff`).

## How the model is set up

- Bit masks on aligned values are written as arithmetic: rounding to a multiple of 8, adding and
  subtracting the top bit. `BitModel` defines the bit operators on natural numbers and proves their
  bit-by-bit meaning; `Crc` and `CrcDivision` use bit-vectors.
- `furi_check` and `furi_crash` stop the device. A method reports them as a result (`ok`, `Crash`);
  malloc returns 0 where the code checks for out of memory. Checks on the calling thread and NULL
  objects are preconditions by typing.
- The linked, intrusive containers are sequences; the notification word is a set of bits.
- Time is nondeterministic and passes in user code too. Listed timers and the loop tick are assumed to
  be younger than 2^32 ticks, and a periodic timer is started with a positive interval.
- A wait with a limit that no bit ends lasts at least that many ticks.
- The DMA channel and the timer are steps that may happen any number of times during each wait.
  Filling a ring slot and writing the terminator behind it is one step. Runs of one level are
  assumed shorter than 2^32 - 1 ticks (`ShortRuns`), and the terminator's own period never ends.
- Polling loops with a timeout get the number of polls that fit into it as a parameter.
- User callbacks are finite scripts of calls to the loop's interface, pended callbacks included. A call
  that the code refuses stops the device; in the model it ends the callback and has no effect.
- A blocking queue call is modelled at the moment it succeeds or gives up.
- The record of an opener is kept beside the registry, so that "every close matches an open" is
  the rule of a legal run. Waiting for readiness is one step that is enabled when the flag is set.
- The product in the first step of `datetime_datetime_to_timestamp` is taken as 32-bit wrapping.

## Model

| member | source | states |
|---|---|---|
| HeapModel.CanonicalUnique | furi/core/memmgr_heap.c:614-659 | two ordered lists without touching blocks that cover the same bytes are the same list |
| HeapModel.InsertCanonical | furi/core/memmgr_heap.c:614-659 | coalescing insertion of a disjoint block leaves the list ordered and without touching blocks |
| HeapModel.InsertCovers | furi/core/memmgr_heap.c:614-659 | the list covers exactly the bytes it covered and those of the block |
| HeapModel.InsertTotal | furi/core/memmgr_heap.c:614-659 | insertion adds the size of the block to the sum of the free sizes |
| HeapModel.InsertApart | furi/core/memmgr_heap.c:629-659 | at its place, without a touching predecessor, the block joins its successor exactly when they touch |
| HeapModel.InsertJoined | furi/core/memmgr_heap.c:629-659 | behind a touching predecessor the block merges into it, and with a touching successor all three merge |
| HeapModel.TakeIsInsert | furi/core/memmgr_heap.c:412-435 | unlinking a block and inserting the rest of the split is cutting the block in place |
| HeapModel.TakeCovers | furi/core/memmgr_heap.c:406-435 | taking a block removes exactly the bytes of the granted part from the free bytes |
| HeapModel.MaxSizeIsMax | furi/core/memmgr_heap.c:222-237 | a size is at most the maximum exactly when some free block has it |
| HeapModel.MallocInv | furi/core/memmgr_heap.c:375-460 | malloc keeps order, alignment, coalescing, the tiling of the heap and both counters |
| HeapModel.FreeInv | furi/core/memmgr_heap.c:490-545 | free keeps order, alignment, coalescing, the tiling of the heap and both counters |
| HeapModel.RunKeepsInv | furi/core/memmgr_heap.c:339-545 | every run of legal calls keeps the invariant and the bounds, and the watermark is the minimum over the run |
| HeapModel.RunsFromInit | furi/core/memmgr_heap.c:568-611 | from initialisation on, the invariant holds after every run and the watermark is the lowest free count of the run |
| HeapModel.FreeListDetermined | furi/core/memmgr_heap.c:397-448 | two reachable heaps with the same allocated blocks have the same free list and count |
| HeapModel.RunsAgree | furi/core/memmgr_heap.c:339-545 | any two runs that end with the same allocated blocks end with the same free list |
| HeapModel.FreeOrderIrrelevant | furi/core/memmgr_heap.c:510-531 | freeing the same blocks in any two orders is legal and gives the same heap |
| HeapModel.MallocThenFree | furi/core/memmgr_heap.c:397-531 | freeing the result of malloc restores the free list, the map and the count, also through a split |
| HeapModel.AllFreedIsInitial | furi/core/memmgr_heap.c:596-606 | with nothing allocated the free list is the single initial block |
| HeapModel.FreeEverything | furi/core/memmgr_heap.c:510-531 | freeing all allocated blocks in any order yields one block from start to end |
| HeapModel.MallocSucceedsIff | furi/core/memmgr_heap.c:375-402 | a request succeeds exactly when it is nonzero with the top bit clear and its rounded size, the least multiple of 8 with room for the header, is at most the largest free block; a failed one changes nothing |
| HeapModel.MallocCutsIff | furi/core/memmgr_heap.c:416-435 | the block is cut to the rounded size exactly when more than 16 bytes would be left over |
| HeapModel.MallocGrants | furi/core/memmgr_heap.c:397-448 | the lowest fitting block is taken, aligned, disjoint from every owner, with at most heapMINIMUM_BLOCK_SIZE spare bytes |
| HeapMemory.Inserted | furi/core/memmgr_heap.c:629-659 | the header writes of an insertion, merged or not, make the bytes represent the coalesced list |
| HeapMemory.Relink | furi/core/memmgr_heap.c:629-659 | replacing a stretch of nodes by one block keeps the bytes a well-formed list ending in the end marker |
| HeapMemory.UnlinkNode | furi/core/memmgr_heap.c:412 | redirecting the predecessor's pointer removes exactly one node |
| MemmgrHeap.Heap.constructor | furi/core/memmgr_heap.c:96-109 | before the first malloc nothing is initialised |
| MemmgrHeap.Heap.HeapInit | furi/core/memmgr_heap.c:568-611 | the bytes represent one free block from the least multiple of 8 not below the start to the greatest one with 8 bytes behind it; no byte outside heap and list head changes |
| MemmgrHeap.Heap.FindPosition | furi/core/memmgr_heap.c:620-623 | the walk stops, before the end marker, at the node behind which the block belongs |
| MemmgrHeap.Heap.InsertBlock | furi/core/memmgr_heap.c:614-659 | the bytes represent the coalescing insertion; only headers and free bytes change |
| MemmgrHeap.Heap.LinkBlock | furi/core/memmgr_heap.c:626-659 | the new sizes and pointers in all four cases of touching neighbours; no other header changes |
| MemmgrHeap.Heap.MaxFreeBlock | furi/core/memmgr_heap.c:222-237 | the walk returns the largest free size |
| MemmgrHeap.Heap.FindFit | furi/core/memmgr_heap.c:397-406 | the walk returns the first fitting block and its predecessor, or the end marker when none fits |
| MemmgrHeap.Heap.CutBlock | furi/core/memmgr_heap.c:416-435 | the split leaves the wanted size in front and links the rest at its place |
| MemmgrHeap.Heap.TakeBlock | furi/core/memmgr_heap.c:406-448 | the block leaves the list, split when large enough, and is marked owned |
| MemmgrHeap.Heap.Grant | furi/core/memmgr_heap.c:371-460 | the new heap and the result are those of the specification, owned bytes are as before |
| MemmgrHeap.Heap.Malloc | furi/core/memmgr_heap.c:339-487 | new heap and result, requested bytes zero, bytes of every other owner and outside the heap unchanged; the heap fills the aligned range |
| MemmgrHeap.Heap.Free | furi/core/memmgr_heap.c:490-545 | new heap, freed payload zero, bytes of every other owner unchanged; NULL changes nothing |
| MemmgrHeap.Heap.Release | furi/core/memmgr_heap.c:503-531 | the owned block is wiped and back in the list, every other owner's byte is unchanged |
| EventTimers.ElapsedIsAge | furi/core/event_loop_timer.c:12-14 | the wrapping difference of ticks is the true age below 2^32 ticks |
| EventTimers.Timer.RemainingIs | furi/core/event_loop_timer.c:16-24 | the 32-bit remaining time is the true one |
| EventTimers.TimerLoop.FindPlace | furi/core/event_loop_timer.c:31-41 | the backward walk finds the last timer that is due no later |
| EventTimers.TimerLoop.InsertSorted | furi/core/event_loop_timer.c:26-51 | inserting there keeps the list sorted by remaining time and free of duplicates |
| EventTimers.TimerLoop.ScheduleTimer | furi/core/event_loop_timer.c:26-51 | the timer is linked behind all that are due no later, and the list invariant is kept |
| EventTimers.TimerLoop.StillSorted | furi/core/event_loop_timer.c:16-20 | a list sorted by remaining time stays sorted as time passes |
| EventTimers.TimerLoop.EnqueueRequest | furi/core/event_loop_timer.c:53-69 | the newest request replaces an older one, the timer is queued once, at the back, and the Timer bit is set |
| EventTimers.TimerLoop.Alloc | furi/core/event_loop_timer.c:147-168 | a new inactive timer without a request |
| EventTimers.TimerLoop.StartTimer | furi/core/event_loop_timer.c:177-184 | a start with the given interval is queued and announced |
| EventTimers.TimerLoop.RestartTimer | furi/core/event_loop_timer.c:186-193 | a start with the current interval is queued and announced |
| EventTimers.TimerLoop.StopTimer | furi/core/event_loop_timer.c:195-200 | a stop is queued and announced |
| EventTimers.TimerLoop.FreeTimer | furi/core/event_loop_timer.c:170-175 | a free is queued and announced |
| EventTimers.TimerLoop.TimerWaitTime | furi/core/event_loop_timer.c:75-84 | exactly the least remaining time of the listed timers, attained by one of them, or forever without any |
| EventTimers.Timer.LongestIsForever | furi/core/event_loop_timer.c:16-20 | the remaining time is the value that means forever exactly for the longest interval in the tick of the start |
| EventTimers.TimerLoop.ProcessRequest | furi/core/event_loop_timer.c:87-112 | the first request takes effect and no other timer changes |
| EventTimers.TimerLoop.ProcessStartAtOnce | furi/core/event_loop_timer.c:87-101 | a start carried out within one tick: the timer runs from this very tick |
| EventTimers.TimerLoop.ProcessTimerQueue | furi/core/event_loop_timer.c:86-113 | the queue is empty, every timer's last request has taken effect, timers without one are unchanged |
| EventTimers.TimerLoop.WholeIntervals | furi/core/event_loop_timer.c:128-131 | the start moves by whole intervals without overflow, so that the moment of the division lies in the new interval |
| EventTimers.TimerLoop.MoveStart | furi/core/event_loop_timer.c:128-131 | the 32-bit update is the true one: phase kept, now inside the new interval |
| EventTimers.TimerLoop.IsExpired | furi/core/event_loop_timer.c:22-24 | true exactly when the true interval is over |
| EventTimers.TimerLoop.Expire | furi/core/event_loop_timer.c:125-136 | the timer leaves the list; a periodic one moves by whole intervals into the running one and is listed again |
| EventTimers.TimerLoop.ProcessExpiredTimers | furi/core/event_loop_timer.c:115-141 | fires a timer with the least remaining time, once, exactly when it is due at the check; a periodic one keeps its phase, a one-shot becomes inactive; otherwise nothing that runs is due |
| EventTimers.TimerLoop.SetTick | furi/core/event_loop_tick.c:56-69 | the tick starts at the current moment |
| EventTimers.TimerLoop.InitTick | furi/core/event_loop_tick.c:29-33 | a set tick starts anew with the run |
| EventTimers.TimerLoop.TickWaitTime | furi/core/event_loop_tick.c:42-50 | the wait is the true remaining time of the tick, or forever |
| EventTimers.TimerLoop.ProcessTick | furi/core/event_loop_tick.c:35-40 | fires exactly when due and moves by exactly one interval |
| EventLoops.EventLoop.Pend | furi/core/event_loop.c:194-211 | the callback joins the pending queue and is announced |
| EventLoops.EventLoop.Perform | furi/core/event_loop_timer.c:147-200 | a call of user code is refused, or has exactly its effect; what it queues is announced |
| UserCode.RefusedIff | furi/core/event_loop_timer.c:170-200 | a call is refused exactly for a timer that is not there or being freed, a periodic start without an interval, or a tick callback without one |
| UserCode.FollowedToTheEnd | furi/core/event_loop_timer.c:138-140 | a callback that only pends, allocates and stops makes all its calls |
| UserCode.LastCallDecides | furi/core/event_loop_timer.c:53-69 | of the calls on a timer the last decides its request |
| UserCode.NoCallKeeps | furi/core/event_loop_timer.c:53-69 | a timer that no call names keeps request and intervals |
| UserCode.LastStartDecides | furi/core/event_loop_timer.c:177-193 | the last start or restart decides the next interval: the one given, or the timer's own |
| UserCode.LastTickDecides | furi/core/event_loop_tick.c:56-69 | the last setting of the tick decides its interval and callback, and it begins at the moment of that call |
| UserCode.NoTickKeeps | furi/core/event_loop_tick.c:56-69 | without one the tick is as it was |
| UserCode.PendsAndStops | furi/core/event_loop.c:183-211 | pended callbacks join the queue in the order of the calls; the stop bit is set exactly by a stop call |
| UserCode.AllocatedStays | furi/core/event_loop_timer.c:147-168 | an allocated timer is new, of the kind asked for, and stays |
| EventLoops.EventLoop.Execute | furi/core/event_loop_timer.c:138-140 | a callback, with time between its calls, makes all the calls of its script up to the first refused one, and the loop is changed by exactly their effects; what it queued is announced |
| EventLoops.EventLoop.RunPending | furi/core/event_loop.c:33-37 | the oldest pended callback leaves the queue and has made its calls |
| EventLoops.EventLoop.ProcessPending | furi/core/event_loop.c:32-38 | all pended callbacks, also those pended meanwhile, have run in the order they were pended, each with exactly the effects of its calls |
| EventLoops.EventLoop.TicksToSleep | furi/core/event_loop.c:118-120 | the sleep is the least remaining time of the active timers and the tick, attained by one of them; it is without limit exactly when all of them have the longest interval and started in this tick |
| EventLoops.EventLoop.SleepOfClocks | furi/core/event_loop.c:118-120 | a bound that is attained is the sleep of the clocks that run |
| EventLoops.EventLoop.Wait | furi/core/event_loop.c:122-124 | the set bits are taken, and a wait without any ends only after its ticks |
| EventLoops.EventLoop.WaitForWork | furi/core/event_loop.c:118-124 | a wait that no bit ends finds a timer or the tick due |
| EventLoops.LongestTimer | furi/core/event_loop.c:118-124 | one timer started with 2^32 - 1 ticks, its request carried out within the tick: the sleep is without limit |
| Waiting.SleepIsLeast | furi/core/event_loop.c:118-120 | the sleep is below every remaining time and attained, unless it is without limit |
| Waiting.ForeverIff | furi/core/event_loop_timer.c:75-84 | it is without limit exactly when every clock has the longest interval at age 0 |
| Waiting.WakesIff | furi/core/event_loop.c:118-124 | in a state the sleep is bounded for every clock exactly when nothing runs or one clock differs from that |
| Waiting.AlwaysWakesIff | furi/core/event_loop.c:118-124 | it is bounded for every clock in all states with the given intervals exactly when all are below 2^32 - 1 |
| Waiting.LongestSleepsForever | furi/core/event_loop.c:118-124 | the failing state with one clock |
| EventLoops.EventLoop.ServeFlags | furi/core/event_loop.c:128-172 | the branch taken serves its own source and gives the other bits back, so queued work stays announced; the event branch makes the calls of the queue's callback, the pending branch those of the pended ones, no other branch runs user code |
| EventLoops.EventLoop.ServeTime | furi/core/event_loop.c:174-176 | one timer due at the check or else the due tick is served and its callback makes its calls, nothing due is passed over, and no other timer changes |
| EventLoops.EventLoop.RunOnce | furi/core/event_loop.c:115-178 | queued work stays announced; a wait without bits serves something due, a timer before the tick, no other round does; the fired timer was active, due at the check and without a queued request; timers start only by start requests; a periodic timer and the tick move by their interval; the callbacks of the round, and no others, made the calls of their scripts with exactly their effects; Stop ends the run |
| EventLoops.EventLoop.FlagRound | furi/core/event_loop.c:126-172 | a round that took bits fires nothing and runs the callbacks of its branch |
| EventLoops.EventLoop.TimeRound | furi/core/event_loop.c:174-176 | a round whose wait ran out fires one timer or, when none is due, the tick, in phase, runs its callback and starts nothing |
| EventLoops.EventLoop.Run | furi/core/event_loop.c:106-181 | over all rounds: checks in order, firings due and never overlapping, firings of a timer that was not started anew and of a tick that was not set anew differ by whole intervals, the first tick by whole intervals from the beginning; a wait that runs out always serves something; every round served its callbacks and began with what the one before left; the pended callbacks are those the calls pended, run in order; a stop call ends the run with the next round, and Stop is the last round |
| EventLoops.ServedPends | furi/core/event_loop.c:126-178 | a round pends exactly what its calls pended, and the stop bit is set exactly by a stop call |
| WakeUp.StepInv | furi/core/event_loop.c:115-178 | every step of any thread keeps the wake-up invariant |
| WakeUp.RunInv | furi/core/event_loop.c:115-178 | every run keeps it |
| WakeUp.NoLostWakeUp | furi/core/event_loop.c:217-365 | in every interleaving a nonzero level is being processed, listed and signalled, or owed a notice; the item is listed at most once |
| WakeUp.StaysUnderway | furi/core/event_loop.c:122-158 | on the way to the callback no step of another thread sets the loop back |
| WakeUp.SleepsOnlyWhenIdle | furi/core/event_loop.c:122-124 | a loop asleep with a nonzero level is owed a notice |
| WakeUp.LevelIsServed | furi/core/event_loop.c:84-162 | in every interleaving while the level stays nonzero the loop can go on, and after its next three steps it is in the callback |
| WakeUp.OtherBitsSurvive | furi/core/event_loop.c:99-172 | a timer or pending bit is cleared only by the branch that serves it |
| MessageQueues.Subscription.constructor | furi/core/event_loop.c:217-256 | subscribing to a queue with a nonzero level announces the item |
| MessageQueues.Subscription.GetLevel | furi/core/message_queue.c:217-228 | the level is the count for In and the space for Out |
| MessageQueues.Subscription.ItemNotify | furi/core/event_loop.c:333-349 | the item is listed once and the Event bit set |
| MessageQueues.Subscription.LinkNotify | furi/core/event_loop.c:351-365 | the notify step of the state machine |
| MessageQueues.Subscription.Put | furi/core/message_queue.c:58-100 | exact condition of every status: parameter, timeout on a full queue, no resource at once, success; appends and notifies In, or changes nothing |
| MessageQueues.Subscription.Get | furi/core/message_queue.c:102-142 | exact condition of every status: parameter, timeout on an empty queue, no resource at once, success; takes the oldest and notifies Out, or changes nothing |
| MessageQueues.Subscription.Reset | furi/core/message_queue.c:190-209 | empties and notifies Out, or refuses in an interrupt |
| MessageQueues.Subscription.TakeFlags | furi/core/event_loop.c:122-133 | the wait step of the state machine |
| MessageQueues.Subscription.PopItem | furi/core/event_loop.c:134-142 | the pop step of the state machine |
| MessageQueues.Subscription.PollItem | furi/core/event_loop.c:84-97 | the poll step: the callback runs exactly when the level is nonzero |
| MessageQueues.Subscription.PushItem | furi/core/event_loop.c:333-342 | the first half of the loop's own notify |
| MessageQueues.Subscription.SignalItem | furi/core/event_loop.c:344-348 | the second half of the loop's own notify |
| MessageQueues.Subscription.CallbackReturns | furi/core/event_loop.c:92-96 | the callback's answer decides between polling again and calling later |
| MessageQueues.Subscription.RestoreBits | furi/core/event_loop.c:99-104 | the other bits are given back |
| MessageQueues.Subscription.OtherStep | furi/core/message_queue.c:58-209 | one critical section of another thread is its step of the state machine |
| MessageQueues.Subscription.ProcessItem | furi/core/event_loop.c:144-158 | polls and callbacks alternate until the level is zero or the callback asks for a later call, with other threads in between |
| MessageQueues.Subscription.EventBranch | furi/core/event_loop.c:133-162 | the branch is a run of the state machine whose own steps are pop, the item loop and the restore |
| MessageQueues.Subscription.Round | furi/core/event_loop.c:122-172 | every wake-up is such a run, so it keeps the wake-up invariant under any interference |
| WaveModel.CorrectionsConserve | lib/digital_signal/digital_sequence.c:360-365 | remainder plus T_TIM times the extra ticks is the sum of the remainders so far |
| WaveModel.ErrorBounded | lib/digital_signal/digital_sequence.c:360-365 | with remainders in [0, T_TIM] the error stays in [-T_TIM/2, T_TIM/2) |
| WaveModel.ErrorBoundedIff | lib/digital_signal/digital_sequence.c:360-365 | it stays there for every sequence of signals exactly when every remainder of the bank is in [0, T_TIM] |
| WaveModel.WaveInjective | lib/digital_signal/digital_sequence.c:296-368 | positive periods are determined by the waveform, so equal waveforms mean equal ring contents |
| WaveModel.WaveLength | lib/digital_signal/digital_sequence.c:296-368 | the length of the waveform is the sum of the periods |
| WaveModel.NoMerges | lib/digital_signal/digital_sequence.c:296-368 | without merged boundaries all periods of the signals follow each other, on the pin too |
| WaveModel.PinExactIff | lib/digital_signal/digital_sequence.c:296-368 | in timer ticks the transmission is shorter than the unmerged one by the number of merges, and equal to it exactly when nothing merges |
| WaveModel.TransmissionLasts | lib/digital_signal/digital_sequence.c:296-368 | the ticks of a transmission, one more for every merge, the rounding error carried to the last signal and its remainder are exactly what the signals were built to last; that error stays within half a tick for remainders in [0, T_TIM] |
| WaveModel.MergeLosesATick | lib/digital_signal/digital_sequence.c:314-327 | two one-unit signals of one level take three ticks instead of four |
| DigitalSignals.Quantised | lib/digital_signal/digital_signal.c:46-52 | the rounding to ticks loses nothing and leaves at most half a tick to either side |
| DigitalSignals.QuantisedUnique | lib/digital_signal/digital_signal.c:46-52 | it is the only such rounding |
| DigitalSignals.RemaindersReached | lib/digital_signal/digital_signal.c:40-58 | every remainder from -781 to 780 occurs |
| DigitalSignals.LongEnoughIff | lib/digital_signal/digital_signal.c:46-54 | a period is accepted exactly from one and a half ticks on |
| DigitalSignals.BuiltErrorBoundedIff | lib/digital_signal/digital_signal.c:40-58 | for built signals the error of every sequence is bounded exactly when no remainder is negative |
| DigitalSignals.DigitalSignal.constructor | lib/digital_signal/digital_signal.c:8-14 | a new signal is empty and has nothing left over |
| DigitalSignals.DigitalSignal.AddPeriod | lib/digital_signal/digital_signal.c:40-58 | exact condition of success; period and remainder hold the 32-bit sum of the duration and the old remainder |
| DigitalSignals.DigitalSignal.ExtendLastPeriod | lib/digital_signal/digital_signal.c:60-78 | the same for the last period grown in place |
| DigitalSignals.DigitalSignal.AddPeriodWithLevel | lib/digital_signal/digital_signal.c:80-95 | exact condition of success; the signal ends at the given level, with a new period exactly when the level changes, the last one grown otherwise, and older periods as they were |
| DigitalSignals.DigitalSignal.NoWrapIff | lib/digital_signal/digital_signal.c:44 | the sum does not wrap exactly when it is in range, as it is for durations from half a tick up |
| DigitalSignals.DigitalSignal.PinLastsAsAsked | lib/digital_signal/digital_signal.c:40-78 | on the pin, ticks times their length plus the remainder are the durations asked for, up to wraps |
| DigitalSignals.NegativeRemainder | lib/digital_signal/digital_signal.c:40-58 | 3123 units leave a remainder of -1 |
| DigitalSignals.ShortDurationWraps | lib/digital_signal/digital_signal.c:40-58 | a duration of 0 behind it becomes a period of nearly 2^32 units |
| DigitalSequences.DigitalSequence.constructor | lib/digital_signal/digital_sequence.c:64-107 | a new ring holds zeros, not the terminator |
| DigitalSequences.DigitalSequence.WaitForRoom | lib/digital_signal/digital_sequence.c:231-266 | a wait ends with more than two free slots, or only after more than the given number of polls, or when the terminator was met; with room there is space for a period and a terminator |
| DigitalSequences.DigitalSequence.EnqueuePeriod | lib/digital_signal/digital_sequence.c:228-275 | in every case the period goes to the slot at the write position, the terminator to the next one, and no other slot changes; a running hardware is waited for once; unless a wait gave up no unread slot is overwritten |
| DigitalSequences.DigitalSequence.StorePeriod | lib/digital_signal/digital_sequence.c:268-274 | the two stores keep the last 127 periods in the ring |
| DigitalSequences.DigitalSequence.Start | lib/digital_signal/digital_sequence.c:134-164 | the hardware starts on slot 0, which is the first period unless nothing was written |
| DigitalSequences.DigitalSequence.Finish | lib/digital_signal/digital_sequence.c:198-226 | true exactly when the terminator was seen, which means that every enqueued period was emitted unless a wait gave up; false only after more than the given number of polls |
| DigitalSequences.DigitalSequence.PutPeriod | lib/digital_signal/digital_sequence.c:325-344 | a period without carry is enqueued; the hardware runs once the ring is nearly full or the data ends |
| DigitalSequences.DigitalSequence.TransmitSignal | lib/digital_signal/digital_sequence.c:303-355 | the signal's waveform behind the carried ticks is what was sent plus what is still held |
| DigitalSequences.DigitalSequence.TransmitNext | lib/digital_signal/digital_sequence.c:296-368 | one signal and its correction advance the transmission of the whole sequence by one signal |
| DigitalSequences.DigitalSequence.TransmitAll | lib/digital_signal/digital_sequence.c:296-368 | the enqueued periods and the held one denote the full corrected waveform |
| DigitalSequences.DigitalSequence.Transmit | lib/digital_signal/digital_sequence.c:283-376 | levels alternate from the first start level, the periods denote the waveform, in timer ticks exactly the merges are lost and the duration is the one asked for but for them and the last rounding, the final level is the last signal's; every period behind the first 126 waited once and no wait gave up without reason; the ring holds the last periods whatever the hardware did; unless a wait gave up the emitted periods are a prefix exactly unless a new sequence merges into its one held period |
| DigitalSequences.FirstSinglePeriod | lib/digital_signal/digital_sequence.c:283-376 | a new sequence with one signal of one period starts on a slot nobody wrote and emits a period nobody enqueued |
| DigitalSequences.DigitalSequence.Begin | lib/digital_signal/digital_sequence.c:174-196 | the two pin words start with the first signal's level |
| DigitalSequences.DigitalSequence.Reset | lib/digital_signal/digital_sequence.c:277-281 | slot 0 is the terminator and both positions are 0 |
| BitReading.ByteBit | lib/bit_lib/bit_lib.c:32-34 | position k is bit k mod 8 of its byte, most significant first |
| BitReading.TwoByteRead | lib/bit_lib/bit_lib.c:36-47 | the two shifted bytes of an unaligned read join to the eight bits at the position |
| BitReading.GetBitsIsFold | lib/bit_lib/bit_lib.c:36-47 | get_bits is the big-endian fold of get_bit |
| BitReading.GetBits16IsFold | lib/bit_lib/bit_lib.c:49-58 | get_bits_16 is the same fold |
| BitReading.GetBits32IsFold | lib/bit_lib/bit_lib.c:60-79 | get_bits_32 is the same fold |
| BitReading.GetBits64IsFold | lib/bit_lib/bit_lib.c:81-130 | get_bits_64 is the same fold |
| BitReading.ReadersAgree | lib/bit_lib/bit_lib.c:36-130 | the four readers agree on shared lengths and stay below 2^length |
| BitReading.ReaderInsideIff | lib/bit_lib/bit_lib.c:36-130 | the readers stay inside the buffer exactly when the position is aligned or the byte behind the last step exists |
| BitReading.OverreadIff | lib/bit_lib/bit_lib.c:36-130 | a byte without wanted bits is touched exactly when the position is unaligned and the last part fits one byte |
| BitReading.OneByteOverread | lib/bit_lib/bit_lib.c:36-47 | one bit of a one-byte buffer for which the following byte is loaded |
| BitWriting.SetMask | lib/bit_lib/bit_lib.c:14-20 | the mask operations change exactly one bit of the byte |
| BitWriting.SetBit | lib/bit_lib/bit_lib.c:14-20 | the bit is set, no other bit of the buffer changes |
| BitWriting.SetBits | lib/bit_lib/bit_lib.c:22-30 | the low bits are stored in order, no other bit changes |
| BitWriting.StoredIsLoaded | lib/bit_lib/bit_lib.c:22-47 | reading back what was written gives the low bits written |
| BitWriting.CopyWord | lib/bit_lib/bit_lib.c:193-198 | the word is copied bit by bit and collected modulo 2^32 |
| BitWriting.AddParity | lib/bit_lib/bit_lib.c:183-220 | the destination holds every word followed by its parity bit; nothing else changes |
| BitWriting.TestParity | lib/bit_lib/bit_lib.c:147-181 | true exactly when every whole block passes its parity |
| BitWriting.RemoveBitEveryNth | lib/bit_lib/bit_lib.c:222-248 | the in-place compaction leaves the bits without every n-th; bits behind the result are unchanged |
| BitWriting.AddThenRemove | lib/bit_lib/bit_lib.c:183-248 | adding and removing parity gives the source back if and only if the result fits in 255 bits |
| BitWriting.AddThenTest | lib/bit_lib/bit_lib.c:147-220 | under every test mode the written blocks are accepted exactly when the source bits are as that mode requires, wherever the test can read them; the exchanged mode always accepts |
| ParityModel.RemoveUndoesAdd | lib/bit_lib/bit_lib.c:183-248 | dropping every (n+1)-th bit of a parity-coded sequence is the source |
| ParityModel.BlockWeight | lib/bit_lib/bit_lib.c:199-214 | Even blocks have even weight, Odd blocks odd weight, the marker modes their marker |
| ParityModel.AddedParityPasses | lib/bit_lib/bit_lib.c:132-214 | for every pair of modes the written blocks pass exactly when each source block has the parity of ones the pair requires |
| ParityModel.AcceptingModeIff | lib/bit_lib/bit_lib.c:132-214 | a test mode accepts every source exactly when it is the exchanged mode |
| CrcModel.ReversalsAgree | lib/bit_lib/bit_lib.c:334-360 | the 8- and 16-bit reversals agree and are their own inverses |
| CrcDivision.Mirrored8 | lib/bit_lib/bit_lib.c:334-347 | the reflected byte has its bits in the opposite order |
| CrcDivision.Mirrored16 | lib/bit_lib/bit_lib.c:349-360 | the reversed word has its bits in the opposite order |
| CrcModel.Crc16Linear | lib/bit_lib/bit_lib.c:392-418 | the CRC of an exclusive or is the exclusive or of the CRCs, in message, start value and final mask, with any reflection |
| CrcModel.Crc8Linear | lib/bit_lib/bit_lib.c:362-390 | the same for the 8-bit CRC |
| CrcModel.Crc16Residue | lib/bit_lib/bit_lib.c:392-418 | a message followed by its own big-endian CRC has CRC 0 |
| CrcModel.Crc8Residue | lib/bit_lib/bit_lib.c:362-390 | the same for the 8-bit CRC |
| CrcModel.ReflectedFold | lib/bit_lib/bit_lib.c:400-405 | reflecting the input is running the register over the reflected bytes |
| CrcDivision.RemainderIff | lib/bit_lib/bit_lib.c:362-418 | a feedback register that takes the message bit by bit holds the remainder of the polynomial division, and there is only one remainder |
| CrcDivision.Crc16IsRemainder | lib/bit_lib/bit_lib.c:392-418 | a word is the CRC exactly when, with mask and reflection taken back, it is the remainder of the message, its bytes reflected or not, on division by x^16 plus the polynomial |
| CrcDivision.Crc8IsRemainder | lib/bit_lib/bit_lib.c:362-390 | the same for the 8-bit CRC and x^8 |
| CrcDivision.OneIsPolynomial | lib/bit_lib/bit_lib.c:362-418 | the CRC of a single one bit is the polynomial |
| CrcModel.DetectsWindowsIff | lib/bit_lib/bit_lib.c:392-418 | with any start value, reflection and final mask all changes within two neighbouring bytes of any message are detected exactly when the polynomial is odd |
| CrcModel.DetectsBytesIff | lib/bit_lib/bit_lib.c:362-390 | with any start value, reflection and final mask all changes within one byte of any message are detected by the 8-bit CRC exactly when the polynomial is odd |
| Crc.ComputeCrc16 | lib/bit_lib/bit_lib.c:392-418 | the loops compute the specified CRC |
| Crc.ComputeCrc8 | lib/bit_lib/bit_lib.c:362-390 | the loops compute the specified CRC |
| Crc.ReverseByte | lib/bit_lib/bit_lib.c:261-272 | the swap loop over a byte is its fast reversal |
| DateTimes.DaysBeforeYearClosed | lib/datetime/datetime.c:47-53 | the days counted year by year are the closed form of the standard |
| DateTimes.MonthLengths | lib/datetime/datetime.c:12-14 | the lengths of the twelve months in closed form |
| DateTimes.MonthStartIsTable | lib/datetime/datetime.c:58-61 | the days before a month in closed form are the sum of the table |
| DateTimes.PosixIsDays | lib/datetime/datetime.c:55-67 | the standard's expression, with the day of the year in closed form, is days times 86400 plus the seconds of the day |
| DateTimes.PosixInjective | lib/datetime/datetime.c:72-97 | different valid dates have different Seconds Since the Epoch |
| DateTimes.YearsSplit | lib/datetime/datetime.c:47-56 | plain and leap years add up to the years and their days |
| DateTimes.CountersExactIff | lib/datetime/datetime.c:44-56 | modulo 2^32 the 8-bit counters give the right seconds exactly up to 2306 |
| DateTimes.ExactIff | lib/datetime/datetime.c:40-70 | modulo 2^32 the whole conversion is right exactly up to 2306 |
| DateTimes.FitsIff | lib/datetime/datetime.c:40-70 | the whole conversion is the Seconds Since the Epoch exactly when they fit 32 bits |
| DateTimes.NewYear2200 | lib/datetime/datetime.c:40-70 | a valid date before 2306 whose seconds do not fit |
| DateTimes.DateTime.SplitYears | lib/datetime/datetime.c:77-83 | the loop ends in the year that contains the day |
| DateTimes.DateTime.SplitMonths | lib/datetime/datetime.c:85-91 | the month index stays in 1..12 and the rest is a day of that month |
| DateTimes.DateTime.FromTimestamp | lib/datetime/datetime.c:72-97 | the date is valid, its Seconds Since the Epoch are the timestamp, the weekday follows |
| DateTimes.DateTime.CountYears | lib/datetime/datetime.c:47-53 | the counters are the plain and leap years modulo 256 |
| DateTimes.DateTime.ToTimestamp | lib/datetime/datetime.c:40-70 | for a valid date the result is the standard's value exactly when that fits 32 bits, and modulo 2^32 exactly when the year is at most 2306 |
| DateTimes.RoundTrip | lib/datetime/datetime.c:40-97 | every 32-bit timestamp comes back from its date |
| DateTimes.DateRoundTrip | lib/datetime/datetime.c:40-97 | every valid date of the 32-bit range comes back from its timestamp |
| RecordModel.StepInv | furi/core/record.c:80-148 | every legal step keeps holder counts, readiness and makers; only create and destroy can stop the device |
| RecordModel.OpenersKeepTheirEntry | furi/core/record.c:95-148 | no entry is erased or remade while an opener waits or holds |
| RecordModel.AllRuns | furi/core/record.c:45-148 | in every interleaving the holders are the waiting and holding openers and every entry is ready or held |
| RecordModel.RunHonours | furi/core/record.c:80-135 | with unambiguous data for every name every open returns the data of the create that made the entry ready |
| RecordModel.HonouredIff | furi/core/record.c:80-135 | it does so in every run exactly when no name mixes NULL with other data |
| RecordModel.ConfusingRunResult | furi/core/record.c:80-135 | a run in which an open returns other data than its maker's |
| Record.FuriRecord.GetOrCreateData | furi/core/record.c:45-57 | the entry of the name, made when missing |
| Record.FuriRecord.Create | furi/core/record.c:80-93 | the create step: it stops exactly when data is set, otherwise the entry is ready with the data and its holders, and no other entry changes |
| Record.FuriRecord.Destroy | furi/core/record.c:95-113 | the destroy step: it stops for a missing entry, erases an unheld one, keeps a held one and says which; no other entry changes |
| Record.FuriRecord.OpenBegin | furi/core/record.c:115-125 | the counted, not yet returned open: one holder more, the entry made when missing, no other entry changed |
| Record.FuriRecord.OpenReturn | furi/core/record.c:126-135 | the opener gets the entry's data |
| Record.FuriRecord.Close | furi/core/record.c:137-148 | the close step: one holder less, no other entry changed; under the invariant it never stops the device |
| StdoutModel.StepAccounts | furi/core/thread.c:651-713 | one call adds exactly its bytes under the callback of that moment and leaves no newline buffered |
| StdoutModel.WriteDelivers | furi/core/thread.c:683-706 | an unfinished line stays buffered; otherwise exactly the whole lines are delivered |
| StdoutModel.RunAccounts | furi/core/thread.c:651-713 | for every sequence of calls delivered plus buffered bytes are all bytes written, in order, each under its own callback |
| StdoutModel.FlushedRun | furi/core/thread.c:651-713 | after a final flush exactly what was written has been delivered |
| ThreadStdout.Output.Flush | furi/core/thread.c:660-668 | a nonempty buffer goes to the callback |
| ThreadStdout.Output.SetCallback | furi/core/thread.c:670-675 | the buffer goes to the old callback before the change |
| ThreadStdout.Output.PushAll | furi/core/thread.c:693-702 | the byte loop delivers exactly the full lines |
| ThreadStdout.Output.Write | furi/core/thread.c:683-706 | both ways of writing have the effect of the write step; empty writes flush |

## Left out

- Thread tracing of the heap: an entry goes stale when another thread frees the block.
- realloc, calloc, aligned allocation and the printing of free blocks.
- Several subscriptions on one loop: one Event bit serves one item, so a waiting list may outlive
  its bit; also unsubscribing, and running a loop again after Stop.
- Event sources other than message queues, and what user callbacks do besides calling the loop.
- EventLoops.EventLoop.Execute: the device stops at a refused call; the model ends the callback there
  and goes on.
- Periodic timers with interval 0, which divide by zero when they expire.
- EventTimers.TimerLoop.TimePasses: the age of listed timers is kept below 2^32 ticks by the
  choice of the step, because beyond it the 32-bit clock cannot tell ages apart.
- EventLoops.EventLoop.RunOnce: the bits set by other threads arrive during the wait; the
  interleaving inside a round is the subject of `WakeUp`.
- DigitalSequences.DigitalSequence.Transmit: does not model overflow of the 32-bit remainder and
  period sums, or the second half of a terminator period of 2^32 ticks.
- Registering signals in a sequence and queueing their numbers.
- BitWriting.AddParity: the value is stated for parity lengths of at least 2; below that the loop
  of the source does not advance.
- BitWriting.AddThenTest: results longer than 255 bits are excluded, because the test's length
  parameter cannot express them.
- Bit shifting of whole buffers, bit copying, in-place reversal over many bits, conversion between
  numbers, bytes and BCD, and printing: plain loops over the proved single-bit operations.
- Validation of a date, and years before 1970.
- The record flag's kernel object: waiting is a step enabled by the flag.
- The rest of threads (start, join, flags, lists), logging, mutexes, semaphores and the other thin
  wrappers over the kernel.
