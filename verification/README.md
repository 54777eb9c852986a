# Verification of libcr

libcr is a single-threaded coroutine runtime: a pool of tasks, a nested resume/yield call stack, an
event loop over epoll, a timer wheel made of intrusive lists, and a hand-written register swap. A
suspended coroutine is reachable only through its timer node, an epoll registration or a free-list
link. This project models those parts in Dafny and proves that they work together: no coroutine is
lost, duplicated or woken twice, no deadline is missed, and no registration outlives its poll.

## How the modules build on each other

- `IntrusiveList`, `EpollTimer`, `EventLoop`: the lists, the wheel and the parts of a loop iteration on
  the heap, as classes updated in place. Their methods are proved equal to functions on values.
- `TimerWheel`, `TimerSpec`, `LoopViews`: those functions. The wheel refines a plain collection of
  (item, expire) pairs: adding appends, removing deletes, a tick takes what is due in stable deadline
  order.
- `WheelBounds`: when the wheel's index arithmetic is defined in C, which is what the heap wheel
  requires, and that it is on every sane history.
- `Scheduler`: the step machine. Its state is the call stack, the pool, the collection of `TimerSpec`,
  the two loop lists, the polls in progress, the registrations and the loop phase. User code, the
  kernel and the clock choose the step labels freely, within the assumptions listed below.
- `SchedulerInvariant`: one inductive invariant of ten parts, kept by every step.
- `SchedulerRuns`, `BudgetRuns`, `RegistrationRuns`, `ReportRuns`: theorems about every run. Budgets,
  reports, phases and the last tick are compared with what an onlooker reads off the labels of the run.
- `LoopSteps`: the heap's wheel and lists follow every run of the scheduler (`LoopOfEveryRun`). A view
  of the heap changes by the functions of `LoopViews`, which the methods of `EventLoop` are proved to
  compute, and stays related to the scheduler's state; the preconditions of those methods hold at every
  step (`LoopIsReady`).
- `ContextSwitch`, `ContextRuns`: the x86-64 swap instruction by instruction, and any interleaving of
  swaps among any number of contexts.
- `StackRuns`: the scheduler's call stack on top of those swaps.
- `PollRegistry`, `EventMask`, `TaskBudget`, `TaskPool`: what the steps use, each also in the form in
  which the code updates it.
- `IdMap`, `PartialWrite`: the bitmap id allocator and the transfer loop of the write hooks.
- `CInt`: `int` truncation and remainders. `TaskStates`: the states of a task.

## Assumptions

- The kernel keeps one registration per descriptor number, reports only registrations that exist, each
  at most once per batch, with non-zero events among those requested plus error and hang-up.
- Clock readings may run backwards and stay within `int` range of the wheel's last tick, and no
  addition starts the wheel at reading 0. `TickExactIff` and `AddExactIff` show that this is exactly
  what the wheel needs.
- A poll's array of descriptors is not changed by others while the poll is in progress.
- A node's deadline is written before the node is first linked, as `poll_inner` does it.
- Running code writes no register block, and of another coroutine's stack only words that the owner has
  lent out, as `poll_inner` lends out its poll context and timer node (`ContextRuns`).

## Reading of C

- A 64-bit value stored in an `int` (the count of a tick, the distance of an addition, the time charged
  to a task) keeps its low 32 bits.
- `leftmsec -= diff` wraps around like the conversion before it. The readings of `EarlyTaskMischarged` do
  not depend on that: their subtractions stay in range.
- The sums of `start_idx`, a `long long`, are required to stay in range, and a negative remainder is
  required not to be used as an index. `WheelBounds` says when that holds.

## Findings

- The 128 slots of the call stack suffice for every run exactly when the pool has at most 127 tasks
  (`StackFitsIff`); the default pool has 1000.
- A tick after a gap whose length does not survive the conversion to `int` leaves overdue nodes behind
  (`TickExactIff`).
- A tick whose elapsed count is 0 as an `int`, when `start_idx` is 0, makes `start_idx` negative
  (`IndexTurnsNegativeIff`), after which the code indexes before the first bucket (`NegativeIndexIsOut`).
  On runs with ticks in range this never happens: `start_idx` stays between 0 and the elapsed time, and
  every index is defined while the clock is within 2^63 ms of its first reading (`LoopIsReady`).
- A clock reading of 0 is taken for "not started": a node added to such a wheel comes out late by the
  time of the first tick (`ZeroClockMissesDeadline`). `AddExactIff` gives the exact condition.
- A task started before the event loop is charged from clock 0. A charge is exact if and only if the
  remainder fits an `int` (`ChargeExactIff`, and along runs `BudgetExactAlongIff`); for a task of 5
  seconds that parks before the loop that means a clock of at most 2^31 + 5000 ms (`EarlyTaskIff`). With
  today's readings the remainder is arbitrary: at one the budget grows, at another it is gone
  (`EarlyTaskMischarged`).
- A poll that returns or is refused also removes what other polls have registered for its descriptors
  (`DelAllExact`, `AddThenDel`), so a parked poll keeps its registration only under the condition of
  `OwnRegistrationIff`; `RegistrationTakenAway` is a run in which it loses it.
- The id allocator promises 32768 ids; with 8-byte words ids share bits and at most 4096 are ever live
  (`LiveFits`, `SlotsDistinctIff`). Freeing an id that is not live leaves the counter too high (`Free`),
  and with 8-byte words it can clear the bit of a live one (`ClearedIff`).
- The comment above `fix_coroutine_timeout` says that a negative result means no limit; the code never
  returns -1, it clamps to 10 milliseconds. The model follows the code (`EffectiveWait`).

## Model

| member | source | states |
|---|---|---|
| IntrusiveList.TimerList.AddTail | src/epoll.c:156-172 | appends the node unless it is in some list already; links, ends and parents stay consistent; every other list in the heap is unchanged |
| IntrusiveList.TimerList.PopHead | src/epoll.c:84-102 | the list loses its first node, which ends up unlinked; an empty list stays empty; every other list is unchanged |
| IntrusiveList.TimerList.Join | src/epoll.c:104-126 | concatenation, the other list is left empty, moved nodes change parent, every third list is unchanged |
| IntrusiveList.TimerList.MarkTimeouts | src/epoll.c:250-254 | every node of the list is marked timed out and the list is as before |
| IntrusiveList.RemoveFromLink | src/epoll.c:174-202 | deletes the node from whatever place of its list it is in; a node in no list is untouched; every other list is unchanged |
| TimerSpec.StableSortSorts | src/epoll.c:146-150 | the reference order of a tick is a permutation sorted by deadline |
| TimerSpec.StableSortKeepsTies | src/epoll.c:146-150 | the reference order keeps insertion order among equal deadlines |
| TimerSpec.StableOrderUnique | src/epoll.c:146-150 | sortedness and tie order determine the order completely |
| TimerWheel.AddVerdictIff | src/epoll.c:279-290 | the truncated distance gives the collection's verdict if and only if it is in range |
| TimerWheel.AddRefines | src/epoll.c:274-295 | a safe addition to the wheel is appending to the collection, with the same verdict, and every node sits in bucket (start_idx + expire - start) mod size |
| TimerWheel.AddExactIff | src/epoll.c:274-295 | whatever the wheel holds, an addition gets verdict and filing right if and only if its distance is in range and it is not an accepted one at reading 0 on a wheel not started |
| TimerWheel.RemoveRefines | src/epoll.c:174-202 | removing a node from its bucket is deleting it from the collection |
| TimerWheel.TickRefines | src/epoll.c:128-154 | a tick at any later time, also beyond a lap, removes exactly the due nodes and returns them in stable deadline order; a clock that ran backwards, or reads 0, removes none |
| TimerWheel.TickExactIff | src/epoll.c:134-144 | the int count makes ticks exact for every content of the wheel if and only if the gap is in range |
| TimerWheel.ZeroClockMissesDeadline | src/epoll.c:129-132 | a node added at reading 0 to a wheel not started is delivered exactly as late as the first tick was, for every size, deadline and tick |
| TimerWheel.FirstReadingStarts | src/epoll.c:129-132 | a wheel not started takes the first reading as its start and bucket 0 for that time, in a tick and in an addition |
| TimerWheel.HistoryRefines | src/epoll.c:128-295 | over any sequence of safe adds, removes and in-range ticks the wheel and the collection give the same answers and stay related |
| WheelBounds.RawIndexIsBucket | src/epoll.c:148-292 | where C's remainder of the 64-bit sum is a defined index it is the bucket of the model |
| WheelBounds.TickDefinedIff | src/epoll.c:146-153 | from a start index that is not negative a tick computes only defined indices if and only if the new start index fits a long long |
| WheelBounds.AddDefinedIff | src/epoll.c:286-292 | an addition in range computes a defined index if and only if it is refused or the sum fits a long long |
| WheelBounds.IndexTurnsNegativeIff | src/epoll.c:138-153 | a tick makes the start index negative if and only if it is 0 and the elapsed count is 0 as an int |
| WheelBounds.NegativeIndexIsOut | src/epoll.c:146-153 | after that, an addition due at once and every tick that scans use an index before the first bucket |
| WheelBounds.HistoryIsDefined | src/epoll.c:128-295 | over any sane history of additions, removals and ticks within 2^63 ms every index is defined, and start_idx stays between 0 and the elapsed time |
| EpollTimer.Timer.constructor | src/epoll.c:40-53 | every bucket is empty and the clock reading is the start |
| EpollTimer.Timer.AddTimeout | src/epoll.c:274-295 | the heap wheel changes and answers as the wheel on values does, for every call whose index is defined in C |
| EpollTimer.Timer.TakeAllTimeout | src/epoll.c:128-154 | the heap wheel changes as the wheel on values does, and the result list grows by what that wheel returns, in order, for every call whose indices are defined in C |
| EpollTimer.Buckets.Remove | src/epoll.c:174-202 | a node leaves its bucket and no other bucket changes |
| EventLoop.EpollContext.constructor | src/epoll.c:60-71 | a wheel of 60000 empty buckets, two empty lists, loop clock 0 |
| EventLoop.EpollContext.ClearTimeouts | src/epoll.c:236 | the timeout list is empty and all else as before; nodes that were in it are in no list and still name it |
| EventLoop.EpollContext.PreparePollEvent | src/coroutine_impl.c:284-296 | the entry shows the event bit by bit, the other entries stay, the event is counted; the first one moves the poll's node from the wheel to the end of the active list, later ones move nothing |
| EventLoop.EpollContext.Tick | src/epoll.c:246-256 | the due nodes come behind the nodes that events made active, exactly they are marked, and the timeout list is empty again |
| EventLoop.EpollContext.PopActive | src/epoll.c:258-262 | the head is returned unlinked and the rest of the loop's state is unchanged |
| LoopSteps.PrepareMatches | src/coroutine_impl.c:284-296 | preparing an event keeps the loop in memory related to the scheduler |
| LoopSteps.EventIsFiled | src/coroutine_impl.c:291-295 | the node that the first event unlinks is in the wheel |
| LoopSteps.TakeMatches | src/epoll.c:246-248 | taking what is due keeps them related: the same nodes in the same order |
| LoopSteps.MarkMatches | src/epoll.c:250-254 | a node is in the list that gets marked if and only if the scheduler has its poll there |
| LoopSteps.ResumeMatches | src/epoll.c:258-266 | the node popped is that of the poll the scheduler resumes, and they stay related |
| LoopSteps.ParkMatches | src/coroutine_impl.c:410-412 | the wheel accepts the node of a poll that parks, and they stay related |
| LoopSteps.LoopFollowsRun | src/epoll.c:229-266 | from related states, along every run the wheel and both lists in memory hold exactly the nodes of the scheduler's polls, in order; a node may be reused once its poll has returned |
| LoopSteps.LoopOfEveryRun | src/epoll.c:60-71 | the same from a new loop and a new pool |
| LoopSteps.LoopIsReady | src/epoll.c:229-295 | after every run, whatever step comes next, the heap method for it finds its precondition met (defined indices, a filed node, a head to pop), within 2^63 ms; start_idx is between 0 and the elapsed time |
| EventMask.MaskRoundTrip | src/coroutine_impl.c:258-278 | converting to epoll and back keeps exactly the bits for in, out, error and hang-up |
| EventMask.PollToEpollBits | src/coroutine_impl.c:258-267 | the kernel is asked for exactly the bits 0x1, 0x4, 0x8 and 0x10 of the request |
| EventMask.EpollToPollShows | src/coroutine_impl.c:269-278 | a value shows a report bit by bit if and only if it is the converted report |
| EventMask.ReportIsVisible | src/coroutine_impl.c:269-278 | a reported event is never converted to 0 and shows only requested bits, error and hang-up |
| PollRegistry.AddAllSound | src/coroutine_impl.c:382-407 | old registrations stay, new ones point at this poll's first accepted entry for their descriptor, accepted descriptors end up registered |
| PollRegistry.DelAllExact | src/coroutine_impl.c:435-441 | exactly the registrations of the poll's descriptors are removed, whoever made them |
| PollRegistry.AddThenDel | src/coroutine_impl.c:396-427 | a refused poll leaves no registration of its own behind, and takes away exactly those of its descriptors |
| PollRegistry.Epoll.RegisterAll | src/coroutine_impl.c:382-407 | the registration loop computes AddAll |
| PollRegistry.Epoll.RemoveAll | src/coroutine_impl.c:435-441 | the removal loop computes DelAll |
| RegistrationRuns.PollRegisters | src/coroutine_impl.c:382-429 | a poll registers an entry if and only if it parks, nobody has the descriptor registered, and the entry is the first that the kernel accepts for it |
| RegistrationRuns.StandsIff | src/coroutine_impl.c:382-441 | over any run a registration stands if and only if no step closed its descriptor, returned from a poll naming it or refused one |
| RegistrationRuns.OwnRegistrationIff | src/coroutine_impl.c:382-441 | while a poll is in progress its registration stands if and only if no other poll naming the descriptor returned or was refused and nobody closed it |
| RegistrationRuns.RegistrationTakenAway | src/coroutine_impl.c:435-441 | for every descriptor and clock a run in which a poll has registered its descriptor, a shorter poll of the same one returns, and the first is left in progress without registration |
| TaskBudget.TaskClock.Fix | src/coroutine_impl.c:307-344 | the fields change and the result is as FixTimeout says |
| TaskBudget.ChargeExactIff | src/coroutine_impl.c:324-327 | a charge leaves the budget minus the elapsed loop time if and only if that fits an int |
| TaskBudget.EarlyTaskMischarged | src/coroutine_task.c:57-59 | a budget of 5 seconds charged from clock 0 grows at one reading of today and is gone at another |
| TaskBudget.FixTimeoutExact | src/coroutine_impl.c:324-343 | a poll expires exactly when the flag is set or the elapsed loop time has reached the budget; otherwise the wait is within what is left |
| TaskBudget.EffectiveWait | src/coroutine_impl.c:312-358 | for every budget, clock and timeout: a poll expires if and only if the budget is spent; otherwise the wait is the shortest of 10 ms, the request and what is left, and a request below -1 is passed on |
| TaskBudget.UnlimitedNeverExpires | src/coroutine_impl.c:309-317 | a task without a limit never expires, keeps its budget, and waits 10 ms or the shorter time it asks for |
| TaskBudget.BudgetOverLife | src/coroutine_impl.c:319-332 | over any number of polls the charges telescope, and the flag is set if and only if some poll found the budget reached |
| TaskBudget.BudgetExactIff | src/coroutine_impl.c:319-332 | the charges of a life of polls are all exact if and only if every remainder charged fits an int |
| TaskBudget.TimeoutIsSticky | src/coroutine_impl.c:319-323 | once set the flag stays and every later poll expires |
| TaskPool.Pool.constructor | src/coroutine_task.c:66-88 | all tasks wait on a free list without repetition and none is counted as working |
| TaskPool.Pool.NewTask | src/coroutine_task.c:41-64 | fails exactly when no task is waiting; otherwise hands out the task released last, and counter, chain and states stay in agreement |
| TaskPool.Pool.Release | src/coroutine_task.c:27-35 | the task returns to the front of the free list and nothing else changes |
| TaskPool.Pool.FailureTestsAgree | src/coroutine_task.c:42-49 | the two failure tests of new_task are equivalent |
| SchedulerInvariant.InvKept | src/coroutine_impl.c:181-451 | every step of coroutines, loop, kernel and clock keeps the invariant |
| SchedulerRuns.InvAlways | src/epoll.c:214-268 | the invariant holds after every run |
| SchedulerRuns.EveryoneInOnePlace | src/coroutine_task.c:7-64 | after every run each pool coroutine is free and waiting, or once on the call stack, or parked in one poll whose node is in one place of one list |
| SchedulerRuns.PoolConserved | src/coroutine_task.c:20-49 | working plus free is the pool size, the free list has no repetition and holds the waiting tasks, new_task fails exactly when all are busy |
| SchedulerRuns.FinishedLastStartsFirst | src/coroutine_task.c:27-61 | the coroutine that finished last is the one the next new_task resumes, whatever happens in between |
| SchedulerRuns.CallStackDiscipline | src/coroutine_impl.c:181-200 | main is at the bottom, entries are distinct, depth is at most pool size plus one, no yield underflows |
| SchedulerRuns.StackFitsIff | src/coroutine_impl.c:17-100 | 128 slots suffice for every run if and only if the pool has at most 127 tasks |
| SchedulerRuns.NeverStuck | src/epoll.c:229-267 | in every reachable state the running code can go on, and the loop's phase is the one that its last step leads to |
| SchedulerRuns.StartIsLatestTick | src/epoll.c:134-152 | the time from which additions are judged is the latest reading of all ticks |
| SchedulerRuns.ExactlyOnceWakeUp | src/epoll.c:236-266 | a parked poll is resumed once if it has returned and not at all otherwise |
| SchedulerRuns.PollContract | src/coroutine_impl.c:435-450 | the value returned is the number of entries with non-zero revents, these hold only what may be reported, and the timed-out mark is set exactly when the number is 0 and the deadline has passed |
| ReportRuns.ReportOfEveryRun | src/coroutine_impl.c:284-290 | when a poll returns every entry holds, bit by bit, what the batch of that iteration reports for it, and 0 where it reports nothing |
| ReportRuns.WakeOrderOfEveryRun | src/coroutine_impl.c:291-295 | in every drain event-woken polls come in the order in which the batch first names them |
| SchedulerRuns.NoStaleRegistration | src/coroutine_impl.c:382-441 | every registration points at a live poll's entry for its descriptor, and every prepare call touches a live entry not reported before |
| SchedulerRuns.NoDeadlineMissed | src/epoll.c:246-266 | a poll whose deadline has come when the loop reads its clock has been resumed exactly once when the loop waits again |
| SchedulerRuns.DrainInOrder | src/epoll.c:256-266 | during a drain the active list is worked off from its head and nothing is added, so a drain resumes at most its initial length |
| SchedulerRuns.ResumeOrderOfDrain | src/epoll.c:256-266 | event-woken polls are resumed first, then timed-out ones by deadline, ties in parking order |
| SchedulerRuns.IterationEndsClean | src/epoll.c:229-236 | when the loop waits both lists are empty and every poll in progress is in the timer |
| SchedulerRuns.WheelOfEveryRun | src/epoll.c:60-71 | along every run a wheel of 60000 buckets holds exactly the scheduler's pending nodes |
| SchedulerRuns.WheelFollowsRun | src/epoll.c:128-295 | the same from any state in which wheel and scheduler agree |
| SchedulerRuns.RefusedIff | src/coroutine_impl.c:347-429 | for every poll the exact conditions under which it expires, takes the plain poll or is refused its timer; with a last tick less than 59990 ms ago a legal poll is never refused |
| SchedulerRuns.UnlimitedParks | src/coroutine_impl.c:312-431 | a task without a limit parks, for 10 ms or the shorter time it asks for, when the last tick is less than 59990 ms ago |
| SchedulerRuns.WaitIsShortest | src/coroutine_impl.c:347-412 | a parked poll's deadline is the clock plus the shortest of 10 ms, the timeout asked for and the remaining budget |
| BudgetRuns.BudgetOfEveryRun | src/coroutine_impl.c:319-332 | along every run a task's budget is the limit last given to it less the loop time from its hand-out to its last poll, and its flag says whether a poll found the limit reached, if and only if every remainder charged fits an int |
| BudgetRuns.HandedOut | src/coroutine_task.c:46-61 | a task handed out is running on top of the call stack, with the limit given to it in full, from the loop clock on, and no flag |
| BudgetRuns.GrantOfEveryRun | src/coroutine_task.c:57-59 | after every run the loop clock is the loop's last reading, and a task's limit and start are those of its last hand-out |
| BudgetRuns.BudgetExactAlongIff | src/coroutine_impl.c:324-327 | from any state with an exact charge, the charge stays exact if and only if no poll charges a remainder outside int |
| BudgetRuns.EarlyTaskIff | src/coroutine_task.c:57-59 | for every clock there is a run with a 5 second task started before the loop, and its charge is exact if and only if the clock is at most 2^31 + 5000 |
| BudgetRuns.TimedOutNeverParks | src/coroutine_impl.c:319-354 | a timed-out task never parks again until its task is reused |
| ContextSwitch.Save | src/context_swap.S:57-74 | the block of the caller holds its registers, return address and stack pointer; no other word changes |
| ContextSwitch.Restore | src/context_swap.S:76-94 | the registers and the return address of the other block are taken over |
| ContextSwitch.ContextSwap | src/context_swap.S:57-94 | both halves together, under separation of the two blocks and stacks |
| ContextSwitch.ContextMake | src/context.c:115-127 | the block holds 0 but for stack pointer, entry point and argument; no other word changes |
| ContextSwitch.MadeStackAligned | src/context.c:116-121 | the initial stack pointer is aligned as the System V calling convention asks and less than 24 bytes below the high end of the stack, which fixes it |
| ContextRuns.SwitchIsSafe | src/context_swap.S:57-94 | in every sound system a switch meets the swap's precondition |
| ContextRuns.WakeIsOrdinary | src/epoll.c:96-97 | writing a lent word of a parked context's stack, as popHead does to the node of every poll it wakes, is a step that the runs cover |
| ContextRuns.KeptWhileAway | src/context_swap.S:57-94 | while a context is not running nothing changes its block, nor its stack but for the words it has lent out |
| ContextRuns.ContinuesAsSuspended | src/context_swap.S:57-94 | a context that is switched back to continues at its return address with its stack pointer, all saved registers, rax 0, and its stack but for the words it has lent out |
| ContextRuns.StartsAsMade | src/context.c:115-127 | a made context starts at its function with its argument and an aligned stack pointer at the high end of its stack |
| StackRuns.SchedulerIsDisciplined | src/coroutine_impl.c:181-200 | the call stack of every scheduler run moves by pushes of coroutines not on it and pops above main |
| StackRuns.PushOf | src/coroutine_impl.c:181-200 | every yield from a depth that the run has reached pairs with a resume |
| StackRuns.ResumerContinues | src/coroutine_impl.c:181-200 | a yield gives back the call stack of the resume it pairs with, and that coroutine continues behind its call with its registers, and its stack but for what it lent out |
| StackRuns.YielderContinues | src/coroutine_impl.c:181-200 | a coroutine that yields and is resumed later continues behind its yield with its registers, and its stack but for what it lent out |
| IdMap.IdAllocator.FindNextZeroBit | oldsrc/idmap.cc:41-58 | the first offset from the start on whose slot is clear |
| IdMap.IdAllocator.TestAndSetBit | oldsrc/idmap.cc:21-30 | the bit of the slot is set, its old value returned, all else unchanged |
| IdMap.IdAllocator.ClearBit | oldsrc/idmap.cc:32-39 | the bit of the slot is cleared, all else unchanged |
| IdMap.IdAllocator.Allocate | oldsrc/idmap.cc:60-78 | the least id from the start point on whose slot is clear becomes live and last, or -1 and no change if there is none; bits, counter and live ids stay in agreement |
| IdMap.AllocationOrder | oldsrc/idmap.cc:60-78 | a new allocator hands out 0, 1, 2 and so on to 32767 with 4-byte words; with 8-byte words 0 to 63, then 512 to 575 and so on, 4096 in all; then -1 for ever |
| IdMap.IdAllocator.Free | oldsrc/idmap.cc:80-86 | for any id: its bit is cleared and the counter raised; bits, counter and live ids stay in agreement if and only if it was live |
| IdMap.ClearedIff | oldsrc/idmap.cc:32-39 | clearing keeps the page true if and only if the id is live or no live id has its slot |
| IdMap.IdAllocator.CounterStaysHigh | oldsrc/idmap.cc:65-67 | with 8-byte words the exhausted-counter test never fires |
| IdMap.SlotsDistinctIff | oldsrc/idmap.cc:23-24 | ids have slots of their own if and only if words have 4 bytes |
| IdMap.SameSlotIff | oldsrc/idmap.cc:23-24 | ids share a slot with 8-byte words if and only if they lie in one block of 512 and a multiple of 64 apart; with 4-byte words never |
| IdMap.LiveFits | oldsrc/idmap.cc:21-39 | no more ids are live than there are slots: 32768 or 4096 |
| PartialWrite.Transfer | src/hook_sys_call.c:463-497 | the kernel holds exactly a prefix of the buffer, as long as what the script accepts; a positive return is its length, any other return means nothing was sent, a short return has a cause |
| PartialWrite.AcceptedIsSum | src/hook_sys_call.c:463-490 | what is accepted is the sum of what the kernel is willing to accept, up to the buffer |
| PartialWrite.TransferCompletes | src/hook_sys_call.c:474-497 | while the kernel accepts or would block, the call returns the length of the buffer if and only if the kernel has been willing to accept that much |
| PartialWrite.TransferStops | src/hook_sys_call.c:474-497 | a timeout or another error ends the call at that turn, with the bytes accepted so far or, without any, with -1 |

## Left out

- The scheduler is a step machine on values: the call-stack array, the coroutine objects and the fields
  of `poll_context_t` are not updated in place there; the lists, the wheel, the pool, the budget and the
  registrations are also modelled on the heap.
- EpollTimer.Timer.TakeAllTimeout: requires that the indices it computes are defined in C; what happens
  on an overflow or before the first bucket is outside the language.
- EpollTimer.Timer.AddTimeout: the same.
- A registration that outlives `close` through a duplicated descriptor: registrations are keyed by number.
- 64-bit wrap-around of the clock and of addresses.
- What the words are that a coroutine lends out: the model of the switch has them as a set, not as fields.
- `send` runs the same loop as `write` and has no model of its own; neither has `read`, `recv` and their kin.
- The plain system calls when hooks are off, and what `wait_io_ready` does to the descriptor on a timeout.
- Sleep durations: `sleep`, `usleep` and `nanosleep` go through the 10 ms clamp.
- The `select` hook, `fcntl`, `connect`, `gethostbyname`, coroutine-specific storage: easy members or no clean contract.
- The environment table indexed by thread id: one thread is modelled.
- Memory allocation, among it the one-pointer `tasks` array of the pool and use of freed `items` in the refused-timer path.
- The i386 and ucontext variants of the context switch, and the stack save buffer, which is never used.
- `oldsrc/coroutine.cc` and `oldsrc/hooks.cc`: superseded.
