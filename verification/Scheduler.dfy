/**
The scheduler of libcr as a step machine: the call stack, the task pool, the timer, the active list,
the polls in progress, the epoll registrations and the phase of the event loop.

A coroutine runs until it starts a task, polls or finishes; those are its steps.  Main either runs
set-up code or one of the phases of the event loop.  What user code does next, which descriptors the
kernel accepts and reports, and what the clock reads are parameters of the steps.  The part of
`poll_inner` behind its yield runs without interruption when its coroutine is resumed, so it belongs
to the resuming step.
 */
module Scheduler {
  import opened CInt
  import opened TimerSpec
  import opened TimerWheel
  import opened TaskStates
  import opened TaskBudget
  import opened EventMask
  import opened PollRegistry

  const WHEEL_SIZE: nat := 60000
  const MAX_CALL_STACK: nat := 128

  /** Coroutine 0 is main; coroutine k is the one of pool task k. */
  type Co = nat
  const MAIN: Co := 0

  /** The timer node `arg.time` of a poll, with the coroutine to resume. */
  datatype Node = Node(poll: nat, co: Co)
  type Timer = Entry<Node>

  /** The `poll_context_t` of a call of `poll_inner` that has yielded. */
  datatype Poll = Poll(
    co: Co, expire: nat, fds: seq<PollFd>, revents: seq<bv16>,
    raiseCnt: nat, detached: bool, timedOut: bool)

  datatype Task = Task(state: TaskState, budget: Budget)

  datatype Event = Event(reg: Reg, events: bv32)

  /** Set-up code; about to wait; preparing a batch; timers taken but not yet joined; draining. */
  datatype Phase = Setup | Waiting | Preparing(batch: seq<Event>) | Joining | Draining

  datatype State = State(
    size: nat,                 // pool->size
    stack: seq<Co>,            // env->callstack
    free: seq<Co>,             // pool->free
    working: int,              // pool->working
    tasks: map<Co, Task>,
    timers: Timers<Node>,      // epoll->timer
    timeouts: seq<Timer>,      // epoll->timeout_list
    active: seq<Timer>,        // epoll->active_list
    polls: map<nat, Poll>,     // polls that have yielded and not returned
    nextPoll: nat,
    regs: Registry,
    loopNow: nat,              // epoll->now
    phase: Phase)

  function Top(s: State): Co {
    if s.stack == [] then MAIN else s.stack[|s.stack| - 1]
  }

  function TimerOf(p: nat, poll: Poll): Timer {
    Entry(Node(p, poll.co), poll.expire)
  }

  // ---------------------------------------------------------------- labels

  datatype Label =
    | NewTask(maxTimeout: int)
    | PollCall(fds: seq<PollFd>, timeout: int, accepts: seq<bool>, fallback: bool, clock: nat)
    | Finish
    | Close(fd: int)
    | EnterLoop(clock: nat)
    | Wait(batch: seq<Event>)
    | Prepare
    | Take(clock: nat)
    | Join
    | Resume
    | EndDrain

  /** User code runs: that of a pool coroutine, or main's before the event loop. */
  predicate UserTurn(s: State) {
    Top(s) != MAIN || s.phase == Setup
  }

  /** Main runs the event loop. */
  predicate LoopTurn(s: State) {
    Top(s) == MAIN
  }

  /** The clock is past 0 when it starts the timer, `now + timeout` does not wrap, and an `int` holds its
      distance from the last tick. */
  predicate PollClock(s: State, timeout: int, clock: nat) {
    && 0 <= clock + timeout
    && (if s.timers.start == 0 then 0 < clock else clock - s.timers.start + MAX_TIMEOUT_MS < TWO_31)
  }

  predicate TickClock(s: State, clock: nat) {
    TickInRange(s.timers.start, clock, WHEEL_SIZE)
  }

  ghost predicate Registered(regs: Registry, reg: Reg) {
    exists fd :: fd in regs && regs[fd] == reg
  }

  /** The registration points into a poll that has not returned. */
  predicate LiveItem(polls: map<nat, Poll>, reg: Reg) {
    reg.poll in polls && reg.index < |polls[reg.poll].fds|
  }

  predicate Reportable(polls: map<nat, Poll>, e: Event) {
    LiveItem(polls, e.reg) ==> MayReport(polls[e.reg.poll].fds[e.reg.index].events, e.events)
  }

  /** What epoll_wait may return: registrations that exist, each at most once, each with events that
      may be reported for the entry it points at. */
  ghost predicate KernelBatch(s: State, batch: seq<Event>) {
    && (forall i :: 0 <= i < |batch| ==> Registered(s.regs, batch[i].reg) && Reportable(s.polls, batch[i]))
    && (forall i, j :: 0 <= i < j < |batch| ==> batch[i].reg != batch[j].reg)
  }

  ghost predicate Enabled(s: State, l: Label) {
    match l
    case NewTask(_) => UserTurn(s)
    case PollCall(fds, timeout, accepts, fallback, clock) =>
      && Top(s) != MAIN && Top(s) in s.tasks
      && |accepts| == |fds|
      && (fallback ==> |fds| == 1 && fds[0].fd > -1 && !accepts[0])
      && PollClock(s, timeout, clock)
    case Finish => Top(s) != MAIN && Top(s) in s.tasks
    case Close(_) => UserTurn(s)
    case EnterLoop(clock) => LoopTurn(s) && s.phase == Setup
    case Wait(batch) => LoopTurn(s) && s.phase == Waiting && KernelBatch(s, batch)
    case Prepare => LoopTurn(s) && s.phase.Preparing? && s.phase.batch != []
    case Take(clock) => LoopTurn(s) && s.phase == Preparing([]) && TickClock(s, clock)
    case Join => LoopTurn(s) && s.phase == Joining
    case Resume => LoopTurn(s) && s.phase == Draining && s.active != []
    case EndDrain => LoopTurn(s) && s.phase == Draining && s.active == []
  }

  // ---------------------------------------------------------------- steps of a coroutine

  /** `new_task`: -1 when the pool is exhausted, else the task runs at once. */
  function DoNewTask(s: State, maxTimeout: int): State {
    if s.working == s.size || s.free == [] then s else
      var co := s.free[0];
      s.(free := s.free[1..],
         tasks := s.tasks[co := Task(TaskRunning, NewBudget(maxTimeout, s.loopNow))],
         stack := s.stack + [co],
         working := s.working + 1)
  }

  datatype PollOutcome = Expired | Fallback | Refused | Parks

  /** How a call of `poll_inner` goes on: budget used up, plain poll instead, timer refused, or parked. */
  function Outcome(s: State, fallback: bool, f: Fixed, clock: nat): PollOutcome {
    if f.expired then Expired
    else if fallback then Fallback
    else if clock + Clamp(f.timeout) < 0 || !Accepts(s.timers, WHEEL_SIZE, clock + Clamp(f.timeout), clock) then Refused
    else Parks
  }

  /** `poll_inner` up to its return, or up to its yield when it parks. */
  function DoPoll(s: State, fds: seq<PollFd>, timeout: int, accepts: seq<bool>, fallback: bool, clock: nat): State
    requires Top(s) in s.tasks && |accepts| == |fds|
  {
    var co := Top(s);
    var f := FixTimeout(s.tasks[co].budget, s.loopNow, timeout);
    var s' := s.(tasks := s.tasks[co := s.tasks[co].(budget := f.budget)]);
    match Outcome(s, fallback, f, clock)
    case Expired => s'
    case Fallback => s'
    case Refused =>
      s'.(timers := Started(s.timers, clock),
          regs := DelAll(AddAll(s.regs, fds, accepts, s.nextPoll, |fds|), fds, |fds|))
    case Parks =>
      var poll := Poll(co, clock + Clamp(f.timeout), fds, seq(|fds|, _ => 0), 0, false, false);
      s'.(timers := Add(s.timers, WHEEL_SIZE, TimerOf(s.nextPoll, poll), clock),
          regs := AddAll(s.regs, fds, accepts, s.nextPoll, |fds|),
          polls := s.polls[s.nextPoll := poll],
          nextPoll := s.nextPoll + 1,
          stack := if s.stack == [] then [] else s.stack[..|s.stack| - 1])
  }

  /** The end of an iteration of `task_main`: back to the free list, and yield. */
  function DoFinish(s: State): State
    requires Top(s) in s.tasks
  {
    var co := Top(s);
    s.(free := [co] + s.free,
       working := s.working - 1,
       tasks := s.tasks[co := s.tasks[co].(state := TaskWaiting)],
       stack := if s.stack == [] then [] else s.stack[..|s.stack| - 1])
  }

  // ---------------------------------------------------------------- steps of the event loop

  /** `prepare_poll_event` for the first event of the batch. */
  function DoPrepare(s: State): State
    requires s.phase.Preparing? && s.phase.batch != []
  {
    var e, rest := s.phase.batch[0], s.phase.batch[1..];
    var s' := s.(phase := Preparing(rest));
    if !LiveItem(s.polls, e.reg) || |s.polls[e.reg.poll].revents| <= e.reg.index then s' else
      var poll := s.polls[e.reg.poll];
      var node := TimerOf(e.reg.poll, poll);
      var poll' := poll.(revents := poll.revents[e.reg.index := EpollToPoll(e.events)],
                         raiseCnt := poll.raiseCnt + 1, detached := true);
      var s'' := s'.(polls := s.polls[e.reg.poll := poll']);
      if poll.detached then s''
      else s''.(timers := Remove(s.timers, node.item), active := s.active + [node])
  }

  function MarkTimedOut(polls: map<nat, Poll>, nodes: seq<Timer>): map<nat, Poll> {
    map p | p in polls :: if TimerOf(p, polls[p]) in nodes then polls[p].(timedOut := true) else polls[p]
  }

  /** Read the clock, take what is due and mark it. */
  function DoTake(s: State, clock: nat): State {
    var due := TickOut(s.timers, clock);
    s.(loopNow := clock,
       timers := Tick(s.timers, clock),
       timeouts := s.timeouts + due,
       polls := MarkTimedOut(s.polls, s.timeouts + due),
       phase := Joining)
  }

  /** Pop the head of the active list and resume its coroutine, whose `poll_inner` then removes its
      registrations and returns. */
  function DoResume(s: State): State
    requires s.active != []
  {
    var node := s.active[0].item;
    var s' := s.(active := s.active[1..], stack := s.stack + [node.co]);
    if node.poll !in s.polls then s' else
      s'.(regs := DelAll(s.regs, s.polls[node.poll].fds, |s.polls[node.poll].fds|),
          polls := s.polls - {node.poll})
  }

  function Apply(s: State, l: Label): State
    requires Enabled(s, l)
  {
    match l
    case NewTask(maxTimeout) => DoNewTask(s, maxTimeout)
    case PollCall(fds, timeout, accepts, fallback, clock) => DoPoll(s, fds, timeout, accepts, fallback, clock)
    case Finish => DoFinish(s)
    case Close(fd) => s.(regs := s.regs - {fd})
    case EnterLoop(clock) => s.(loopNow := clock, phase := Waiting)
    case Wait(batch) => s.(timeouts := [], phase := Preparing(batch))
    case Prepare => DoPrepare(s)
    case Take(clock) => DoTake(s, clock)
    case Join => s.(active := s.active + s.timeouts, timeouts := [], phase := Draining)
    case Resume => DoResume(s)
    case EndDrain => s.(phase := Waiting)
  }

  // ---------------------------------------------------------------- start

  function Countdown(n: nat): (r: seq<Co>)
    ensures |r| == n && forall co :: co in r <==> 1 <= co <= n
  {
    if n == 0 then [] else [n] + Countdown(n - 1)
  }

  /** A pool of `size` tasks, all waiting; main alone on the call stack. */
  function Init(size: nat, clock: nat): State {
    State(size, [MAIN], Countdown(size), 0,
          map co | co in Countdown(size) :: Task(TaskWaiting, NewBudget(0, 0)),
          Timers([], clock), [], [], map[], 0, map[], 0, Setup)
  }

  // ---------------------------------------------------------------- runs

  ghost predicate ValidRun(s: State, run: seq<Label>)
    decreases |run|
  {
    run != [] ==> Enabled(s, run[0]) && ValidRun(Apply(s, run[0]), run[1..])
  }

  ghost function Exec(s: State, run: seq<Label>): State
    requires ValidRun(s, run)
    decreases |run|
  {
    if run == [] then s else Exec(Apply(s, run[0]), run[1..])
  }
}
