/** The timeout budgets of tasks along runs of the scheduler. */
module BudgetRuns {
  import opened CInt
  import opened TimerSpec
  import opened TaskStates
  import opened TaskBudget
  import opened Scheduler
  import opened SchedulerInvariant

  /** The step makes task co charge a remainder that is not an `int`. */
  ghost predicate Overcharges(s: State, l: Label, co: Co)
    requires Enabled(s, l)
  {
    l.PollCall? && Top(s) == co &&
    var b := s.tasks[co].budget; b.max != -1 && !b.timedOut && !InRange(b, s.loopNow)
  }

  ghost predicate PollsInRange(s: State, run: seq<Label>, co: Co)
    requires ValidRun(s, run)
    decreases |run|
  {
    run != [] ==> !Overcharges(s, run[0], co) && PollsInRange(Apply(s, run[0]), run[1..], co)
  }

  predicate HandsOut(s: State, l: Label, co: Co) {
    l.NewTask? && s.working != s.size && s.free != [] && s.free[0] == co
  }

  /** A step keeps the charge of a task exact if and only if it does not overcharge. */
  lemma BudgetStep(s: State, l: Label, co: Co)
    requires Enabled(s, l) && co in s.tasks && Telescoped(s.tasks[co].budget)
    ensures co in Apply(s, l).tasks
    ensures Telescoped(Apply(s, l).tasks[co].budget) <==> !Overcharges(s, l, co)
  {
    if l.PollCall? {
      PollEffect(s, l.fds, l.timeout, l.accepts, l.fallback, l.clock);
      var b := s.tasks[co].budget;
      if Top(s) == co && b.max != -1 {
        if b.timedOut || InRange(b, s.loopNow) {
          FixTimeoutExact(b, s.loopNow, l.timeout);
        } else {
          ChargeExactIff(b, s.loopNow, l.timeout);
        }
      }
    }
  }

  /** The charge of task co is exact in every state of the run. */
  ghost predicate AlwaysExact(s: State, run: seq<Label>, co: Co)
    requires ValidRun(s, run)
    decreases |run|
  {
    && co in s.tasks && Telescoped(s.tasks[co].budget)
    && (run != [] ==> AlwaysExact(Apply(s, run[0]), run[1..], co))
  }

  lemma {:induction false} BudgetExactAlongIff(s: State, run: seq<Label>, co: Co)
    requires ValidRun(s, run) && co in s.tasks && Telescoped(s.tasks[co].budget)
    ensures AlwaysExact(s, run, co) <==> PollsInRange(s, run, co)
    decreases |run|
  {
    if run != [] {
      BudgetStep(s, run[0], co);
      if !Overcharges(s, run[0], co) { BudgetExactAlongIff(Apply(s, run[0]), run[1..], co); }
    }
  }

  // ---------------------------------------------------------------- accounts kept from the labels of a run

  /** The loop clock: the last reading at the start of the loop or in an iteration. */
  function ClockAfter(l: Label, now: nat): nat {
    match l
    case EnterLoop(clock) => clock
    case Take(clock) => clock
    case _ => now
  }

  /** What an onlooker notes about a task: the limit it was given, the loop clock when it was handed out
      and when it last polled, and whether a poll has found the limit reached. */
  datatype Account = Account(max: int, given: nat, last: nat, reached: bool)

  ghost function AccountAfter(s: State, l: Label, co: Co, now: nat, a: Account): Account {
    if HandsOut(s, l, co) then Account(l.maxTimeout, now, now, false)
    else if l.PollCall? && Top(s) == co && a.max != -1 && !a.reached then
      a.(last := now, reached := a.max <= now - a.given)
    else a
  }

  /** The budget that the account calls for. */
  function Due(a: Account): Budget {
    Budget(a.max, a.max - (a.last - a.given), a.last, a.reached, a.given)
  }

  /** The step is a poll of task co that is charged a remainder which is not an `int`. */
  predicate OutOfRange(s: State, l: Label, co: Co, now: nat, a: Account) {
    && l.PollCall? && Top(s) == co && a.max != -1 && !a.reached
    && !(-TWO_31 <= a.max - (now - a.given) < TWO_31)
  }

  /** The step that hands out a task puts its coroutine on the call stack, with the limit it was given, in
      full, and a budget that starts at the loop clock. */
  lemma HandedOut(s: State, l: Label, co: Co)
    requires Enabled(s, l) && HandsOut(s, l, co)
    ensures
      var s' := Apply(s, l);
      && s'.stack == s.stack + [co] && co in s'.tasks && s'.tasks[co].state == TaskRunning
      && s'.tasks[co].budget == Budget(l.maxTimeout, l.maxTimeout, s.loopNow, false, s.loopNow)
  {
  }

  lemma AccountStep(s: State, l: Label, co: Co, a: Account)
    requires Enabled(s, l) && co in s.tasks && s.tasks[co].budget == Due(a)
    ensures co in Apply(s, l).tasks && Apply(s, l).loopNow == ClockAfter(l, s.loopNow)
    ensures Apply(s, l).tasks[co].budget == Due(AccountAfter(s, l, co, s.loopNow, a)) <==>
            !OutOfRange(s, l, co, s.loopNow, a)
  {
    if l.PollCall? {
      PollEffect(s, l.fds, l.timeout, l.accepts, l.fallback, l.clock);
      if Top(s) == co {
        var b := s.tasks[co].budget;
        if b.max == -1 {
          UnlimitedNeverExpires(b, s.loopNow, l.timeout);
        } else if !b.timedOut {
          ChargeIsTruncated(b.(timedOut := false), s.loopNow, l.timeout);
          EffectiveWait(b, s.loopNow, l.timeout);
        }
      }
    }
  }

  /** The account at the end of a run. */
  ghost function FinalAccount(s: State, run: seq<Label>, co: Co, now: nat, a: Account): Account
    requires ValidRun(s, run)
    decreases |run|
  {
    if run == [] then a else
      FinalAccount(Apply(s, run[0]), run[1..], co, ClockAfter(run[0], now), AccountAfter(s, run[0], co, now, a))
  }

  function FinalClock(run: seq<Label>, now: nat): nat {
    if run == [] then now else FinalClock(run[1..], ClockAfter(run[0], now))
  }

  lemma GrantStep(s: State, l: Label, co: Co, a: Account)
    requires Enabled(s, l) && co in s.tasks && s.tasks[co].budget.max == a.max && s.tasks[co].budget.born == a.given
    ensures
      var s', a' := Apply(s, l), AccountAfter(s, l, co, s.loopNow, a);
      && s'.loopNow == ClockAfter(l, s.loopNow)
      && co in s'.tasks && s'.tasks[co].budget.max == a'.max && s'.tasks[co].budget.born == a'.given
  {
    if l.PollCall? { PollEffect(s, l.fds, l.timeout, l.accepts, l.fallback, l.clock); }
  }

  lemma {:induction false} GrantAlong(s: State, run: seq<Label>, co: Co, a: Account)
    requires ValidRun(s, run) && co in s.tasks && s.tasks[co].budget.max == a.max && s.tasks[co].budget.born == a.given
    ensures
      var s', a' := Exec(s, run), FinalAccount(s, run, co, s.loopNow, a);
      && s'.loopNow == FinalClock(run, s.loopNow)
      && co in s'.tasks && s'.tasks[co].budget.max == a'.max && s'.tasks[co].budget.born == a'.given
    decreases |run|
  {
    if run != [] {
      GrantStep(s, run[0], co, a);
      GrantAlong(Apply(s, run[0]), run[1..], co, AccountAfter(s, run[0], co, s.loopNow, a));
    }
  }

  /** After every run, also one that overcharges: the loop clock is the last reading of the loop, and a
      task's limit and the start of its budget are those of its last hand-out. */
  lemma GrantOfEveryRun(size: nat, clock: nat, run: seq<Label>, co: Co)
    requires ValidRun(Init(size, clock), run) && 1 <= co <= size
    ensures
      var s, a := Exec(Init(size, clock), run), FinalAccount(Init(size, clock), run, co, 0, Account(0, 0, 0, false));
      && s.loopNow == FinalClock(run, 0)
      && co in s.tasks && s.tasks[co].budget.max == a.max && s.tasks[co].budget.born == a.given
  {
    GrantAlong(Init(size, clock), run, co, Account(0, 0, 0, false));
  }

  /** In every state of the run the budget of task co is what its account calls for. */
  ghost predicate AlwaysDue(s: State, run: seq<Label>, co: Co, now: nat, a: Account)
    requires ValidRun(s, run)
    decreases |run|
  {
    && s.loopNow == now && co in s.tasks && s.tasks[co].budget == Due(a)
    && (run != [] ==>
          AlwaysDue(Apply(s, run[0]), run[1..], co, ClockAfter(run[0], now), AccountAfter(s, run[0], co, now, a)))
  }

  ghost predicate AlwaysInRange(s: State, run: seq<Label>, co: Co, now: nat, a: Account)
    requires ValidRun(s, run)
    decreases |run|
  {
    run != [] ==>
      && !OutOfRange(s, run[0], co, now, a)
      && AlwaysInRange(Apply(s, run[0]), run[1..], co, ClockAfter(run[0], now), AccountAfter(s, run[0], co, now, a))
  }

  lemma {:induction false} DueAlongIff(s: State, run: seq<Label>, co: Co, a: Account)
    requires ValidRun(s, run) && co in s.tasks && s.tasks[co].budget == Due(a)
    ensures AlwaysDue(s, run, co, s.loopNow, a) <==> AlwaysInRange(s, run, co, s.loopNow, a)
    decreases |run|
  {
    if run != [] {
      AccountStep(s, run[0], co, a);
      if !OutOfRange(s, run[0], co, s.loopNow, a) {
        DueAlongIff(Apply(s, run[0]), run[1..], co, AccountAfter(s, run[0], co, s.loopNow, a));
      }
    }
  }

  /** Along every run, however its polls and those of others interleave: a task's budget is the limit it
      was last given less the loop time from its hand-out to its last poll, and its flag is set if and
      only if one of its polls since then found the limit reached, all along the run if and only if
      every remainder charged to it is an `int`. */
  lemma BudgetOfEveryRun(size: nat, clock: nat, run: seq<Label>, co: Co)
    requires ValidRun(Init(size, clock), run) && 1 <= co <= size
    ensures AlwaysDue(Init(size, clock), run, co, 0, Account(0, 0, 0, false)) <==>
            AlwaysInRange(Init(size, clock), run, co, 0, Account(0, 0, 0, false))
  {
    DueAlongIff(Init(size, clock), run, co, Account(0, 0, 0, false));
  }

  // ---------------------------------------------------------------- a task started before the loop

  lemma RunCons(s: State, l: Label, rest: seq<Label>, co: Co)
    requires Enabled(s, l) && ValidRun(Apply(s, l), rest)
    ensures ValidRun(s, [l] + rest)
    ensures PollsInRange(s, [l] + rest, co) <==> !Overcharges(s, l, co) && PollsInRange(Apply(s, l), rest, co)
  {
    assert ([l] + rest)[0] == l && ([l] + rest)[1..] == rest;
  }

  function EarlyDrain(t: nat): seq<Label> {
    [Join] + ([Resume] + ([PollCall([], -1, [], false, t)] + []))
  }

  function EarlyLoop(t: nat): seq<Label> {
    [EnterLoop(t)] + ([Wait([])] + ([Take(t)] + EarlyDrain(t)))
  }

  /** A task with a budget of 5 seconds that starts and parks before the event loop, is woken by the
      first iteration at time t, and polls again. */
  function EarlyRun(t: nat): seq<Label>
    requires 10 <= t
  {
    [NewTask(5000)] + ([PollCall([], -1, [], false, t - 10)] + EarlyLoop(t))
  }

  lemma EarlyStart(size: nat, t: nat)
    requires 1 <= size && 20 < t
    ensures
      var s1 := DoNewTask(Init(size, t - 10), 5000);
      && s1.stack == [MAIN, size] && size in s1.tasks && s1.tasks[size].budget == NewBudget(5000, 0)
      && s1.phase == Setup && s1.loopNow == 0 && s1.timers == Timers([], t - 10) && s1.nextPoll == 0
      && s1.active == [] && s1.timeouts == []
  {
  }

  lemma EarlyPark(s: State, t: nat, co: Co)
    requires 20 < t && s.stack == [MAIN, co] && co in s.tasks && s.tasks[co].budget == NewBudget(5000, 0)
    requires s.phase == Setup && s.loopNow == 0 && s.timers == Timers([], t - 10) && s.nextPoll == 0
    requires s.active == [] && s.timeouts == []
    ensures
      var s' := DoPoll(s, [], -1, [], false, t - 10);
      && s'.stack == [MAIN] && co in s'.tasks && s'.tasks[co].budget == NewBudget(5000, 0) && s'.phase == Setup
      && s'.active == [] && s'.timeouts == [] && s'.timers == Timers([Entry(Node(0, co), t)], t - 10)
  {
    PollEffect(s, [], -1, [], false, t - 10);
    assert s.stack[..1] == [MAIN];
  }

  lemma EarlyTaken(s: State, t: nat, co: Co)
    requires 20 < t && s.timers == Timers([Entry(Node(0, co), t)], t - 10) && s.timeouts == [] && s.active == []
    ensures
      var s' := DoTake(s, t);
      && s'.active == [] && s'.timeouts == [Entry(Node(0, co), t)] && s'.stack == s.stack && s'.phase == Joining
      && s'.tasks == s.tasks && s'.loopNow == t && s'.timers.start == t
  {
    var x := Entry(Node(0, co), t);
    SelectSnoc([], x, AtMost(t));
    assert [] + [x] == [x];
    assert StableSort([x]) == InsertStable(StableSort([]), x) by { assert [x][..0] == []; }
  }

  lemma EarlyDrained(s: State, t: nat, co: Co)
    requires 20 < t && co != MAIN && s.active == [] && s.timeouts == [Entry(Node(0, co), t)] && s.stack == [MAIN]
    requires s.phase == Joining && co in s.tasks && s.tasks[co].budget == NewBudget(5000, 0)
    requires s.loopNow == t && s.timers.start == t
    ensures ValidRun(s, EarlyDrain(t))
    ensures PollsInRange(s, EarlyDrain(t), co) <==> InRange(NewBudget(5000, 0), t)
  {
    var poll := PollCall([], -1, [], false, t);
    var s' := s.(active := s.active + s.timeouts, timeouts := [], phase := Draining);
    assert s'.active == [Entry(Node(0, co), t)];
    var s'' := DoResume(s');
    assert s''.stack == [MAIN, co];
    RunCons(s'', poll, [], co);
    RunCons(s', Resume, [poll] + [], co);
    RunCons(s, Join, [Resume] + ([poll] + []), co);
  }

  lemma EarlyLooped(s: State, t: nat, co: Co)
    requires 20 < t && co != MAIN && s.active == [] && s.timeouts == [] && s.stack == [MAIN]
    requires s.phase == Setup && co in s.tasks && s.tasks[co].budget == NewBudget(5000, 0)
    requires s.timers == Timers([Entry(Node(0, co), t)], t - 10)
    ensures ValidRun(s, EarlyLoop(t))
    ensures PollsInRange(s, EarlyLoop(t), co) <==> InRange(NewBudget(5000, 0), t)
  {
    var s3 := s.(loopNow := t, phase := Waiting);
    var s4 := s3.(timeouts := [], phase := Preparing([]));
    EarlyTaken(s4, t, co);
    EarlyDrained(DoTake(s4, t), t, co);
    RunCons(s4, Take(t), EarlyDrain(t), co);
    RunCons(s3, Wait([]), [Take(t)] + EarlyDrain(t), co);
    RunCons(s, EnterLoop(t), [Wait([])] + ([Take(t)] + EarlyDrain(t)), co);
  }

  /** Budgets fail for tasks that are started before the event loop: in this run, which exists for
      every pool and clock, the charge is exact if and only if the clock is within about 25 days of
      its origin. */
  lemma EarlyTaskIff(size: nat, t: nat)
    requires 1 <= size && 20 < t
    ensures ValidRun(Init(size, t - 10), EarlyRun(t))
    ensures AlwaysExact(Init(size, t - 10), EarlyRun(t), size) <==> t <= TWO_31 + 5000
  {
    var s0, poll := Init(size, t - 10), PollCall([], -1, [], false, t - 10);
    var s1 := DoNewTask(s0, 5000);
    EarlyStart(size, t);
    EarlyPark(s1, t, size);
    EarlyLooped(DoPoll(s1, [], -1, [], false, t - 10), t, size);
    RunCons(s1, poll, EarlyLoop(t), size);
    RunCons(s0, NewTask(5000), [poll] + EarlyLoop(t), size);
    BudgetExactAlongIff(s0, EarlyRun(t), size);
  }

  /** The run hands task co to new work. */
  ghost predicate Reuses(s: State, run: seq<Label>, co: Co)
    requires ValidRun(s, run)
    decreases |run|
  {
    run != [] &&
      (HandsOut(s, run[0], co) || Reuses(Apply(s, run[0]), run[1..], co))
  }

  ghost predicate BudgetGone(s: State, co: Co) {
    co in s.tasks && s.tasks[co].budget.max != -1 && s.tasks[co].budget.timedOut
  }

  lemma GoneStep(s: State, l: Label, co: Co, p: nat)
    requires Enabled(s, l) && BudgetGone(s, co)
    requires !HandsOut(s, l, co)
    ensures BudgetGone(Apply(s, l), co)
    ensures p in Apply(s, l).polls && Apply(s, l).polls[p].co == co ==> p in s.polls && s.polls[p].co == co
  {
    match l {
      case PollCall(fds, timeout, accepts, fallback, clock) => PollEffect(s, fds, timeout, accepts, fallback, clock);
      case Prepare => PrepareShape(s); PrepareFrame(s);
        assert p in s.polls ==> SamePoll(s.polls[p], DoPrepare(s).polls[p]);
      case Take(clock) => TakeShape(s, clock);
        assert p in s.polls ==> SamePoll(s.polls[p], DoTake(s, clock).polls[p]);
      case _ =>
    }
  }

  /** Once a task has timed out it stays so and never parks again, until the task is reused. */
  lemma {:induction false} TimedOutNeverParks(s: State, run: seq<Label>, co: Co, p: nat)
    requires ValidRun(s, run) && BudgetGone(s, co) && !Reuses(s, run, co)
    ensures BudgetGone(Exec(s, run), co)
    ensures p in Exec(s, run).polls && Exec(s, run).polls[p].co == co ==> p in s.polls && s.polls[p].co == co
    decreases |run|
  {
    if run != [] {
      GoneStep(s, run[0], co, p);
      TimedOutNeverParks(Apply(s, run[0]), run[1..], co, p);
    }
  }
}
