/** What holds of every run of the scheduler, whatever user code, kernel and clock do. */
module SchedulerRuns {
  import opened TimerSpec
  import opened TaskStates
  import opened TimerWheel
  import opened TaskBudget
  import opened PollRegistry
  import opened Scheduler
  import opened SchedulerInvariant

  lemma {:induction false} InvAlong(s: State, run: seq<Label>)
    requires Inv(s) && ValidRun(s, run)
    ensures Inv(Exec(s, run))
    decreases |run|
  {
    if run != [] {
      InvKept(s, run[0]);
      InvAlong(Apply(s, run[0]), run[1..]);
    }
  }

  lemma InvAlways(size: nat, clock: nat, run: seq<Label>)
    requires ValidRun(Init(size, clock), run)
    ensures Inv(Exec(Init(size, clock), run))
  {
    InvInit(size, clock);
    InvAlong(Init(size, clock), run);
  }

  // ---------------------------------------------------------------- nobody is lost or duplicated

  ghost predicate OnFreeList(s: State, co: Co) {
    multiset(s.free)[co] == 1 && co in s.tasks && s.tasks[co].state == TaskWaiting
  }

  ghost predicate OnCallStack(s: State, co: Co) {
    multiset(s.stack)[co] == 1
  }

  /** Parked in one poll, whose timer node is in one place of one list. */
  ghost predicate InOnePoll(s: State, co: Co) {
    exists p :: p in s.polls && s.polls[p].co == co
      && (forall q :: q in s.polls && s.polls[q].co == co ==> q == p)
      && var x := TimerOf(p, s.polls[p]);
         multiset(s.timers.entries)[x] + multiset(s.timeouts)[x] + multiset(s.active)[x] == 1
  }

  lemma PlaceOf(s: State, co: Co)
    requires StackOk(s) && PlacesOk(s) && 1 <= co <= s.size
    ensures
      || (multiset(s.free)[co] == 1 && co !in s.stack && co !in Parked(s.polls))
      || (multiset(s.stack)[co] == 1 && co !in s.free && co !in Parked(s.polls))
      || (co in Parked(s.polls) && co !in s.free && co !in s.stack)
  {
    OnePlace(s, co);
    assert s.stack == [MAIN] + s.stack[1..];
    assert co in s.free <==> co in multiset(s.free);
    assert co in s.stack <==> co in multiset(s.stack[1..]);
  }

  lemma ParkedInOnePoll(s: State, co: Co)
    requires PlacesOk(s) && NodesOk(s) && co in Parked(s.polls)
    ensures InOnePoll(s, co)
  {
    var p :| p in s.polls && s.polls[p].co == co;
    LiveIsLinked(s, p);
  }

  lemma {:induction false} SizeFixed(s: State, run: seq<Label>)
    requires ValidRun(s, run)
    ensures Exec(s, run).size == s.size
    decreases |run|
  {
    if run != [] {
      SizeFixed(Apply(s, run[0]), run[1..]);
    }
  }

  /** In every reachable state each pool coroutine is in exactly one place. */
  lemma EveryoneInOnePlace(size: nat, clock: nat, run: seq<Label>, co: Co)
    requires ValidRun(Init(size, clock), run) && 1 <= co <= size
    ensures
      var s := Exec(Init(size, clock), run);
      || (OnFreeList(s, co) && co !in s.stack && co !in Parked(s.polls))
      || (OnCallStack(s, co) && co !in s.free && co !in Parked(s.polls))
      || (InOnePoll(s, co) && co !in s.free && co !in s.stack)
  {
    InvAlways(size, clock, run);
    SizeFixed(Init(size, clock), run);
    var s := Exec(Init(size, clock), run);
    PlaceOf(s, co);
    if co in Parked(s.polls) { ParkedInOnePoll(s, co); }
  }

  // ---------------------------------------------------------------- the pool

  ghost predicate PoolBalanced(s: State) {
    && s.working + |s.free| == s.size
    && s.working == |s.stack| - 1 + |s.polls|
    && (forall i, j :: 0 <= i < j < |s.free| ==> s.free[i] != s.free[j])
    && (s.working == s.size <==> s.free == [])
    && (s.free == [] <==> forall co :: co in s.tasks ==> s.tasks[co].state == TaskRunning)
    && (forall m :: DoNewTask(s, m) == s <==> s.working == s.size)
  }

  lemma FreeDistinct(s: State, i: nat, j: nat)
    requires PlacesOk(s) && i < j < |s.free|
    ensures s.free[i] != s.free[j]
  {
    OnePlace(s, s.free[i]);
    assert s.free == s.free[..j] + [s.free[j]] + s.free[j + 1..];
    assert s.free[i] in multiset(s.free[..j]) by { assert s.free[i] == s.free[..j][i]; }
  }

  lemma FreeIsWaiting(s: State, co: Co)
    requires PlacesOk(s) && PoolOk(s) && co in s.free
    ensures co in s.tasks && s.tasks[co].state == TaskWaiting
  {
    OnePlace(s, co);
    assert co in multiset(s.free);
  }

  lemma {:induction false} ParkedCount(polls: map<nat, Poll>)
    requires Injective(polls)
    ensures |Parked(polls)| == |polls|
    decreases |polls|
  {
    if polls.Keys == {} {
      assert Parked(polls) == {};
    } else {
      var p :| p in polls;
      var rest := polls - {p};
      assert polls.Keys == rest.Keys + {p};
      ParkedCount(rest);
      ParkedRemove(polls, p);
      assert polls[p].co in Parked(polls);
    }
  }

  /** The busy tasks are those on the call stack and those parked. */
  lemma BusyCount(s: State)
    requires PlacesOk(s)
    ensures |s.free| + |s.stack| - 1 + |s.polls| == s.size
  {
    ParkedCount(s.polls);
    assert |Census(s.free, s.stack, s.polls)| == |multiset(Countdown(s.size))|;
  }

  lemma PoolBalance(s: State)
    requires StackOk(s) && PlacesOk(s) && PoolOk(s)
    ensures PoolBalanced(s)
  {
    forall i, j | 0 <= i < j < |s.free| ensures s.free[i] != s.free[j] {
      FreeDistinct(s, i, j);
    }
    if s.free != [] { FreeIsWaiting(s, s.free[0]); }
    BusyCount(s);
  }

  /** The counter and the free list agree, the free list has no cycle or repetition, and it holds the
      waiting tasks; so the two failure tests of `new_task` are equivalent, and it fails exactly when
      every task is busy. */
  lemma PoolConserved(size: nat, clock: nat, run: seq<Label>)
    requires ValidRun(Init(size, clock), run)
    ensures PoolBalanced(Exec(Init(size, clock), run))
  {
    InvAlways(size, clock, run);
    PoolBalance(Exec(Init(size, clock), run));
  }

  /** Steps that leave the pool alone. */
  predicate PoolAlone(l: Label) {
    !l.NewTask? && !l.Finish?
  }

  lemma {:induction false} FreeStays(s: State, run: seq<Label>)
    requires ValidRun(s, run) && forall i :: 0 <= i < |run| ==> PoolAlone(run[i])
    ensures Exec(s, run).free == s.free && Exec(s, run).working == s.working && Exec(s, run).size == s.size
    decreases |run|
  {
    if run != [] {
      FreeStays(Apply(s, run[0]), run[1..]);
    }
  }

  /** The coroutine that finished last is the one that the next `new_task` puts to work, however many
      other steps come in between. */
  lemma FinishedLastStartsFirst(s: State, run: seq<Label>, maxTimeout: int)
    requires Inv(s) && Enabled(s, Finish) && ValidRun(Apply(s, Finish), run)
    requires forall i :: 0 <= i < |run| ==> PoolAlone(run[i])
    requires Enabled(Exec(Apply(s, Finish), run), NewTask(maxTimeout))
    ensures
      var s' := Exec(Apply(s, Finish), run);
      Apply(s', NewTask(maxTimeout)).stack == s'.stack + [Top(s)] && Apply(s', NewTask(maxTimeout)).free == s.free
  {
    FreeStays(Apply(s, Finish), run);
  }

  // ---------------------------------------------------------------- the call stack

  lemma StackDepth(s: State)
    requires PlacesOk(s)
    ensures |s.stack| <= s.size + 1
  {
    assert |Census(s.free, s.stack, s.polls)| == |multiset(Countdown(s.size))|;
  }

  lemma StackDistinct(s: State, i: nat, j: nat)
    requires StackOk(s) && PlacesOk(s) && i < j < |s.stack|
    ensures s.stack[i] != s.stack[j]
  {
    StackIsPool(s, j);
    if i > 0 {
      var t := s.stack[1..];
      OnePlace(s, s.stack[i]);
      assert t == t[..j - 1] + [t[j - 1]] + t[j..];
      assert s.stack[i] in multiset(t[..j - 1]) by { assert s.stack[i] == t[..j - 1][i - 1]; }
    }
  }

  /** Main is at the bottom, entries are distinct, and the depth is at most the pool size plus one;
      so whenever a coroutine yields there is an entry below it. */
  lemma CallStackDiscipline(size: nat, clock: nat, run: seq<Label>)
    requires ValidRun(Init(size, clock), run)
    ensures
      var s := Exec(Init(size, clock), run);
      && 1 <= |s.stack| <= size + 1 && s.stack[0] == MAIN
      && (forall i, j :: 0 <= i < j < |s.stack| ==> s.stack[i] != s.stack[j])
      && (Top(s) != MAIN ==> |s.stack| >= 2)
  {
    InvAlways(size, clock, run);
    var s := Exec(Init(size, clock), run);
    SizeFixed(Init(size, clock), run);
    StackDepth(s);
    forall i, j | 0 <= i < j < |s.stack| ensures s.stack[i] != s.stack[j] {
      StackDistinct(s, i, j);
    }
  }

  /** A chain of n tasks, each started by the one before. */
  lemma {:induction false} Chain(s: State, n: nat)
    requires UserTurn(s) && s.working + |s.free| == s.size && n <= |s.free|
    requires forall co :: co in s.free ==> co != MAIN
    ensures
      var run := seq(n, _ => NewTask(-1));
      ValidRun(s, run) && |Exec(s, run).stack| == |s.stack| + n
    decreases n
  {
    var run := seq(n, _ => NewTask(-1));
    if n != 0 {
      var s' := Apply(s, NewTask(-1));
      assert run[0] == NewTask(-1) && run[1..] == seq(n - 1, _ => NewTask(-1));
      assert s.free[0] in s.free && forall co :: co in s'.free ==> co in s.free;
      Chain(s', n - 1);
    }
  }

  /** The 128 slots of the call stack suffice for every run exactly when the pool has at most 127
      tasks; with more, a chain of nested task starts overruns it. */
  lemma StackFitsIff(size: nat)
    ensures size <= 127 <==>
            forall clock: nat, run ::
              ValidRun(Init(size, clock), run) ==> |Exec(Init(size, clock), run).stack| <= MAX_CALL_STACK
  {
    if size <= 127 {
      forall clock: nat, run | ValidRun(Init(size, clock), run)
        ensures |Exec(Init(size, clock), run).stack| <= MAX_CALL_STACK
      {
        CallStackDiscipline(size, clock, run);
      }
    } else {
      Chain(Init(size, 1), 128);
      assert |Exec(Init(size, 1), seq(128, _ => NewTask(-1))).stack| == 129;
    }
  }

  // ---------------------------------------------------------------- the loop goes on

  /** The phase of the loop, from the labels of a run. */
  function PhaseAfter(l: Label, phase: Phase): Phase {
    match l
    case EnterLoop(_) => Waiting
    case Wait(batch) => Preparing(batch)
    case Prepare => if phase.Preparing? && phase.batch != [] then Preparing(phase.batch[1..]) else phase
    case Take(_) => Joining
    case Join => Draining
    case EndDrain => Waiting
    case _ => phase
  }

  function FinalPhase(run: seq<Label>, phase: Phase): Phase {
    if run == [] then phase else FinalPhase(run[1..], PhaseAfter(run[0], phase))
  }

  lemma {:induction false} PhaseAlong(s: State, run: seq<Label>)
    requires ValidRun(s, run)
    ensures Exec(s, run).phase == FinalPhase(run, s.phase)
    decreases |run|
  {
    if run != [] {
      var l := run[0];
      if l.PollCall? { PollEffect(s, l.fds, l.timeout, l.accepts, l.fallback, l.clock); }
      PhaseAlong(Apply(s, l), run[1..]);
    }
  }

  /** What the running code can do next.  A coroutine can finish.  Main can enter the loop, and in the loop
      it can always go on: wait, prepare the next event or else read the clock, join, resume the next
      node or else end the drain. */
  function NextStep(s: State): Label {
    if Top(s) != MAIN then Finish
    else match s.phase
      case Setup => EnterLoop(s.timers.start)
      case Waiting => Wait([])
      case Preparing(batch) => if batch != [] then Prepare else Take(s.timers.start)
      case Joining => Join
      case Draining => if s.active != [] then Resume else EndDrain
  }

  /** No run gets stuck, and the loop goes through its phases in order for ever. */
  lemma NeverStuck(size: nat, clock: nat, run: seq<Label>)
    requires ValidRun(Init(size, clock), run)
    ensures
      var s := Exec(Init(size, clock), run);
      s.phase == FinalPhase(run, Setup) && Enabled(s, NextStep(s))
  {
    InvAlways(size, clock, run);
    PhaseAlong(Init(size, clock), run);
    var s := Exec(Init(size, clock), run);
    if Top(s) != MAIN { TaskAboveMain(s); }
  }

  /** The latest clock reading of a tick, or the one at the start. */
  function LatestTick(run: seq<Label>, start: nat): nat {
    if run == [] then start
    else LatestTick(run[1..], if run[0].Take? && start < run[0].clock then run[0].clock else start)
  }

  lemma {:induction false} StartAlong(s: State, run: seq<Label>)
    requires ValidRun(s, run) && 0 < s.timers.start
    ensures Exec(s, run).timers.start == LatestTick(run, s.timers.start)
    decreases |run|
  {
    if run != [] {
      var l := run[0];
      if l.PollCall? { PollEffect(s, l.fds, l.timeout, l.accepts, l.fallback, l.clock); }
      StartAlong(Apply(s, l), run[1..]);
    }
  }

  /** The timer's start, from which additions are judged, is the latest reading of all ticks. */
  lemma StartIsLatestTick(size: nat, clock: nat, run: seq<Label>)
    requires ValidRun(Init(size, clock), run) && 0 < clock
    ensures Exec(Init(size, clock), run).timers.start == LatestTick(run, clock)
  {
    StartAlong(Init(size, clock), run);
  }

  // ---------------------------------------------------------------- wake-ups

  /** How often a run resumes poll p. */
  ghost function WakeCount(s: State, run: seq<Label>, p: nat): nat
    requires ValidRun(s, run)
    decreases |run|
  {
    if run == [] then 0
    else (if run[0] == Resume && s.active[0].item.poll == p then 1 else 0) + WakeCount(Apply(s, run[0]), run[1..], p)
  }

  function Returned(s: State, p: nat): nat {
    if p < s.nextPoll && p !in s.polls then 1 else 0
  }

  lemma WakeStep(s: State, l: Label, p: nat)
    requires NodesOk(s) && Enabled(s, l)
    ensures Returned(Apply(s, l), p) ==
            Returned(s, p) + if l == Resume && s.active[0].item.poll == p then 1 else 0
  {
    match l {
      case PollCall(fds, timeout, accepts, fallback, clock) => PollEffect(s, fds, timeout, accepts, fallback, clock);
      case Prepare => PrepareShape(s);
      case Take(clock) => TakeShape(s, clock);
      case Resume => LinkedIsLive(s, s.active[0]);
      case _ =>
    }
  }

  lemma {:induction false} WakeAlong(s: State, run: seq<Label>, p: nat)
    requires Inv(s) && ValidRun(s, run)
    ensures Returned(Exec(s, run), p) == Returned(s, p) + WakeCount(s, run, p)
    decreases |run|
  {
    if run != [] {
      WakeStep(s, run[0], p);
      InvKept(s, run[0]);
      WakeAlong(Apply(s, run[0]), run[1..], p);
    }
  }

  /** A parked poll is resumed once if it has returned and not at all if it is still in progress:
      never twice, and it never returns without having been resumed. */
  lemma ExactlyOnceWakeUp(size: nat, clock: nat, run: seq<Label>, p: nat)
    requires ValidRun(Init(size, clock), run)
    ensures
      var s := Exec(Init(size, clock), run);
      WakeCount(Init(size, clock), run, p) == if p < s.nextPoll && p !in s.polls then 1 else 0
  {
    InvInit(size, clock);
    WakeAlong(Init(size, clock), run, p);
  }

  /** The number of entries with events, by the set of their indices. */
  lemma {:induction false} RaisedCounts(revents: seq<bv16>)
    ensures Raised(revents) == |set i | 0 <= i < |revents| && revents[i] != 0|
  {
    if revents != [] {
      var rest, last := revents[..|revents| - 1], |revents| - 1;
      RaisedCounts(rest);
      assert (set i | 0 <= i < |revents| && revents[i] != 0) ==
             (set i | 0 <= i < |rest| && rest[i] != 0) + if revents[last] != 0 then {last} else {};
    }
  }

  /** When a poll returns, its value is the number of its entries with non-zero revents; every entry
      holds only requested events, error or hang-up; and it is marked timed out, which happens only
      after its deadline, exactly when that number is 0: it was woken by an event or by the clock,
      never by both. */
  lemma PollContract(size: nat, clock: nat, run: seq<Label>)
    requires ValidRun(Init(size, clock), run) && Enabled(Exec(Init(size, clock), run), Resume)
    ensures
      var s := Exec(Init(size, clock), run);
      var p := s.active[0].item.poll;
      && p in s.polls && s.polls[p].co == s.active[0].item.co
      && var poll := s.polls[p];
         && |poll.revents| == |poll.fds|
         && poll.raiseCnt == |set i | 0 <= i < |poll.revents| && poll.revents[i] != 0|
         && (forall i :: 0 <= i < |poll.fds| ==> OnlyAsked(poll.fds[i].events, poll.revents[i]))
         && (poll.timedOut <==> poll.raiseCnt == 0)
         && (poll.timedOut ==> poll.expire <= s.loopNow)
  {
    InvAlways(size, clock, run);
    var s := Exec(Init(size, clock), run);
    LinkedIsLive(s, s.active[0]);
    assert PollOk(s.polls[s.active[0].item.poll], s.loopNow);
    RaisedCounts(s.polls[s.active[0].item.poll].revents);
  }

  /** Every registration points into a poll that has not returned, at the entry for its descriptor,
      although polls share descriptors, additions fail and removals hit other polls' entries; so every
      prepare call touches a live entry, which has not been reported before. */
  lemma NoStaleRegistration(size: nat, clock: nat, run: seq<Label>)
    requires ValidRun(Init(size, clock), run)
    ensures
      var s := Exec(Init(size, clock), run);
      && (forall fd :: fd in s.regs ==> RegOk(s.polls, fd, s.regs[fd]))
      && (Enabled(s, Prepare) ==> FreshEvent(s.polls, s.phase.batch[0]))
  {
    InvAlways(size, clock, run);
  }

  // ---------------------------------------------------------------- deadlines

  /** Woken, and on its way: the node is on the timeout list or the active list, or the poll is over. */
  ghost predicate Woken(s: State, p: nat) {
    && p < s.nextPoll
    && (p in s.polls ==> TimerOf(p, s.polls[p]) in s.timeouts || TimerOf(p, s.polls[p]) in s.active)
  }

  lemma WokenKept(s: State, l: Label, p: nat)
    requires ListsOk(s) && Enabled(s, l) && Woken(s, p)
    ensures Woken(Apply(s, l), p)
  {
    match l {
      case PollCall(fds, timeout, accepts, fallback, clock) => PollEffect(s, fds, timeout, accepts, fallback, clock);
      case Prepare => PrepareShape(s); PrepareFrame(s);
        assert p in s.polls ==> SamePoll(s.polls[p], DoPrepare(s).polls[p]);
      case Take(clock) => TakeShape(s, clock);
        assert p in s.polls ==> SamePoll(s.polls[p], DoTake(s, clock).polls[p]);
      case Resume =>
        assert s.active == [s.active[0]] + s.active[1..];
      case _ =>
    }
  }

  lemma {:induction false} WokenAlong(s: State, run: seq<Label>, p: nat)
    requires Inv(s) && ValidRun(s, run) && Woken(s, p)
    ensures Woken(Exec(s, run), p)
    decreases |run|
  {
    if run != [] {
      InvKept(s, run[0]);
      WokenKept(s, run[0], p);
      WokenAlong(Apply(s, run[0]), run[1..], p);
    }
  }

  lemma PendingIsTaken(t: Timers<Node>, clock: nat, x: Timer)
    requires Within(t, WHEEL_SIZE) && x in t.entries && x.expire <= clock
    ensures x in TickOut(t, clock)
  {
    var due := Select(t.entries, AtMost(clock));
    SelectIn(t.entries, AtMost(clock));
    StableSortSorts(due);
    assert x in multiset(due) && x in multiset(StableSort(due));
  }

  /** A tick wakes every poll that is due, also one whose deadline is the time of the last tick. */
  lemma TickWakes(s: State, clock: nat, p: nat)
    requires NodesOk(s) && ListsOk(s) && TimersOk(s) && s.phase.Preparing?
    requires p in s.polls && s.polls[p].expire <= clock
    ensures Woken(DoTake(s, clock), p)
  {
    var x := TimerOf(p, s.polls[p]);
    LiveIsLinked(s, p);
    TakeShape(s, clock);
    assert SamePoll(s.polls[p], DoTake(s, clock).polls[p]);
    if x !in s.active {
      assert x !in multiset(s.active) && x in multiset(s.timers.entries);
      PendingIsTaken(s.timers, clock, x);
    }
  }

  lemma DeadlineMet(s: State, now: nat, after: seq<Label>, p: nat)
    requires Inv(s) && Enabled(s, Take(now)) && p in s.polls && s.polls[p].expire <= now
    requires ValidRun(DoTake(s, now), after) && Exec(DoTake(s, now), after).phase == Waiting
    ensures p !in Exec(DoTake(s, now), after).polls
    ensures WakeCount(DoTake(s, now), after, p) == 1
  {
    TickWakes(s, now, p);
    TakeKeeps(s, now);
    TakeShape(s, now);
    InvAlong(DoTake(s, now), after);
    WokenAlong(DoTake(s, now), after, p);
    WakeAlong(DoTake(s, now), after, p);
  }

  /** No deadline is missed: a poll whose deadline has come when the loop reads its clock has been
      resumed, exactly once, by the time the loop waits again. */
  lemma NoDeadlineMissed(size: nat, clock: nat, before: seq<Label>, now: nat, after: seq<Label>, p: nat)
    requires ValidRun(Init(size, clock), before)
    requires
      var s := Exec(Init(size, clock), before);
      && Enabled(s, Take(now)) && p in s.polls && s.polls[p].expire <= now
      && ValidRun(DoTake(s, now), after) && Exec(DoTake(s, now), after).phase == Waiting
    ensures
      var s := Exec(Init(size, clock), before);
      p !in Exec(DoTake(s, now), after).polls && WakeCount(DoTake(s, now), after, p) == 1
  {
    InvAlways(size, clock, before);
    DeadlineMet(Exec(Init(size, clock), before), now, after, p);
  }

  // ---------------------------------------------------------------- the drain loop

  /** The nodes a run resumes, in order. */
  ghost function Resumed(s: State, run: seq<Label>): seq<Timer>
    requires ValidRun(s, run)
    decreases |run|
  {
    if run == [] then []
    else (if run[0] == Resume then [s.active[0]] else []) + Resumed(Apply(s, run[0]), run[1..])
  }

  lemma DrainStep(s: State, l: Label)
    requires s.phase == Draining && Enabled(s, l) && l != EndDrain
    ensures Apply(s, l).phase == Draining
    ensures s.active == (if l == Resume then [s.active[0]] else []) + Apply(s, l).active
  {
    match l {
      case PollCall(fds, timeout, accepts, fallback, clock) => PollEffect(s, fds, timeout, accepts, fallback, clock);
      case Resume => assert s.active == [s.active[0]] + s.active[1..];
      case _ =>
    }
  }

  /** While the loop drains, coroutines only add to the timer, so the active list is worked off from
      its head: what has been resumed and what is left make up the list as it was.  Hence a drain
      resumes at most as many coroutines as were active at its start. */
  lemma {:induction false} DrainInOrder(s: State, run: seq<Label>)
    requires s.phase == Draining && ValidRun(s, run)
    requires forall i :: 0 <= i < |run| ==> run[i] != EndDrain
    ensures s.active == Resumed(s, run) + Exec(s, run).active
    ensures Exec(s, run).phase == Draining
    decreases |run|
  {
    if run == [] {
      assert [] + s.active == s.active;
    } else {
      DrainStep(s, run[0]);
      DrainInOrder(Apply(s, run[0]), run[1..]);
    }
  }

  /** Resume order: in every drain, first the polls woken by events; then the timed-out ones, by
      deadline, and for equal deadlines in the order in which they parked. */
  lemma ResumeOrderOfDrain(size: nat, clock: nat, run: seq<Label>, drain: seq<Label>)
    requires ValidRun(Init(size, clock), run) && Exec(Init(size, clock), run).phase == Draining
    requires ValidRun(Exec(Init(size, clock), run), drain)
    requires forall i :: 0 <= i < |drain| ==> drain[i] != EndDrain
    ensures
      var s := Exec(Init(size, clock), run);
      var r := Resumed(s, drain);
      && |r| <= |s.active|
      && forall i, j :: 0 <= i < j < |r| && TimedOut(s.polls, r[i]) ==> TimedOut(s.polls, r[j]) && Before(r[i], r[j])
  {
    InvAlways(size, clock, run);
    var s := Exec(Init(size, clock), run);
    DrainInOrder(s, drain);
    var r := Resumed(s, drain);
    assert forall i :: 0 <= i < |r| ==> r[i] == s.active[i];
  }

  /** At the end of every iteration both lists are empty and every poll in progress is in the timer,
      so clearing the timeout list at the next one discards nothing. */
  lemma IterationEndsClean(size: nat, clock: nat, run: seq<Label>)
    requires ValidRun(Init(size, clock), run) && Exec(Init(size, clock), run).phase == Waiting
    ensures
      var s := Exec(Init(size, clock), run);
      && s.active == [] && s.timeouts == [] && s.stack == [MAIN]
      && multiset(s.timers.entries) == multiset(NodesOf(s.polls))
      && forall batch :: Enabled(s, Wait(batch)) ==> Apply(s, Wait(batch)) == s.(phase := Preparing(batch))
  {
    InvAlways(size, clock, run);
    var s := Exec(Init(size, clock), run);
    assert multiset(s.timers.entries) + multiset([]) + multiset([]) == multiset(NodesOf(s.polls));
  }

  // ---------------------------------------------------------------- the timer is the wheel

  /** What a step does to the wheel. */
  function WheelAfter(w: Wheel<Node>, s: State, l: Label): Wheel<Node>
    requires w.buckets != []
    requires l.PollCall? ==> Top(s) in s.tasks
    requires l.Prepare? ==> s.phase.Preparing? && s.phase.batch != []
  {
    match l
    case PollCall(fds, timeout, accepts, fallback, clock) =>
      var f := FixTimeout(s.tasks[Top(s)].budget, s.loopNow, timeout);
      var expire := clock + Clamp(f.timeout);
      if f.expired || fallback || expire < 0 then w else WheelAdd(w, Entry(Node(s.nextPoll, Top(s)), expire), clock)
    case Prepare =>
      var reg := s.phase.batch[0].reg;
      if !LiveItem(s.polls, reg) || |s.polls[reg.poll].revents| <= reg.index || s.polls[reg.poll].detached then w
      else WheelRemove(w, Node(reg.poll, s.polls[reg.poll].co))
    case Take(clock) => WheelTick(w, clock)
    case _ => w
  }

  lemma PollOnWheel(w: Wheel<Node>, s: State, fds: seq<PollFd>, timeout: int, accepts: seq<bool>, fallback: bool, clock: nat)
    requires Refines(w, s.timers) && |w.buckets| == WHEEL_SIZE
    requires Enabled(s, PollCall(fds, timeout, accepts, fallback, clock))
    ensures
      var f := FixTimeout(s.tasks[Top(s)].budget, s.loopNow, timeout);
      var x := Entry(Node(s.nextPoll, Top(s)), if clock + Clamp(f.timeout) < 0 then 0 else clock + Clamp(f.timeout));
      && (!f.expired ==> 0 <= clock + Clamp(f.timeout))
      && (!f.expired && !fallback ==> Refines(WheelAdd(w, x, clock), Add(s.timers, WHEEL_SIZE, x, clock)))
  {
    var f := FixTimeout(s.tasks[Top(s)].budget, s.loopNow, timeout);
    if !f.expired {
      EffectiveWait(s.tasks[Top(s)].budget, s.loopNow, timeout);
      AddRefines(w, s.timers, Entry(Node(s.nextPoll, Top(s)), clock + f.timeout), clock);
    }
  }

  lemma PollAdds(s: State, fds: seq<PollFd>, timeout: int, accepts: seq<bool>, fallback: bool, clock: nat)
    requires Top(s) in s.tasks && |accepts| == |fds|
    ensures
      var f := FixTimeout(s.tasks[Top(s)].budget, s.loopNow, timeout);
      var s' := DoPoll(s, fds, timeout, accepts, fallback, clock);
      && (f.expired || fallback ==> s'.timers == s.timers)
      && (!f.expired && !fallback && 0 <= clock + Clamp(f.timeout) ==>
            s'.timers == Add(s.timers, WHEEL_SIZE, Entry(Node(s.nextPoll, Top(s)), clock + Clamp(f.timeout)), clock))
  {
  }

  lemma PrepareOnWheel(w: Wheel<Node>, s: State)
    requires Refines(w, s.timers) && |w.buckets| == WHEEL_SIZE && s.phase.Preparing? && s.phase.batch != []
    ensures Refines(WheelAfter(w, s, Prepare), DoPrepare(s).timers) && |WheelAfter(w, s, Prepare).buckets| == WHEEL_SIZE
  {
    var reg := s.phase.batch[0].reg;
    if reg.poll in s.polls { RemoveRefines(w, s.timers, Node(reg.poll, s.polls[reg.poll].co)); }
  }

  lemma WheelStepFollows(w: Wheel<Node>, s: State, l: Label)
    requires Refines(w, s.timers) && |w.buckets| == WHEEL_SIZE && Enabled(s, l)
    ensures Refines(WheelAfter(w, s, l), Apply(s, l).timers) && |WheelAfter(w, s, l).buckets| == WHEEL_SIZE
    ensures l.Take? ==> WheelTickOut(w, l.clock) == TickOut(s.timers, l.clock)
  {
    match l {
      case PollCall(fds, timeout, accepts, fallback, clock) =>
        PollOnWheel(w, s, fds, timeout, accepts, fallback, clock);
        PollAdds(s, fds, timeout, accepts, fallback, clock);
      case Prepare => PrepareOnWheel(w, s);
      case Take(clock) => TickRefines(w, s.timers, clock);
      case _ =>
    }
  }

  ghost function WheelAlong(w: Wheel<Node>, s: State, run: seq<Label>): Wheel<Node>
    requires w.buckets != [] && ValidRun(s, run)
    decreases |run|
  {
    if run == [] then w else
      var w' := WheelAfter(w, s, run[0]);
      if w'.buckets == [] then w' else WheelAlong(w', Apply(s, run[0]), run[1..])
  }

  /** Along every run a wheel of 60000 buckets that executes the same additions, removals and ticks
      holds exactly the nodes that the scheduler has pending, each in the bucket of its deadline. */
  lemma {:induction false} WheelFollowsRun(w: Wheel<Node>, s: State, run: seq<Label>)
    requires Refines(w, s.timers) && |w.buckets| == WHEEL_SIZE && ValidRun(s, run)
    ensures Refines(WheelAlong(w, s, run), Exec(s, run).timers)
    decreases |run|
  {
    if run != [] {
      WheelStepFollows(w, s, run[0]);
      WheelFollowsRun(WheelAfter(w, s, run[0]), Apply(s, run[0]), run[1..]);
    }
  }

  lemma WheelOfEveryRun(size: nat, clock: nat, run: seq<Label>)
    requires ValidRun(Init(size, clock), run)
    ensures
      var w := EmptyWheel<Node>(WHEEL_SIZE, clock);
      Refines(WheelAlong(w, Init(size, clock), run), Exec(Init(size, clock), run).timers)
  {
    EmptyRefines<Node>(WHEEL_SIZE, clock);
    WheelFollowsRun(EmptyWheel(WHEEL_SIZE, clock), Init(size, clock), run);
  }

  // ---------------------------------------------------------------- timeouts and budgets

  /** How a poll goes on, for every task, clock and request: it expires exactly when the task's budget is
      spent; else the plain poll is taken exactly when it is asked for; else it is refused its timer
      exactly for a timeout below -1, a clock that has run backwards past the last tick, or a tick so
      long ago that the deadline is a lap ahead; else it parks.  With a last tick less than 59990
      milliseconds ago a legal poll is never refused. */
  lemma RefusedIff(s: State, fds: seq<PollFd>, timeout: int, accepts: seq<bool>, fallback: bool, clock: nat)
    requires Enabled(s, PollCall(fds, timeout, accepts, fallback, clock))
    ensures
      var b := s.tasks[Top(s)].budget;
      var f := FixTimeout(b, s.loopNow, timeout);
      var start := Started(s.timers, clock).start;
      && (Outcome(s, fallback, f, clock) == Expired <==> Spent(b, s.loopNow))
      && (Outcome(s, fallback, f, clock) == Fallback <==> !Spent(b, s.loopNow) && fallback)
      && (Outcome(s, fallback, f, clock) == Refused <==>
            && !Spent(b, s.loopNow) && !fallback
            && (timeout < -1 || clock < start || start + WHEEL_SIZE <= clock + f.timeout))
      && (-1 <= timeout && start <= clock < start + 59990 ==> Outcome(s, fallback, f, clock) != Refused)
  {
    EffectiveWait(s.tasks[Top(s)].budget, s.loopNow, timeout);
  }

  /** A task without a limit parks, whatever the loop clock reads, for 10 milliseconds or a shorter time
      that it asks for. */
  lemma UnlimitedParks(s: State, fds: seq<PollFd>, timeout: int, accepts: seq<bool>, clock: nat)
    requires Enabled(s, PollCall(fds, timeout, accepts, false, clock)) && s.tasks[Top(s)].budget.max == -1
    requires -1 <= timeout && Started(s.timers, clock).start <= clock < Started(s.timers, clock).start + 59990
    ensures
      var s' := Apply(s, PollCall(fds, timeout, accepts, false, clock));
      var wait := if timeout == -1 || timeout > 10 then 10 else timeout;
      && s.nextPoll in s'.polls && s'.polls[s.nextPoll].co == Top(s) && s'.polls[s.nextPoll].expire == clock + wait
      && s'.timers.entries == s.timers.entries + [Entry(Node(s.nextPoll, Top(s)), clock + wait)]
      && s'.tasks == s.tasks && |s'.stack| == |s.stack| - 1
  {
    UnlimitedNeverExpires(s.tasks[Top(s)].budget, s.loopNow, timeout);
    PollEffect(s, fds, timeout, accepts, false, clock);
    assert s.tasks[Top(s) := s.tasks[Top(s)]] == s.tasks;
  }

  /** A poll that parks waits for the shortest of the 10 milliseconds of the clamp, the timeout asked
      for, and what is left of the task's budget; -1 stands for no limit in both. */
  lemma WaitIsShortest(s: State, fds: seq<PollFd>, timeout: int, accepts: seq<bool>, clock: nat)
    requires NodesOk(s) && Enabled(s, PollCall(fds, timeout, accepts, false, clock))
    requires
      var f := FixTimeout(s.tasks[Top(s)].budget, s.loopNow, timeout);
      Outcome(s, false, f, clock) == Parks
    ensures
      var b := FixTimeout(s.tasks[Top(s)].budget, s.loopNow, timeout).budget;
      var s' := DoPoll(s, fds, timeout, accepts, false, clock);
      var asked := if timeout == -1 then MAX_TIMEOUT_MS else timeout;
      var left := if b.max == -1 then MAX_TIMEOUT_MS else b.left;
      && s.nextPoll in s'.polls && s.nextPoll !in s.polls
      && s'.polls[s.nextPoll].co == Top(s) && s'.polls[s.nextPoll].fds == fds
      && s'.polls[s.nextPoll].expire == clock + Min(MAX_TIMEOUT_MS, Min(asked, left))
      && -1 <= timeout && clock <= s'.polls[s.nextPoll].expire
  {
  }
}
