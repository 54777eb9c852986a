/**
How long a registration lasts.  The kernel keys registrations by descriptor, and every poll that
returns or is refused removes the registrations of all its descriptors, whoever made them.
 */
module RegistrationRuns {
  import opened TimerSpec
  import opened TaskBudget
  import opened PollRegistry
  import opened Scheduler
  import opened SchedulerInvariant

  /** What a poll registers: if it parks, exactly its descriptors that the kernel accepts and that nobody
      else has registered, each for the first entry that is accepted; otherwise nothing. */
  lemma PollRegisters(s: State, l: Label, fd: int, i: nat)
    requires RegsOk(s) && NodesOk(s) && Enabled(s, l) && l.PollCall?
    ensures
      var parks := Outcome(s, l.fallback, FixTimeout(s.tasks[Top(s)].budget, s.loopNow, l.timeout), l.clock) == Parks;
      var s' := Apply(s, l);
      (fd in s'.regs && s'.regs[fd] == Reg(s.nextPoll, i)) <==>
        parks && fd > -1 && fd !in s.regs && FirstEntry(l.fds, l.accepts, |l.fds|, fd, i)
  {
    PollEffect(s, l.fds, l.timeout, l.accepts, l.fallback, l.clock);
    AddAllSound(s.regs, l.fds, l.accepts, s.nextPoll, |l.fds|);
    forall x | x in s.regs ensures x > -1 && s.regs[x].poll != s.nextPoll { assert RegOk(s.polls, x, s.regs[x]); }
    AddThenDel(s.regs, l.fds, l.accepts, s.nextPoll);
  }

  /** The step removes the registration of the descriptor, if there is one. */
  ghost predicate Drops(s: State, l: Label, fd: int)
    requires Enabled(s, l)
  {
    match l
    case Close(closed) => closed == fd
    case Resume =>
      var p := s.active[0].item.poll;
      p in s.polls && Mentions(s.polls[p].fds, |s.polls[p].fds|, fd)
    case PollCall(fds, timeout, accepts, fallback, clock) =>
      && Outcome(s, fallback, FixTimeout(s.tasks[Top(s)].budget, s.loopNow, timeout), clock) == Refused
      && Mentions(fds, |fds|, fd)
    case _ => false
  }

  /** The descriptor is registered for exactly this entry. */
  predicate Stands(s: State, fd: int, reg: Reg) {
    fd in s.regs && s.regs[fd] == reg
  }

  lemma PollDrops(s: State, l: Label, fd: int, reg: Reg)
    requires RegsOk(s) && NodesOk(s) && Enabled(s, l) && l.PollCall? && reg.poll < s.nextPoll
    ensures Stands(Apply(s, l), fd, reg) <==> Stands(s, fd, reg) && !Drops(s, l, fd)
  {
    AddAllSound(s.regs, l.fds, l.accepts, s.nextPoll, |l.fds|);
    forall x | x in s.regs ensures x > -1 && s.regs[x].poll != s.nextPoll { assert RegOk(s.polls, x, s.regs[x]); }
    AddThenDel(s.regs, l.fds, l.accepts, s.nextPoll);
  }

  /** One step: a registration stands afterwards exactly if it stood before and was not dropped. */
  lemma StandsStep(s: State, l: Label, fd: int, reg: Reg)
    requires RegsOk(s) && NodesOk(s) && Enabled(s, l) && reg.poll < s.nextPoll
    ensures Stands(Apply(s, l), fd, reg) <==> Stands(s, fd, reg) && !Drops(s, l, fd)
    ensures reg.poll < Apply(s, l).nextPoll
  {
    match l {
      case PollCall(fds, timeout, accepts, fallback, clock) => PollDrops(s, l, fd, reg);
      case Resume =>
        var p := s.active[0].item.poll;
        if p in s.polls {
          forall x | x in s.regs ensures x > -1 { assert RegOk(s.polls, x, s.regs[x]); }
          DelAllExact(s.regs, s.polls[p].fds, |s.polls[p].fds|);
        }
      case _ =>
    }
  }

  /** No step of the run removes registrations of the descriptor. */
  ghost predicate NeverDropped(s: State, run: seq<Label>, fd: int)
    requires ValidRun(s, run)
    decreases |run|
  {
    run != [] ==> !Drops(s, run[0], fd) && NeverDropped(Apply(s, run[0]), run[1..], fd)
  }

  /** A registration lasts exactly until the first close of its descriptor, return of a poll that names
      it, or refusal of one that does: a later registration is never the same one. */
  lemma {:induction false} StandsIff(s: State, run: seq<Label>, fd: int, reg: Reg)
    requires Inv(s) && ValidRun(s, run) && reg.poll < s.nextPoll
    ensures Stands(Exec(s, run), fd, reg) <==> Stands(s, fd, reg) && NeverDropped(s, run, fd)
    decreases |run|
  {
    if run != [] {
      StandsStep(s, run[0], fd, reg);
      InvKept(s, run[0]);
      StandsIff(Apply(s, run[0]), run[1..], fd, reg);
    }
  }

  // ---------------------------------------------------------------- a poll's own registrations

  /** A step other than the return of poll p removes the registration. */
  ghost predicate OtherDrops(s: State, l: Label, fd: int, p: nat)
    requires Enabled(s, l)
  {
    Drops(s, l, fd) && !(l.Resume? && s.active[0].item.poll == p)
  }

  ghost predicate NoOtherDrops(s: State, run: seq<Label>, fd: int, p: nat)
    requires ValidRun(s, run)
    decreases |run|
  {
    run != [] ==> !OtherDrops(s, run[0], fd, p) && NoOtherDrops(Apply(s, run[0]), run[1..], fd, p)
  }

  /** A poll that has returned does not come back. */
  lemma GoneForGood(s: State, l: Label, p: nat)
    requires NodesOk(s) && Enabled(s, l) && p < s.nextPoll
    ensures p in Apply(s, l).polls ==> p in s.polls && !(l.Resume? && s.active[0].item.poll == p)
  {
    if l.Resume? { LinkedIsLive(s, s.active[0]); }
  }

  lemma {:induction false} StillInProgress(s: State, run: seq<Label>, fd: int, p: nat)
    requires Inv(s) && ValidRun(s, run) && p < s.nextPoll && p in Exec(s, run).polls
    ensures p in s.polls && (NeverDropped(s, run, fd) <==> NoOtherDrops(s, run, fd, p))
    decreases |run|
  {
    if run != [] {
      InvKept(s, run[0]);
      StandsStep(s, run[0], fd, Reg(p, 0));
      StillInProgress(Apply(s, run[0]), run[1..], fd, p);
      GoneForGood(s, run[0], p);
    }
  }

  /** While a poll is in progress its registration stands if and only if no other poll that names the
      descriptor has returned or been refused since, and nobody has closed it. */
  lemma OwnRegistrationIff(s: State, run: seq<Label>, fd: int)
    requires Inv(s) && ValidRun(s, run) && fd in s.regs && s.regs[fd].poll in Exec(s, run).polls
    ensures Stands(Exec(s, run), fd, s.regs[fd]) <==> NoOtherDrops(s, run, fd, s.regs[fd].poll)
  {
    assert RegOk(s.polls, fd, s.regs[fd]);
    StandsIff(s, run, fd, s.regs[fd]);
    StillInProgress(s, run, fd, s.regs[fd].poll);
  }

  // ---------------------------------------------------------------- a run in which a registration is taken away

  lemma RunCons(s: State, l: Label, rest: seq<Label>)
    requires Enabled(s, l) && ValidRun(Apply(s, l), rest)
    ensures ValidRun(s, [l] + rest) && Exec(s, [l] + rest) == Exec(Apply(s, l), rest)
  {
    assert ([l] + rest)[1..] == rest;
  }

  /** The task handed out polls one descriptor for at most 10 milliseconds, before the loop runs. */
  lemma ParkOne(s: State, x: PollFd, timeout: int, t: nat)
    requires s.stack == [MAIN, Top(s)] && Top(s) != MAIN && Top(s) in s.tasks && s.tasks[Top(s)].budget.max == -1
    requires x.fd > -1 && 0 <= timeout <= MAX_TIMEOUT_MS && 0 < t == s.timers.start
    ensures
      var l := PollCall([x], timeout, [true], false, t);
      var poll := Poll(Top(s), t + timeout, [x], [0], 0, false, false);
      && Enabled(s, l)
      && var s' := Apply(s, l);
      && s'.timers == Timers(s.timers.entries + [TimerOf(s.nextPoll, poll)], t)
      && s'.regs == (if x.fd in s.regs then s.regs else s.regs[x.fd := Reg(s.nextPoll, 0)])
      && s'.polls == s.polls[s.nextPoll := poll] && s'.nextPoll == s.nextPoll + 1 && s'.stack == [MAIN]
      && s'.size == s.size && s'.free == s.free && s'.working == s.working && s'.tasks.Keys == s.tasks.Keys
      && s'.phase == s.phase && s'.active == s.active && s'.timeouts == s.timeouts
  {
    PollEffect(s, [x], timeout, [true], false, t);
    assert seq(|[x]|, _ => 0 as bv16) == [0];
    assert AddAll(s.regs, [x], [true], s.nextPoll, 0) == s.regs;
  }

  /** A task without a budget is started before the loop runs. */
  lemma StartOne(s: State, n: nat)
    requires s.stack == [MAIN] && s.phase == Setup && 1 <= n && s.free == Countdown(n) && s.working != s.size
    ensures
      && Enabled(s, NewTask(-1))
      && var s' := Apply(s, NewTask(-1));
      && s'.stack == [MAIN, n] && s'.free == Countdown(n - 1) && s'.working == s.working + 1 && s'.size == s.size
      && n in s'.tasks && s'.tasks[n].budget.max == -1
      && s'.timers == s.timers && s'.regs == s.regs && s'.polls == s.polls && s'.nextPoll == s.nextPoll
      && s'.phase == s.phase && s'.active == s.active && s'.timeouts == s.timeouts
  {
    assert Countdown(n) == [n] + Countdown(n - 1);
  }

  lemma SortedAlone(b: Timer)
    ensures StableSort([b]) == [b]
  {
    assert [b][..0] == [];
  }

  lemma OneIsDue(a: Timer, b: Timer, t: nat)
    requires a.expire == t + 10 && b.expire == t + 1
    ensures TickOut(Timers([a, b], t), t + 1) == [b]
  {
    SelectNone([a], AtMost(t + 1));
    SelectAll([b], AtMost(t + 1));
    SelectAppend([a], [b], AtMost(t + 1));
    assert [a] + [b] == [a, b] && [] + [b] == [b];
    SortedAlone(b);
  }

  /** A task polls the descriptor for 10 milliseconds. */
  function FirstPoll(x: PollFd, t: nat): seq<Label> {
    [NewTask(-1)] + ([PollCall([x], 10, [true], false, t)] + [])
  }

  function Drain(): seq<Label> {
    [Join] + ([Resume] + [])
  }

  function Iteration(t: nat): seq<Label> {
    [EnterLoop(t + 1)] + ([Wait([])] + ([Take(t + 1)] + Drain()))
  }

  /** Another task polls it for 1 millisecond, and the loop runs its first iteration after that. */
  function SecondPoll(x: PollFd, t: nat): seq<Label> {
    [NewTask(-1)] + ([PollCall([x], 1, [true], false, t)] + Iteration(t))
  }

  lemma FirstStands(size: nat, x: PollFd, t: nat)
    requires 2 <= size && x.fd > -1 && 0 < t
    ensures ValidRun(Init(size, t), FirstPoll(x, t))
    ensures
      var s := Exec(Init(size, t), FirstPoll(x, t));
      var poll := Poll(size, t + 10, [x], [0], 0, false, false);
      && s.regs == map[x.fd := Reg(0, 0)] && s.polls == map[0 := poll] && s.timers == Timers([TimerOf(0, poll)], t)
      && s.nextPoll == 1 && s.stack == [MAIN] && s.free == Countdown(size - 1) && s.working == 1 && s.size == size
      && s.phase == Setup && s.active == [] && s.timeouts == []
  {
    var s0 := Init(size, t);
    StartOne(s0, size);
    var s1 := Apply(s0, NewTask(-1));
    ParkOne(s1, x, 10, t);
    RunCons(s1, PollCall([x], 10, [true], false, t), []);
    RunCons(s0, NewTask(-1), [PollCall([x], 10, [true], false, t)] + []);
  }

  /** The due poll returns, and takes away the registration of its descriptor. */
  lemma DrainTakesAway(s: State, x: PollFd, b: Timer)
    requires s.stack == [MAIN] && s.phase == Joining && s.active == [] && s.timeouts == [b]
    requires b.item.poll in s.polls && s.polls[b.item.poll].fds == [x] && x.fd > -1
    ensures ValidRun(s, Drain())
    ensures
      var s' := Exec(s, Drain());
      s'.regs == s.regs - {x.fd} && s'.polls == s.polls - {b.item.poll}
  {
    var s1 := Apply(s, Join);
    assert s1.active == [b];
    assert DelAll(s1.regs, [x], 0) == s1.regs;
    RunCons(s1, Resume, []);
    RunCons(s, Join, [Resume] + []);
  }

  lemma OneIsTaken(s: State, t: nat, a: Timer, b: Timer)
    requires s.stack == [MAIN] && s.phase == Preparing([]) && s.timeouts == []
    requires s.timers == Timers([a, b], t) && a.expire == t + 10 && b.expire == t + 1
    ensures
      && Enabled(s, Take(t + 1))
      && var s' := Apply(s, Take(t + 1));
      && s'.timeouts == [b] && s'.phase == Joining && s'.stack == s.stack && s'.active == s.active
      && s'.regs == s.regs && s'.polls.Keys == s.polls.Keys
      && forall p :: p in s.polls ==> s'.polls[p].fds == s.polls[p].fds
  {
    OneIsDue(a, b, t);
    assert [] + [b] == [b];
  }

  lemma ClockTakesAway(s: State, x: PollFd, t: nat, a: Timer, b: Timer)
    requires s.stack == [MAIN] && s.phase == Preparing([]) && s.active == [] && s.timeouts == []
    requires s.timers == Timers([a, b], t) && a.expire == t + 10 && b.expire == t + 1
    requires b.item.poll in s.polls && s.polls[b.item.poll].fds == [x] && x.fd > -1
    ensures ValidRun(s, [Take(t + 1)] + Drain())
    ensures
      var s' := Exec(s, [Take(t + 1)] + Drain());
      s'.regs == s.regs - {x.fd} && s'.polls.Keys == s.polls.Keys - {b.item.poll}
  {
    OneIsTaken(s, t, a, b);
    DrainTakesAway(Apply(s, Take(t + 1)), x, b);
    RunCons(s, Take(t + 1), Drain());
  }

  lemma IterationTakesAway(s: State, x: PollFd, t: nat, a: Timer, b: Timer)
    requires s.stack == [MAIN] && s.phase == Setup && s.active == [] && s.timeouts == []
    requires s.timers == Timers([a, b], t) && a.expire == t + 10 && b.expire == t + 1
    requires b.item.poll in s.polls && s.polls[b.item.poll].fds == [x] && x.fd > -1
    ensures ValidRun(s, Iteration(t))
    ensures
      var s' := Exec(s, Iteration(t));
      s'.regs == s.regs - {x.fd} && s'.polls.Keys == s.polls.Keys - {b.item.poll}
  {
    var s1 := Apply(s, EnterLoop(t + 1));
    var s2 := Apply(s1, Wait([]));
    ClockTakesAway(s2, x, t, a, b);
    RunCons(s1, Wait([]), [Take(t + 1)] + Drain());
    RunCons(s, EnterLoop(t + 1), [Wait([])] + ([Take(t + 1)] + Drain()));
  }

  /** Registrations do get taken away, for every descriptor and every clock: the first poll has
      registered its descriptor, and after the second one has returned the first is still in progress
      and the descriptor is not registered. */
  lemma RegistrationTakenAway(size: nat, x: PollFd, t: nat)
    requires 2 <= size && x.fd > -1 && 0 < t
    ensures ValidRun(Init(size, t), FirstPoll(x, t))
    ensures
      var s := Exec(Init(size, t), FirstPoll(x, t));
      && Stands(s, x.fd, Reg(0, 0)) && 0 in s.polls && s.polls[0].fds == [x]
      && ValidRun(s, SecondPoll(x, t))
      && 0 in Exec(s, SecondPoll(x, t)).polls && x.fd !in Exec(s, SecondPoll(x, t)).regs
  {
    FirstStands(size, x, t);
    var s := Exec(Init(size, t), FirstPoll(x, t));
    StartOne(s, size - 1);
    var s1 := Apply(s, NewTask(-1));
    ParkOne(s1, x, 1, t);
    var s2 := Apply(s1, PollCall([x], 1, [true], false, t));
    IterationTakesAway(s2, x, t, s2.timers.entries[0], s2.timers.entries[1]);
    RunCons(s1, PollCall([x], 1, [true], false, t), Iteration(t));
    RunCons(s, NewTask(-1), [PollCall([x], 1, [true], false, t)] + Iteration(t));
  }
}
