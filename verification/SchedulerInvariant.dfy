/** What every step of the scheduler keeps. */
module SchedulerInvariant {
  import opened TimerSpec
  import opened TaskStates
  import opened TaskBudget
  import opened EventMask
  import opened PollRegistry
  import opened Scheduler

  // ---------------------------------------------------------------- the invariant

  ghost function Parked(polls: map<nat, Poll>): set<Co> {
    set p | p in polls :: polls[p].co
  }

  ghost function NodesOf(polls: map<nat, Poll>): set<Timer> {
    set p | p in polls :: TimerOf(p, polls[p])
  }

  /** Main is at the bottom of the call stack, and alone there outside set-up and drain. */
  ghost predicate StackOk(s: State) {
    && s.stack != [] && s.stack[0] == MAIN
    && (s.phase == Setup || s.phase == Draining || |s.stack| == 1)
  }

  /** Where coroutines can be: on the free list, on the call stack above main, parked in a poll. */
  ghost function Census(free: seq<Co>, stack: seq<Co>, polls: map<nat, Poll>): multiset<Co>
    requires stack != []
  {
    multiset(free) + multiset(stack[1..]) + multiset(Parked(polls))
  }

  /** No coroutine is parked in two polls. */
  ghost predicate Injective(polls: map<nat, Poll>) {
    forall p, q :: p in polls && q in polls && polls[p].co == polls[q].co ==> p == q
  }

  /** Every pool coroutine is in exactly one place, once. */
  ghost predicate PlacesOk(s: State) {
    s.stack != [] && Census(s.free, s.stack, s.polls) == multiset(Countdown(s.size)) && Injective(s.polls)
  }

  /** The free list and the counter agree, and the free tasks are the waiting ones. */
  ghost predicate PoolOk(s: State) {
    && s.working + |s.free| == s.size
    && (forall co :: co in s.tasks <==> 1 <= co <= s.size)
    && (forall co :: co in s.tasks ==> (s.tasks[co].state == TaskWaiting <==> co in s.free))
  }

  /** Every poll in progress has its timer node in exactly one list, once, and nothing else is linked. */
  ghost predicate NodesOk(s: State) {
    && multiset(s.timers.entries) + multiset(s.timeouts) + multiset(s.active) == multiset(NodesOf(s.polls))
    && (forall p :: p in s.polls ==> p < s.nextPoll)
  }

  ghost predicate RegOk(polls: map<nat, Poll>, fd: int, reg: Reg) {
    fd > -1 && LiveItem(polls, reg) && polls[reg.poll].fds[reg.index].fd == fd
  }

  /** Every registration points at the entry of a live poll for the registered descriptor. */
  ghost predicate RegsOk(s: State) {
    forall fd :: fd in s.regs ==> RegOk(s.polls, fd, s.regs[fd])
  }

  function Raised(revents: seq<bv16>): nat {
    if revents == [] then 0
    else Raised(revents[..|revents| - 1]) + if revents[|revents| - 1] != 0 then 1 else 0
  }

  /** Only requested events, error and hang-up are reported. */
  predicate OnlyAsked(events: bv16, revents: bv16) {
    revents & !(events | POLLERR | POLLHUP) == 0
  }

  /** `raise_cnt` counts the entries with events; a poll is detached by its first event; a poll that
      timed out has none and is overdue. */
  ghost predicate PollOk(poll: Poll, loopNow: nat) {
    && |poll.revents| == |poll.fds|
    && poll.raiseCnt == Raised(poll.revents)
    && (forall i :: 0 <= i < |poll.fds| ==> OnlyAsked(poll.fds[i].events, poll.revents[i]))
    && (poll.detached <==> poll.raiseCnt > 0)
    && (poll.timedOut ==> poll.raiseCnt == 0 && poll.expire <= loopNow)
  }

  ghost predicate PollsOk(s: State) {
    forall p :: p in s.polls ==> PollOk(s.polls[p], s.loopNow)
  }

  /** A node waits in the timer, or was taken by the clock, or was woken by an event. */
  ghost predicate ListsOk(s: State) {
    && (forall x :: x in s.timers.entries && x.item.poll in s.polls ==>
          !s.polls[x.item.poll].detached && !s.polls[x.item.poll].timedOut)
    && (forall x :: x in s.timeouts && x.item.poll in s.polls ==> s.polls[x.item.poll].timedOut)
    && (forall x :: x in s.active && x.item.poll in s.polls ==>
          (s.polls[x.item.poll].detached <==> !s.polls[x.item.poll].timedOut))
    && (s.phase != Joining ==> s.timeouts == [])
    && (s.phase == Setup || s.phase == Waiting ==> s.active == [])
    && (s.phase.Preparing? || s.phase == Joining ==>
          forall x :: x in s.active && x.item.poll in s.polls ==> !s.polls[x.item.poll].timedOut)
  }

  ghost predicate FreshEvent(polls: map<nat, Poll>, e: Event) {
    && LiveItem(polls, e.reg) && e.reg.index < |polls[e.reg.poll].revents|
    && polls[e.reg.poll].revents[e.reg.index] == 0
    && MayReport(polls[e.reg.poll].fds[e.reg.index].events, e.events)
  }

  /** The rest of a batch: distinct registrations of live polls, none of them reported yet. */
  ghost predicate BatchOk(s: State) {
    s.phase.Preparing? ==>
      && (forall i :: 0 <= i < |s.phase.batch| ==> FreshEvent(s.polls, s.phase.batch[i]))
      && (forall i, j :: 0 <= i < j < |s.phase.batch| ==> s.phase.batch[i].reg != s.phase.batch[j].reg)
  }

  /** Deadline order, and for equal deadlines the order of parking. */
  predicate Before(x: Timer, y: Timer) {
    x.expire < y.expire || (x.expire == y.expire && x.item.poll < y.item.poll)
  }

  ghost predicate ParkOrder(s: seq<Timer>) {
    forall i, j :: 0 <= i < j < |s| ==> s[i].item.poll < s[j].item.poll
  }

  ghost predicate DeadlineOrder(s: seq<Timer>) {
    forall i, j :: 0 <= i < j < |s| ==> Before(s[i], s[j])
  }

  ghost predicate TimersOk(s: State) {
    Within(s.timers, WHEEL_SIZE) && ParkOrder(s.timers.entries)
  }

  predicate TimedOut(polls: map<nat, Poll>, x: Timer) {
    x.item.poll in polls && polls[x.item.poll].timedOut
  }

  /** Event-woken nodes come first; behind them the timed-out ones, by deadline and then by age. */
  ghost predicate OrderOk(s: State) {
    && DeadlineOrder(s.timeouts)
    && forall i, j :: 0 <= i < j < |s.active| && TimedOut(s.polls, s.active[i]) ==>
         TimedOut(s.polls, s.active[j]) && Before(s.active[i], s.active[j])
  }

  ghost predicate Inv(s: State) {
    && StackOk(s) && PlacesOk(s) && PoolOk(s)
    && NodesOk(s) && RegsOk(s) && PollsOk(s) && ListsOk(s)
    && BatchOk(s) && TimersOk(s) && OrderOk(s)
  }

  // ---------------------------------------------------------------- consequences

  lemma {:induction false} CountdownOnce(n: nat, co: Co)
    ensures multiset(Countdown(n))[co] == if 1 <= co <= n then 1 else 0
  {
    if n != 0 {
      CountdownOnce(n - 1, co);
    }
  }

  /** A linked node belongs to the live poll it names. */
  lemma LinkedIsLive(s: State, x: Timer)
    requires NodesOk(s)
    requires x in s.timers.entries || x in s.timeouts || x in s.active
    ensures x.item.poll in s.polls && x == TimerOf(x.item.poll, s.polls[x.item.poll])
  {
    assert x in multiset(s.timers.entries) + multiset(s.timeouts) + multiset(s.active);
    assert x in NodesOf(s.polls);
  }

  /** A live poll is linked, in exactly one place of exactly one list. */
  lemma LiveIsLinked(s: State, p: nat)
    requires NodesOk(s) && p in s.polls
    ensures
      var x := TimerOf(p, s.polls[p]);
      multiset(s.timers.entries)[x] + multiset(s.timeouts)[x] + multiset(s.active)[x] == 1
  {
    var x := TimerOf(p, s.polls[p]);
    assert x in NodesOf(s.polls);
    assert multiset(NodesOf(s.polls))[x] == 1;
  }

  /** A coroutine occurs at most once among the three places, and only pool coroutines occur. */
  lemma OnePlace(s: State, co: Co)
    requires PlacesOk(s)
    ensures multiset(s.free)[co] + multiset(s.stack[1..])[co] + multiset(Parked(s.polls))[co] ==
            if 1 <= co <= s.size then 1 else 0
  {
    CountdownOnce(s.size, co);
    assert Census(s.free, s.stack, s.polls)[co] == multiset(Countdown(s.size))[co];
  }

  /** Everything above main on the call stack is a pool coroutine that is nowhere else. */
  lemma StackIsPool(s: State, i: nat)
    requires PlacesOk(s) && 1 <= i < |s.stack|
    ensures 1 <= s.stack[i] <= s.size && s.stack[i] !in s.free && s.stack[i] !in Parked(s.polls)
  {
    var co := s.stack[i];
    OnePlace(s, co);
    assert co == s.stack[1..][i - 1];
    assert co in multiset(s.stack[1..]);
    assert co in s.free <==> co in multiset(s.free);
  }

  /** When main is on top it is alone: no other stack entry is main. */
  lemma MainAlone(s: State)
    requires StackOk(s) && PlacesOk(s) && Top(s) == MAIN
    ensures s.stack == [MAIN]
  {
    if |s.stack| > 1 { StackIsPool(s, |s.stack| - 1); }
  }

  /** A coroutine other than main is above it. */
  lemma TaskAboveMain(s: State)
    requires StackOk(s) && PlacesOk(s) && Top(s) != MAIN
    ensures |s.stack| >= 2 && Top(s) !in Parked(s.polls) && Top(s) !in s.free && 1 <= Top(s) <= s.size
  {
    StackIsPool(s, |s.stack| - 1);
  }

  // ---------------------------------------------------------------- adding and removing a poll

  lemma ParkedAdd(polls: map<nat, Poll>, p: nat, poll: Poll)
    requires p !in polls
    ensures Parked(polls[p := poll]) == Parked(polls) + {poll.co}
  {
    var polls' := polls[p := poll];
    forall co | co in Parked(polls) + {poll.co} ensures co in Parked(polls') {
      if co == poll.co {
        assert polls'[p].co == co;
      } else {
        var q :| q in polls && polls[q].co == co;
        assert q in polls' && polls'[q].co == co;
      }
    }
  }

  lemma ParkedRemove(polls: map<nat, Poll>, p: nat)
    requires p in polls && Injective(polls)
    ensures Parked(polls - {p}) == Parked(polls) - {polls[p].co}
  {
    var polls' := polls - {p};
    forall co | co in Parked(polls) - {polls[p].co} ensures co in Parked(polls') {
      var q :| q in polls && polls[q].co == co;
      assert q in polls' && polls'[q].co == co;
    }
    forall co | co in Parked(polls') ensures co in Parked(polls) - {polls[p].co} {
      var q :| q in polls' && polls'[q].co == co;
      assert q in polls && polls[q].co == co;
    }
  }

  lemma NodesAdd(polls: map<nat, Poll>, p: nat, poll: Poll)
    requires p !in polls
    ensures NodesOf(polls[p := poll]) == NodesOf(polls) + {TimerOf(p, poll)}
    ensures TimerOf(p, poll) !in NodesOf(polls)
  {
    var polls' := polls[p := poll];
    forall x | x in NodesOf(polls) + {TimerOf(p, poll)} ensures x in NodesOf(polls') {
      if x == TimerOf(p, poll) {
        assert x == TimerOf(p, polls'[p]);
      } else {
        var q :| q in polls && x == TimerOf(q, polls[q]);
        assert q in polls' && x == TimerOf(q, polls'[q]);
      }
    }
  }

  lemma NodesRemove(polls: map<nat, Poll>, p: nat)
    requires p in polls
    ensures NodesOf(polls - {p}) == NodesOf(polls) - {TimerOf(p, polls[p])}
    ensures TimerOf(p, polls[p]) in NodesOf(polls)
  {
    var polls' := polls - {p};
    forall x | x in NodesOf(polls) - {TimerOf(p, polls[p])} ensures x in NodesOf(polls') {
      var q :| q in polls && x == TimerOf(q, polls[q]);
      assert q in polls' && x == TimerOf(q, polls'[q]);
    }
    forall x | x in NodesOf(polls') ensures x in NodesOf(polls) - {TimerOf(p, polls[p])} {
      var q :| q in polls' && x == TimerOf(q, polls'[q]);
      assert q in polls && x == TimerOf(q, polls[q]);
    }
  }

  lemma MultisetAdd<T>(a: set<T>, x: T)
    requires x !in a
    ensures multiset(a + {x}) == multiset(a) + multiset{x}
  {
  }

  lemma MultisetCancel<T>(a: multiset<T>, b: multiset<T>, x: T)
    requires a + multiset{x} == b + multiset{x}
    ensures a == b
  {
    forall y: T ensures a[y] == b[y] {
      assert (a + multiset{x})[y] == (b + multiset{x})[y];
    }
  }

  predicate SamePoll(x: Poll, y: Poll) {
    x.co == y.co && x.expire == y.expire && x.fds == y.fds
  }

  /** Polls that differ only in what events and the clock did to them. */
  ghost predicate SameShape(a: map<nat, Poll>, b: map<nat, Poll>) {
    && a.Keys == b.Keys
    && forall p :: p in a ==> SamePoll(a[p], b[p])
  }

  lemma SameShapeSame(a: map<nat, Poll>, b: map<nat, Poll>)
    requires SameShape(a, b)
    ensures Parked(a) == Parked(b) && NodesOf(a) == NodesOf(b)
    ensures Injective(a) ==> Injective(b)
  {
  }

  lemma PrepareShape(s: State)
    requires s.phase.Preparing? && s.phase.batch != []
    ensures SameShape(s.polls, DoPrepare(s).polls)
  {
    var reg := s.phase.batch[0].reg;
    if LiveItem(s.polls, reg) && reg.index < |s.polls[reg.poll].revents| {
      assert DoPrepare(s).polls.Keys == s.polls.Keys;
    }
  }

  lemma PrepareFrame(s: State)
    requires s.phase.Preparing? && s.phase.batch != []
    ensures
      var s' := DoPrepare(s);
      && s'.size == s.size && s'.stack == s.stack && s'.free == s.free && s'.working == s.working
      && s'.tasks == s.tasks && s'.timeouts == s.timeouts && s'.regs == s.regs && s'.phase.Preparing?
  {
  }

  lemma TakeShape(s: State, clock: nat)
    ensures SameShape(s.polls, DoTake(s, clock).polls)
  {
  }

  // ---------------------------------------------------------------- call stack and places

  lemma StackKept(s: State, l: Label)
    requires StackOk(s) && PlacesOk(s) && Enabled(s, l)
    ensures StackOk(Apply(s, l))
  {
    if Top(s) == MAIN { MainAlone(s); } else { TaskAboveMain(s); }
  }

  /** Popping the call stack takes the top out of it. */
  lemma PopStack(stack: seq<Co>)
    requires |stack| >= 2
    ensures multiset(stack[1..]) == multiset(stack[..|stack| - 1][1..]) + multiset{stack[|stack| - 1]}
  {
    assert stack[1..] == stack[..|stack| - 1][1..] + [stack[|stack| - 1]];
  }

  lemma PushStack(stack: seq<Co>, co: Co)
    requires stack != []
    ensures multiset((stack + [co])[1..]) == multiset(stack[1..]) + multiset{co}
  {
    assert (stack + [co])[1..] == stack[1..] + [co];
  }

  /** Parking: the top of the stack becomes the coroutine of a new poll. */
  lemma ParkPlaces(free: seq<Co>, stack: seq<Co>, polls: map<nat, Poll>, p: nat, poll: Poll)
    requires |stack| >= 2 && p !in polls && Injective(polls)
    requires poll.co == stack[|stack| - 1] && poll.co !in Parked(polls)
    ensures Census(free, stack[..|stack| - 1], polls[p := poll]) == Census(free, stack, polls)
    ensures Injective(polls[p := poll])
  {
    PopStack(stack);
    ParkedAdd(polls, p, poll);
    MultisetAdd(Parked(polls), poll.co);
    forall q | q in polls ensures polls[q].co != poll.co {
      assert polls[q].co in Parked(polls);
    }
  }

  /** Resuming: the coroutine of a poll that is over goes on top of the stack. */
  lemma ResumePlaces(free: seq<Co>, stack: seq<Co>, polls: map<nat, Poll>, p: nat)
    requires stack != [] && p in polls && Injective(polls)
    ensures Census(free, stack + [polls[p].co], polls - {p}) == Census(free, stack, polls)
    ensures Injective(polls - {p})
  {
    var co := polls[p].co;
    PushStack(stack, co);
    ParkedRemove(polls, p);
    assert co in Parked(polls);
    assert Parked(polls) == Parked(polls - {p}) + {co};
    MultisetAdd(Parked(polls - {p}), co);
  }

  lemma NewTaskPlaces(s: State, maxTimeout: int)
    requires PlacesOk(s)
    ensures PlacesOk(DoNewTask(s, maxTimeout))
  {
    if s.free != [] {
      assert s.free == [s.free[0]] + s.free[1..];
      PushStack(s.stack, s.free[0]);
    }
  }

  /** The effect of `poll_inner` on stack and polls, in both cases. */
  lemma PollEffect(s: State, fds: seq<PollFd>, timeout: int, accepts: seq<bool>, fallback: bool, clock: nat)
    requires Top(s) in s.tasks && |accepts| == |fds|
    ensures
      var f := FixTimeout(s.tasks[Top(s)].budget, s.loopNow, timeout);
      var s' := DoPoll(s, fds, timeout, accepts, fallback, clock);
      && s'.size == s.size && s'.free == s.free && s'.working == s.working
      && s'.timeouts == s.timeouts && s'.active == s.active && s'.phase == s.phase && s'.loopNow == s.loopNow
      && s'.tasks == s.tasks[Top(s) := s.tasks[Top(s)].(budget := f.budget)]
      && (Outcome(s, fallback, f, clock) == Parks ==>
            var poll := Poll(Top(s), clock + Clamp(f.timeout), fds, seq(|fds|, _ => 0), 0, false, false);
            && s'.stack == (if s.stack == [] then [] else s.stack[..|s.stack| - 1])
            && s'.polls == s.polls[s.nextPoll := poll] && s'.nextPoll == s.nextPoll + 1
            && Accepts(s.timers, WHEEL_SIZE, poll.expire, clock)
            && s'.timers == Timers(s.timers.entries + [TimerOf(s.nextPoll, poll)], Started(s.timers, clock).start)
            && s'.regs == AddAll(s.regs, fds, accepts, s.nextPoll, |fds|))
      && (Outcome(s, fallback, f, clock) != Parks ==>
            && s'.stack == s.stack && s'.polls == s.polls && s'.nextPoll == s.nextPoll
            && (s'.timers == s.timers || s'.timers == Started(s.timers, clock))
            && (s'.regs == s.regs || s'.regs == DelAll(AddAll(s.regs, fds, accepts, s.nextPoll, |fds|), fds, |fds|)))
  {
  }

  lemma PollPlaces(s: State, fds: seq<PollFd>, timeout: int, accepts: seq<bool>, fallback: bool, clock: nat)
    requires StackOk(s) && PlacesOk(s) && NodesOk(s) && Top(s) != MAIN && Top(s) in s.tasks && |accepts| == |fds|
    ensures PlacesOk(DoPoll(s, fds, timeout, accepts, fallback, clock))
  {
    var s' := DoPoll(s, fds, timeout, accepts, fallback, clock);
    PollEffect(s, fds, timeout, accepts, fallback, clock);
    TaskAboveMain(s);
    if s.nextPoll in s'.polls {
      ParkPlaces(s.free, s.stack, s.polls, s.nextPoll, s'.polls[s.nextPoll]);
    }
  }

  lemma FinishPlaces(s: State)
    requires StackOk(s) && PlacesOk(s) && Top(s) != MAIN && Top(s) in s.tasks
    ensures PlacesOk(DoFinish(s))
  {
    TaskAboveMain(s);
    PopStack(s.stack);
    assert multiset([Top(s)] + s.free) == multiset{Top(s)} + multiset(s.free);
    var s' := DoFinish(s);
    assert Census(s'.free, s'.stack, s'.polls) == Census(s.free, s.stack, s.polls);
  }

  lemma SameShapePlaces(s: State, s': State)
    requires PlacesOk(s) && SameShape(s.polls, s'.polls)
    requires s'.free == s.free && s'.stack == s.stack && s'.size == s.size
    ensures PlacesOk(s')
  {
  }

  lemma ResumeStepPlaces(s: State)
    requires PlacesOk(s) && NodesOk(s) && s.active != []
    ensures PlacesOk(DoResume(s))
  {
    LinkedIsLive(s, s.active[0]);
    ResumePlaces(s.free, s.stack, s.polls, s.active[0].item.poll);
  }

  lemma NewTaskPool(s: State, maxTimeout: int)
    requires PlacesOk(s) && PoolOk(s)
    ensures PoolOk(DoNewTask(s, maxTimeout))
  {
    if s.free != [] {
      var co, rest := s.free[0], s.free[1..];
      OnePlace(s, co);
      assert s.free == [co] + rest;
      assert multiset(s.free) == multiset{co} + multiset(rest);
      assert co in rest ==> co in multiset(rest);
      assert forall c :: c in s.free <==> c == co || c in rest;
    }
  }

  lemma FinishPool(s: State)
    requires StackOk(s) && PlacesOk(s) && PoolOk(s) && Top(s) != MAIN && Top(s) in s.tasks
    ensures PoolOk(DoFinish(s))
  {
  }

  lemma PollPool(s: State, fds: seq<PollFd>, timeout: int, accepts: seq<bool>, fallback: bool, clock: nat)
    requires PoolOk(s) && Top(s) in s.tasks && |accepts| == |fds|
    ensures PoolOk(DoPoll(s, fds, timeout, accepts, fallback, clock))
  {
    PollEffect(s, fds, timeout, accepts, fallback, clock);
  }

  // ---------------------------------------------------------------- nodes

  /** A poll that no event has reached has its node in the timer while a batch is prepared. */
  lemma UndetachedInTimer(s: State, p: nat)
    requires NodesOk(s) && ListsOk(s) && s.phase.Preparing?
    requires p in s.polls && !s.polls[p].detached
    ensures multiset(s.timers.entries)[TimerOf(p, s.polls[p])] == 1
  {
    var poll, x := s.polls[p], TimerOf(p, s.polls[p]);
    LiveIsLinked(s, p);
    assert x in s.active ==> poll.detached;
    assert x !in multiset(s.active);
  }

  lemma PollNodes(s: State, fds: seq<PollFd>, timeout: int, accepts: seq<bool>, fallback: bool, clock: nat)
    requires NodesOk(s) && Top(s) in s.tasks && |accepts| == |fds|
    ensures NodesOk(DoPoll(s, fds, timeout, accepts, fallback, clock))
  {
    var s' := DoPoll(s, fds, timeout, accepts, fallback, clock);
    PollEffect(s, fds, timeout, accepts, fallback, clock);
    if s.nextPoll in s'.polls {
      var poll := s'.polls[s.nextPoll];
      NodesAdd(s.polls, s.nextPoll, poll);
      MultisetAdd(NodesOf(s.polls), TimerOf(s.nextPoll, poll));
    }
  }

  lemma PrepareNodes(s: State)
    requires NodesOk(s) && ListsOk(s) && s.phase.Preparing? && s.phase.batch != []
    ensures NodesOk(DoPrepare(s))
  {
    PrepareShape(s);
    SameShapeSame(s.polls, DoPrepare(s).polls);
    var reg := s.phase.batch[0].reg;
    if LiveItem(s.polls, reg) && reg.index < |s.polls[reg.poll].revents| && !s.polls[reg.poll].detached {
      var x := TimerOf(reg.poll, s.polls[reg.poll]);
      UndetachedInTimer(s, reg.poll);
      forall i | 0 <= i < |s.timers.entries| && s.timers.entries[i].item == x.item ensures s.timers.entries[i] == x {
        LinkedIsLive(s, s.timers.entries[i]);
      }
      SelectExcept(s.timers.entries, x);
    }
  }

  lemma TakeNodes(s: State, clock: nat)
    requires NodesOk(s)
    ensures NodesOk(DoTake(s, clock))
  {
    TakeShape(s, clock);
    SameShapeSame(s.polls, DoTake(s, clock).polls);
    SelectSplit(s.timers.entries, clock);
    StableSortSorts(Select(s.timers.entries, AtMost(clock)));
  }

  lemma ResumeNodes(s: State)
    requires NodesOk(s) && s.active != []
    ensures NodesOk(DoResume(s))
  {
    var x := s.active[0];
    LinkedIsLive(s, x);
    NodesRemove(s.polls, x.item.poll);
    var rest := NodesOf(s.polls - {x.item.poll});
    assert NodesOf(s.polls) == rest + {x};
    MultisetAdd(rest, x);
    assert s.active == [x] + s.active[1..];
    MultisetCancel(multiset(s.timers.entries) + multiset(s.timeouts) + multiset(s.active[1..]), multiset(rest), x);
  }

  // ---------------------------------------------------------------- registrations

  lemma PollRegs(s: State, fds: seq<PollFd>, timeout: int, accepts: seq<bool>, fallback: bool, clock: nat)
    requires NodesOk(s) && RegsOk(s) && Top(s) in s.tasks && |accepts| == |fds|
    ensures RegsOk(DoPoll(s, fds, timeout, accepts, fallback, clock))
  {
    var s' := DoPoll(s, fds, timeout, accepts, fallback, clock);
    PollEffect(s, fds, timeout, accepts, fallback, clock);
    assert forall fd :: fd in s.regs ==> RegOk(s.polls, fd, s.regs[fd]);
    AddAllSound(s.regs, fds, accepts, s.nextPoll, |fds|);
    AddThenDel(s.regs, fds, accepts, s.nextPoll);
    forall fd | fd in s'.regs ensures RegOk(s'.polls, fd, s'.regs[fd]) {
      if fd in s.regs {
        assert RegOk(s.polls, fd, s.regs[fd]);
      }
    }
  }

  lemma SameShapeRegs(s: State, s': State)
    requires RegsOk(s) && SameShape(s.polls, s'.polls) && s'.regs == s.regs
    ensures RegsOk(s')
  {
  }

  /** When a poll returns no registration points into it any more, whoever removed which. */
  lemma ResumeRegs(s: State)
    requires RegsOk(s) && s.active != []
    ensures RegsOk(DoResume(s))
  {
    var s', p := DoResume(s), s.active[0].item.poll;
    assert forall fd :: fd in s.regs ==> RegOk(s.polls, fd, s.regs[fd]);
    if p in s.polls {
      var fds := s.polls[p].fds;
      DelAllExact(s.regs, fds, |fds|);
      forall fd | fd in s'.regs ensures RegOk(s'.polls, fd, s'.regs[fd]) {
        assert RegOk(s.polls, fd, s.regs[fd]);
        assert !Mentions(fds, |fds|, fd);
      }
    }
  }

  // ---------------------------------------------------------------- event counts

  lemma {:induction false} RaisedZero(revents: seq<bv16>)
    ensures Raised(revents) == 0 <==> forall i :: 0 <= i < |revents| ==> revents[i] == 0
  {
    if revents != [] {
      RaisedZero(revents[..|revents| - 1]);
      if Raised(revents) == 0 {
        assert forall i :: 0 <= i < |revents| - 1 ==> revents[..|revents| - 1][i] == revents[i];
      }
    }
  }

  lemma {:induction false} RaisedUpdate(revents: seq<bv16>, k: nat, v: bv16)
    requires k < |revents| && revents[k] == 0 && v != 0
    ensures Raised(revents[k := v]) == Raised(revents) + 1
  {
    var n := |revents| - 1;
    if k == n {
      assert revents[k := v][..n] == revents[..n];
    } else {
      assert revents[k := v][..n] == revents[..n][k := v];
      RaisedUpdate(revents[..n], k, v);
    }
  }

  /** Before the clock is read in an iteration no poll is marked. */
  lemma NoneTimedOut(s: State, p: nat)
    requires NodesOk(s) && ListsOk(s) && p in s.polls
    requires s.phase == Setup || s.phase == Waiting || s.phase.Preparing?
    ensures !s.polls[p].timedOut
  {
    var x := TimerOf(p, s.polls[p]);
    LiveIsLinked(s, p);
    assert x in multiset(s.timers.entries) || x in multiset(s.active);
  }

  /** Outside an iteration no poll has been reached by an event either. */
  lemma NoneDetached(s: State, p: nat)
    requires NodesOk(s) && ListsOk(s) && p in s.polls && (s.phase == Setup || s.phase == Waiting)
    ensures !s.polls[p].detached
  {
    var x := TimerOf(p, s.polls[p]);
    LiveIsLinked(s, p);
    assert x in multiset(s.timers.entries);
  }

  lemma PollPolls(s: State, fds: seq<PollFd>, timeout: int, accepts: seq<bool>, fallback: bool, clock: nat)
    requires PollsOk(s) && Top(s) in s.tasks && |accepts| == |fds|
    ensures PollsOk(DoPoll(s, fds, timeout, accepts, fallback, clock))
  {
    PollEffect(s, fds, timeout, accepts, fallback, clock);
    RaisedZero(seq(|fds|, _ => 0));
    assert forall i :: 0 <= i < |fds| ==> OnlyAsked(fds[i].events, 0);
  }

  lemma PreparePolls(s: State)
    requires NodesOk(s) && ListsOk(s) && PollsOk(s) && BatchOk(s) && s.phase.Preparing? && s.phase.batch != []
    ensures PollsOk(DoPrepare(s))
  {
    var e := s.phase.batch[0];
    assert FreshEvent(s.polls, e);
    var p, poll := e.reg.poll, s.polls[e.reg.poll];
    ReportIsVisible(poll.fds[e.reg.index].events, e.events);
    RaisedUpdate(poll.revents, e.reg.index, EpollToPoll(e.events));
    NoneTimedOut(s, p);
    assert PollOk(poll, s.loopNow);
  }

  lemma DueIsPending(s: State, clock: nat, x: Timer)
    requires x in TickOut(s.timers, clock)
    ensures x in s.timers.entries && x.expire <= clock
  {
    var due := Select(s.timers.entries, AtMost(clock));
    SelectIn(s.timers.entries, AtMost(clock));
    StableSortSorts(due);
    assert x in multiset(StableSort(due));
  }

  /** Exactly the nodes that the tick took are marked. */
  lemma MarkedIffDue(s: State, clock: nat, p: nat)
    requires NodesOk(s) && ListsOk(s) && s.phase.Preparing? && p in s.polls
    ensures
      var s' := DoTake(s, clock);
      && p in s'.polls
      && (TimerOf(p, s.polls[p]) in TickOut(s.timers, clock) ==>
            s'.polls[p] == s.polls[p].(timedOut := true) && !s.polls[p].detached && s.polls[p].expire <= clock)
      && (TimerOf(p, s.polls[p]) !in TickOut(s.timers, clock) ==> s'.polls[p] == s.polls[p] && !s.polls[p].timedOut)
  {
    var x := TimerOf(p, s.polls[p]);
    NoneTimedOut(s, p);
    assert s.timeouts + TickOut(s.timers, clock) == TickOut(s.timers, clock);
    if x in TickOut(s.timers, clock) { DueIsPending(s, clock, x); }
  }

  lemma TakePolls(s: State, clock: nat)
    requires NodesOk(s) && ListsOk(s) && PollsOk(s) && s.phase.Preparing?
    ensures PollsOk(DoTake(s, clock))
  {
    var s' := DoTake(s, clock);
    forall p | p in s'.polls ensures PollOk(s'.polls[p], s'.loopNow) {
      MarkedIffDue(s, clock, p);
      assert PollOk(s.polls[p], s.loopNow);
    }
  }

  // ---------------------------------------------------------------- lists

  lemma PollLists(s: State, fds: seq<PollFd>, timeout: int, accepts: seq<bool>, fallback: bool, clock: nat)
    requires NodesOk(s) && ListsOk(s) && Top(s) in s.tasks && |accepts| == |fds|
    ensures ListsOk(DoPoll(s, fds, timeout, accepts, fallback, clock))
  {
    var s' := DoPoll(s, fds, timeout, accepts, fallback, clock);
    PollEffect(s, fds, timeout, accepts, fallback, clock);
    forall x | x in s.timers.entries || x in s.timeouts || x in s.active
      ensures x.item.poll in s.polls && s'.polls[x.item.poll] == s.polls[x.item.poll]
    {
      LinkedIsLive(s, x);
    }
  }

  lemma PrepareLists(s: State)
    requires NodesOk(s) && ListsOk(s) && BatchOk(s) && s.phase.Preparing? && s.phase.batch != []
    ensures ListsOk(DoPrepare(s))
  {
    var s', e := DoPrepare(s), s.phase.batch[0];
    assert FreshEvent(s.polls, e);
    var p := e.reg.poll;
    var node := TimerOf(p, s.polls[p]);
    NoneTimedOut(s, p);
    SelectIn(s.timers.entries, Except(node.item));
    forall x | x in s'.timers.entries
      ensures x.item.poll in s.polls && s'.polls[x.item.poll] == s.polls[x.item.poll] && x in s.timers.entries
    {
      LinkedIsLive(s, x);
    }
  }

  lemma TakeLists(s: State, clock: nat)
    requires NodesOk(s) && ListsOk(s) && s.phase.Preparing?
    ensures ListsOk(DoTake(s, clock))
  {
    var s' := DoTake(s, clock);
    SelectIn(s.timers.entries, Beyond(clock));
    forall x | x in s'.timers.entries ensures x.item.poll in s.polls && s'.polls[x.item.poll] == s.polls[x.item.poll]
        && x in s.timers.entries {
      LinkedIsLive(s, x);
      MarkedIffDue(s, clock, x.item.poll);
      if x in TickOut(s.timers, clock) { DueIsPending(s, clock, x); }
    }
    forall x | x in s'.timeouts ensures x.item.poll in s'.polls && s'.polls[x.item.poll].timedOut {
      DueIsPending(s, clock, x);
      LinkedIsLive(s, x);
      MarkedIffDue(s, clock, x.item.poll);
    }
    forall x | x in s'.active ensures x.item.poll in s.polls && s'.polls[x.item.poll] == s.polls[x.item.poll] {
      LinkedIsLive(s, x);
      MarkedIffDue(s, clock, x.item.poll);
      LiveIsLinked(s, x.item.poll);
      assert x in multiset(s.active);
      assert x in s.timers.entries <==> x in multiset(s.timers.entries);
      if x in TickOut(s.timers, clock) { DueIsPending(s, clock, x); }
    }
  }

  lemma JoinLists(s: State)
    requires NodesOk(s) && ListsOk(s) && PollsOk(s) && s.phase == Joining
    ensures ListsOk(s.(active := s.active + s.timeouts, timeouts := [], phase := Draining))
  {
  }

  // ---------------------------------------------------------------- batches

  lemma WaitBatch(s: State, batch: seq<Event>)
    requires NodesOk(s) && RegsOk(s) && PollsOk(s) && ListsOk(s) && s.phase == Waiting && KernelBatch(s, batch)
    ensures BatchOk(s.(timeouts := [], phase := Preparing(batch)))
  {
    forall i | 0 <= i < |batch| ensures FreshEvent(s.polls, batch[i]) {
      var reg := batch[i].reg;
      assert Registered(s.regs, reg);
      var fd :| fd in s.regs && s.regs[fd] == reg;
      assert RegOk(s.polls, fd, reg);
      assert Reportable(s.polls, batch[i]);
      NoneDetached(s, reg.poll);
      assert PollOk(s.polls[reg.poll], s.loopNow);
      RaisedZero(s.polls[reg.poll].revents);
    }
  }

  lemma PrepareBatch(s: State)
    requires BatchOk(s) && s.phase.Preparing? && s.phase.batch != []
    ensures BatchOk(DoPrepare(s))
  {
    var s', e, rest := DoPrepare(s), s.phase.batch[0], s.phase.batch[1..];
    assert FreshEvent(s.polls, e);
    forall i | 0 <= i < |rest| ensures FreshEvent(s'.polls, rest[i]) {
      assert rest[i] == s.phase.batch[i + 1] && rest[i].reg != e.reg;
      assert FreshEvent(s.polls, rest[i]);
    }
  }

  // ---------------------------------------------------------------- timers

  lemma {:induction false} SelectParkOrder(s: seq<Timer>, t: Test<Node>)
    requires ParkOrder(s)
    ensures ParkOrder(Select(s, t))
  {
    if s != [] {
      var rest := s[..|s| - 1];
      SelectParkOrder(rest, t);
      SelectIn(rest, t);
    }
  }

  lemma PollTimers(s: State, fds: seq<PollFd>, timeout: int, accepts: seq<bool>, fallback: bool, clock: nat)
    requires NodesOk(s) && TimersOk(s) && Top(s) in s.tasks && |accepts| == |fds|
    requires s.timers.start == 0 ==> 0 < clock
    ensures TimersOk(DoPoll(s, fds, timeout, accepts, fallback, clock))
  {
    PollEffect(s, fds, timeout, accepts, fallback, clock);
    forall i | 0 <= i < |s.timers.entries| ensures s.timers.entries[i].item.poll < s.nextPoll {
      LinkedIsLive(s, s.timers.entries[i]);
    }
  }

  lemma PrepareTimers(s: State)
    requires TimersOk(s) && s.phase.Preparing? && s.phase.batch != []
    ensures TimersOk(DoPrepare(s))
  {
    var reg := s.phase.batch[0].reg;
    if reg.poll in s.polls {
      var item := TimerOf(reg.poll, s.polls[reg.poll]).item;
      RemoveWithin(s.timers, WHEEL_SIZE, item);
      SelectParkOrder(s.timers.entries, Except(item));
    }
  }

  lemma TakeTimers(s: State, clock: nat)
    requires TimersOk(s)
    ensures TimersOk(DoTake(s, clock))
  {
    if Started(s.timers, clock).start <= clock {
      TickWithin(Started(s.timers, clock), WHEEL_SIZE, clock);
      SelectParkOrder(s.timers.entries, Beyond(clock));
    }
  }

  // ---------------------------------------------------------------- order of resumption

  lemma {:induction false} InsertStableElements(s: seq<Timer>, x: Timer)
    ensures forall i :: 0 <= i < |InsertStable(s, x)| ==> InsertStable(s, x)[i] == x || InsertStable(s, x)[i] in s
  {
    if s != [] && x.expire < s[|s| - 1].expire {
      InsertStableElements(s[..|s| - 1], x);
    }
  }

  lemma {:induction false} InsertStableDeadline(s: seq<Timer>, x: Timer)
    requires DeadlineOrder(s) && forall i :: 0 <= i < |s| ==> s[i].item.poll < x.item.poll
    ensures DeadlineOrder(InsertStable(s, x))
  {
    if s != [] {
      var rest, last := s[..|s| - 1], s[|s| - 1];
      assert forall i :: 0 <= i < |rest| ==> Before(rest[i], last);
      if x.expire < last.expire {
        InsertStableDeadline(rest, x);
        InsertStableElements(rest, x);
        assert forall y :: y in rest ==> Before(y, last);
      }
    }
  }

  /** What a tick takes from nodes in order of parking is ordered by deadline and then by parking. */
  lemma {:induction false} StableSortDeadline(s: seq<Timer>)
    requires ParkOrder(s)
    ensures DeadlineOrder(StableSort(s))
  {
    if s != [] {
      var rest, last := s[..|s| - 1], s[|s| - 1];
      StableSortDeadline(rest);
      StableSortSorts(rest);
      forall i | 0 <= i < |StableSort(rest)| ensures StableSort(rest)[i].item.poll < last.item.poll {
        assert StableSort(rest)[i] in multiset(rest);
      }
      InsertStableDeadline(StableSort(rest), last);
    }
  }

  lemma PollOrder(s: State, fds: seq<PollFd>, timeout: int, accepts: seq<bool>, fallback: bool, clock: nat)
    requires NodesOk(s) && OrderOk(s) && Top(s) in s.tasks && |accepts| == |fds|
    ensures OrderOk(DoPoll(s, fds, timeout, accepts, fallback, clock))
  {
    var s' := DoPoll(s, fds, timeout, accepts, fallback, clock);
    PollEffect(s, fds, timeout, accepts, fallback, clock);
    forall i | 0 <= i < |s.active| ensures TimedOut(s'.polls, s.active[i]) == TimedOut(s.polls, s.active[i]) {
      LinkedIsLive(s, s.active[i]);
    }
  }

  /** With no timed-out node among the active ones there is nothing to order. */
  lemma NoneMarkedOrder(s: State)
    requires ListsOk(s) && (s.phase.Preparing? || s.phase == Joining) && DeadlineOrder(s.timeouts)
    ensures OrderOk(s)
  {
  }

  lemma TakeOrder(s: State, clock: nat)
    requires NodesOk(s) && ListsOk(s) && TimersOk(s) && s.phase.Preparing?
    ensures OrderOk(DoTake(s, clock))
  {
    var due := Select(s.timers.entries, AtMost(clock));
    TakeLists(s, clock);
    SelectParkOrder(s.timers.entries, AtMost(clock));
    StableSortDeadline(due);
    assert [] + TickOut(s.timers, clock) == TickOut(s.timers, clock);
    NoneMarkedOrder(DoTake(s, clock));
  }

  lemma JoinOrder(s: State)
    requires NodesOk(s) && ListsOk(s) && OrderOk(s) && s.phase == Joining
    ensures OrderOk(s.(active := s.active + s.timeouts, timeouts := [], phase := Draining))
  {
    forall x | x in s.timeouts ensures TimedOut(s.polls, x) { LinkedIsLive(s, x); }
    assert forall x :: x in s.active ==> !TimedOut(s.polls, x);
  }

  /** No two active nodes belong to the same poll. */
  lemma OtherNode(s: State, i: nat)
    requires NodesOk(s) && 0 < i < |s.active|
    ensures s.active[i].item.poll != s.active[0].item.poll
  {
    var x := s.active[0];
    LinkedIsLive(s, x);
    LinkedIsLive(s, s.active[i]);
    LiveIsLinked(s, x.item.poll);
    assert s.active == [x] + s.active[1..];
    assert s.active[i] == s.active[1..][i - 1];
    assert s.active[i] in multiset(s.active[1..]);
    assert multiset(s.active)[x] == 1 + multiset(s.active[1..])[x];
  }

  lemma ResumeOrder(s: State)
    requires NodesOk(s) && OrderOk(s) && s.active != []
    ensures OrderOk(DoResume(s))
  {
    var s', x, rest := DoResume(s), s.active[0], s.active[1..];
    forall i | 0 <= i < |rest| ensures TimedOut(s'.polls, rest[i]) == TimedOut(s.polls, rest[i]) {
      OtherNode(s, i + 1);
      assert rest[i] == s.active[i + 1];
    }
  }

  lemma ResumeLists(s: State)
    requires NodesOk(s) && ListsOk(s) && s.phase == Draining && s.active != []
    ensures ListsOk(DoResume(s))
  {
  }

  // ---------------------------------------------------------------- every step keeps the invariant

  lemma NewTaskKeeps(s: State, maxTimeout: int)
    requires Inv(s) && UserTurn(s)
    ensures Inv(DoNewTask(s, maxTimeout))
  {
    StackKept(s, NewTask(maxTimeout));
    NewTaskPlaces(s, maxTimeout);
    NewTaskPool(s, maxTimeout);
  }

  /** Coroutines run only when no batch is being prepared. */
  lemma PollBatch(s: State, fds: seq<PollFd>, timeout: int, accepts: seq<bool>, fallback: bool, clock: nat)
    requires Inv(s) && Enabled(s, PollCall(fds, timeout, accepts, fallback, clock))
    ensures BatchOk(DoPoll(s, fds, timeout, accepts, fallback, clock))
  {
    PollEffect(s, fds, timeout, accepts, fallback, clock);
    TaskAboveMain(s);
  }

  lemma PollKeeps(s: State, fds: seq<PollFd>, timeout: int, accepts: seq<bool>, fallback: bool, clock: nat)
    requires Inv(s) && Enabled(s, PollCall(fds, timeout, accepts, fallback, clock))
    ensures Inv(DoPoll(s, fds, timeout, accepts, fallback, clock))
  {
    StackKept(s, PollCall(fds, timeout, accepts, fallback, clock));
    PollPlaces(s, fds, timeout, accepts, fallback, clock);
    PollPool(s, fds, timeout, accepts, fallback, clock);
    PollNodes(s, fds, timeout, accepts, fallback, clock);
    PollRegs(s, fds, timeout, accepts, fallback, clock);
    PollPolls(s, fds, timeout, accepts, fallback, clock);
    PollLists(s, fds, timeout, accepts, fallback, clock);
    PollTimers(s, fds, timeout, accepts, fallback, clock);
    PollOrder(s, fds, timeout, accepts, fallback, clock);
    PollBatch(s, fds, timeout, accepts, fallback, clock);
  }

  lemma FinishKeeps(s: State)
    requires Inv(s) && Enabled(s, Finish)
    ensures Inv(DoFinish(s))
  {
    StackKept(s, Finish);
    FinishPlaces(s);
    FinishPool(s);
  }

  lemma CloseKeeps(s: State, fd: int)
    requires Inv(s)
    ensures Inv(s.(regs := s.regs - {fd}))
  {
  }

  lemma EnterLoopKeeps(s: State, clock: nat)
    requires Inv(s) && Enabled(s, EnterLoop(clock))
    ensures Inv(s.(loopNow := clock, phase := Waiting))
  {
    StackKept(s, EnterLoop(clock));
    forall p | p in s.polls ensures PollOk(s.polls[p], clock) {
      assert PollOk(s.polls[p], s.loopNow);
      NoneTimedOut(s, p);
    }
  }

  lemma WaitKeeps(s: State, batch: seq<Event>)
    requires Inv(s) && Enabled(s, Wait(batch))
    ensures Inv(s.(timeouts := [], phase := Preparing(batch)))
  {
    StackKept(s, Wait(batch));
    WaitBatch(s, batch);
  }

  lemma PrepareKeepsLists(s: State)
    requires Inv(s) && Enabled(s, Prepare)
    ensures var s' := DoPrepare(s); NodesOk(s') && PollsOk(s') && ListsOk(s') && BatchOk(s') && TimersOk(s') && OrderOk(s')
  {
    PrepareFrame(s);
    PrepareNodes(s);
    PreparePolls(s);
    PrepareLists(s);
    PrepareBatch(s);
    PrepareTimers(s);
    NoneMarkedOrder(DoPrepare(s));
  }

  lemma PrepareKeeps(s: State)
    requires Inv(s) && Enabled(s, Prepare)
    ensures Inv(DoPrepare(s))
  {
    MainAlone(s);
    PrepareFrame(s);
    PrepareShape(s);
    SameShapePlaces(s, DoPrepare(s));
    SameShapeRegs(s, DoPrepare(s));
    PrepareKeepsLists(s);
  }

  lemma TakeKeeps(s: State, clock: nat)
    requires Inv(s) && Enabled(s, Take(clock))
    ensures Inv(DoTake(s, clock))
  {
    StackKept(s, Take(clock));
    TakeShape(s, clock);
    SameShapePlaces(s, DoTake(s, clock));
    SameShapeRegs(s, DoTake(s, clock));
    TakeNodes(s, clock);
    TakePolls(s, clock);
    TakeLists(s, clock);
    TakeTimers(s, clock);
    TakeOrder(s, clock);
  }

  lemma JoinKeeps(s: State)
    requires Inv(s) && Enabled(s, Join)
    ensures Inv(s.(active := s.active + s.timeouts, timeouts := [], phase := Draining))
  {
    StackKept(s, Join);
    JoinLists(s);
    JoinOrder(s);
  }

  lemma ResumeKeeps(s: State)
    requires Inv(s) && Enabled(s, Resume)
    ensures Inv(DoResume(s))
  {
    StackKept(s, Resume);
    ResumeStepPlaces(s);
    ResumeNodes(s);
    ResumeRegs(s);
    ResumeLists(s);
    ResumeOrder(s);
  }

  /** Every step, of user code, kernel, clock and loop alike, keeps the invariant. */
  lemma InvKept(s: State, l: Label)
    requires Inv(s) && Enabled(s, l)
    ensures Inv(Apply(s, l))
  {
    match l {
      case NewTask(maxTimeout) => NewTaskKeeps(s, maxTimeout);
      case PollCall(fds, timeout, accepts, fallback, clock) => PollKeeps(s, fds, timeout, accepts, fallback, clock);
      case Finish => FinishKeeps(s);
      case Close(fd) => CloseKeeps(s, fd);
      case EnterLoop(clock) => EnterLoopKeeps(s, clock);
      case Wait(batch) => WaitKeeps(s, batch);
      case Prepare => PrepareKeeps(s);
      case Take(clock) => TakeKeeps(s, clock);
      case Join => JoinKeeps(s);
      case Resume => ResumeKeeps(s);
      case EndDrain => MainAlone(s);
    }
  }

  lemma InvInit(size: nat, clock: nat)
    ensures Inv(Init(size, clock))
  {
  }
}
