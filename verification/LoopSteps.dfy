/**
The scheduler's steps on the event loop's state.  `Matches` relates a view, which holds the wheel and
the lists as they are in memory, to a state of the scheduler, which names nodes by their polls.  Every
step keeps the two related.
 */
module LoopSteps {
  import opened CInt
  import opened TimerSpec
  import opened TimerWheel
  import opened WheelBounds
  import opened TaskBudget
  import opened PollRegistry
  import opened LoopViews
  import opened Scheduler
  import opened SchedulerInvariant

  /** The timer node of each poll in progress. */
  type NodeMap<T> = map<nat, Entry<T>>

  // ---------------------------------------------------------------- naming nodes by polls

  ghost predicate Known<T>(s: seq<Timer>, f: NodeMap<T>) {
    forall i :: 0 <= i < |s| ==> s[i].item.poll in f && f[s[i].item.poll].expire == s[i].expire
  }

  /** The nodes in memory of a list that the scheduler writes with polls. */
  ghost function Nodes<T>(s: seq<Timer>, f: NodeMap<T>): (r: seq<Entry<T>>)
    requires Known(s, f)
    ensures |r| == |s| && forall i :: 0 <= i < |s| ==> r[i] == f[s[i].item.poll]
  {
    seq(|s|, i requires 0 <= i < |s| => f[s[i].item.poll])
  }

  ghost predicate OneNodeEach<T>(f: NodeMap<T>) {
    forall p, q :: p in f && q in f && f[p].item == f[q].item ==> p == q
  }

  ghost predicate ByDeadline<T>(t: Test<T>) {
    t.Exactly? || t.AtMost? || t.Beyond?
  }

  /** The same test on deadlines for another type of items. */
  ghost function Alike<T, U>(t: Test<T>): (r: Test<U>)
    requires ByDeadline(t)
  {
    match t
    case Exactly(e) => Exactly(e)
    case AtMost(e) => AtMost(e)
    case Beyond(e) => Beyond(e)
  }

  lemma NodesSnoc<T>(s: seq<Timer>, f: NodeMap<T>)
    requires s != [] && Known(s, f)
    ensures
      var rest, last := s[..|s| - 1], s[|s| - 1];
      && Known(rest, f) && last.item.poll in f && f[last.item.poll].expire == last.expire
      && Nodes(s, f) == Nodes(rest, f) + [f[last.item.poll]]
  {
  }

  lemma NodesAppend<T>(a: seq<Timer>, b: seq<Timer>, f: NodeMap<T>)
    requires Known(a, f) && Known(b, f)
    ensures Known(a + b, f) && Nodes(a + b, f) == Nodes(a, f) + Nodes(b, f)
    ensures ItemsOf(Nodes(a + b, f)) == ItemsOf(Nodes(a, f)) + ItemsOf(Nodes(b, f))
  {
  }

  lemma {:induction false} SelectNodes<T>(s: seq<Timer>, f: NodeMap<T>, t: Test<Node>)
    requires Known(s, f) && ByDeadline(t)
    ensures Known(Select(s, t), f) && Nodes(Select(s, t), f) == Select(Nodes(s, f), Alike(t))
  {
    if s != [] {
      var rest, last := s[..|s| - 1], s[|s| - 1];
      NodesSnoc(s, f);
      SelectNodes(rest, f, t);
      SelectSnoc(Nodes(rest, f), f[last.item.poll], Alike(t));
    }
  }

  /** Deleting a poll's node from a list, on both sides. */
  lemma {:induction false} ExceptNodes<T>(s: seq<Timer>, f: NodeMap<T>, n: Node)
    requires Known(s, f) && OneNodeEach(f) && n.poll in f
    requires forall i :: 0 <= i < |s| && s[i].item.poll == n.poll ==> s[i].item == n
    ensures Known(Select(s, Except(n)), f)
    ensures Nodes(Select(s, Except(n)), f) == Select(Nodes(s, f), Except(f[n.poll].item))
  {
    if s != [] {
      var rest, last := s[..|s| - 1], s[|s| - 1];
      NodesSnoc(s, f);
      ExceptNodes(rest, f, n);
      SelectSnoc(Nodes(rest, f), f[last.item.poll], Except(f[n.poll].item));
      if last.item != n {
        NodesSnoc(Select(rest, Except(n)) + [last], f);
      }
    }
  }

  lemma {:induction false} InsertNodes<T>(s: seq<Timer>, x: Timer, f: NodeMap<T>)
    requires Known(s, f) && x.item.poll in f && f[x.item.poll].expire == x.expire
    ensures Known(InsertStable(s, x), f)
    ensures Nodes(InsertStable(s, x), f) == InsertStable(Nodes(s, f), f[x.item.poll])
  {
    if s != [] {
      var rest, last := s[..|s| - 1], s[|s| - 1];
      assert Nodes(s, f)[..|s| - 1] == Nodes(rest, f);
      if x.expire < last.expire {
        InsertNodes(rest, x, f);
      }
    }
  }

  lemma {:induction false} SortNodes<T>(s: seq<Timer>, f: NodeMap<T>)
    requires Known(s, f)
    ensures Known(StableSort(s), f) && Nodes(StableSort(s), f) == StableSort(Nodes(s, f))
  {
    if s != [] {
      var rest, last := s[..|s| - 1], s[|s| - 1];
      assert Nodes(s, f)[..|s| - 1] == Nodes(rest, f);
      SortNodes(rest, f);
      InsertNodes(StableSort(rest), last, f);
    }
  }

  // ---------------------------------------------------------------- the relation

  /** Every poll in progress has a node of its own, with its deadline. */
  ghost predicate NodesMatch<T>(f: NodeMap<T>, polls: map<nat, Poll>) {
    f.Keys == polls.Keys && OneNodeEach(f) && forall p :: p in polls ==> f[p].expire == polls[p].expire
  }

  ghost predicate ListMatches<T>(list: seq<T>, f: NodeMap<T>, s: seq<Timer>) {
    Known(s, f) && list == ItemsOf(Nodes(s, f))
  }

  /** The wheel files the nodes of the scheduler's pending polls. */
  ghost predicate WheelMatches<T>(w: Wheel<T>, f: NodeMap<T>, t: Timers<Node>) {
    Known(t.entries, f) && |w.buckets| == WHEEL_SIZE && Refines(w, Timers(Nodes(t.entries, f), t.start))
  }

  ghost predicate Matches<T>(v: LoopView<T>, f: NodeMap<T>, s: State) {
    && v.now == s.loopNow
    && NodesMatch(f, s.polls)
    && WheelMatches(v.wheel, f, s.timers)
    && ListMatches(v.active, f, s.active)
    && ListMatches(v.timeouts, f, s.timeouts)
  }

  // ---------------------------------------------------------------- events

  lemma WaitMatches<T>(v: LoopView<T>, f: NodeMap<T>, s: State, batch: seq<Event>)
    requires Matches(v, f, s) && Enabled(s, Wait(batch))
    ensures Matches(v.(timeouts := []), f, Apply(s, Wait(batch)))
  {
  }

  /** A pending node is in some bucket. */
  lemma PendingIsFiled<T>(w: Wheel<T>, f: NodeMap<T>, t: Timers<Node>, x: Timer)
    requires WheelMatches(w, f, t) && x in t.entries && x.item.poll in f
    ensures Filed(w, f[x.item.poll])
  {
    var t', y := Timers(Nodes(t.entries, f), t.start), f[x.item.poll];
    var j :| 0 <= j < |t.entries| && t.entries[j] == x;
    assert t'.entries[j] == y;
    var k := y.expire - t.start;
    assert Files(w, t', k);
    SelectIn(t'.entries, Exactly(y.expire));
    assert y in BucketAt(w, k);
  }

  /** The node leaves the wheel on both sides. */
  lemma RemoveMatches<T>(w: Wheel<T>, f: NodeMap<T>, t: Timers<Node>, n: Node)
    requires WheelMatches(w, f, t) && OneNodeEach(f) && n.poll in f
    requires forall i :: 0 <= i < |t.entries| && t.entries[i].item.poll == n.poll ==> t.entries[i].item == n
    ensures WheelMatches(WheelRemove(w, f[n.poll].item), f, Remove(t, n))
  {
    ExceptNodes(t.entries, f, n);
    RemoveRefines(w, Timers(Nodes(t.entries, f), t.start), f[n.poll].item);
  }

  /** The node of a live poll leaves the wheel and joins the active list. */
  lemma WakeMatches<T>(v: LoopView<T>, f: NodeMap<T>, s: State, p: nat)
    requires Matches(v, f, s) && NodesOk(s) && p in s.polls
    ensures
      var node := TimerOf(p, s.polls[p]);
      && WheelMatches(WheelRemove(v.wheel, f[p].item), f, Remove(s.timers, node.item))
      && ListMatches(v.active + [f[p].item], f, s.active + [node])
  {
    var node := TimerOf(p, s.polls[p]);
    forall i | 0 <= i < |s.timers.entries| && s.timers.entries[i].item.poll == p
      ensures s.timers.entries[i].item == node.item
    {
      LinkedIsLive(s, s.timers.entries[i]);
    }
    RemoveMatches(v.wheel, f, s.timers, node.item);
    NodesAppend(s.active, [node], f);
    assert ItemsOf(Nodes([node], f)) == [f[p].item];
  }

  lemma PrepareEffect(s: State)
    requires BatchOk(s) && Enabled(s, Prepare)
    ensures
      var p, s' := s.phase.batch[0].reg.poll, Apply(s, Prepare);
      && p in s.polls && s.phase.batch[0].reg.index < |s.polls[p].revents|
      && s'.loopNow == s.loopNow && s'.timeouts == s.timeouts && s'.polls.Keys == s.polls.Keys
      && (forall q :: q in s.polls ==> s'.polls[q].expire == s.polls[q].expire)
      && s'.timers == (if s.polls[p].detached then s.timers else Remove(s.timers, TimerOf(p, s.polls[p]).item))
      && s'.active == s.active + (if s.polls[p].detached then [] else [TimerOf(p, s.polls[p])])
  {
    assert FreshEvent(s.polls, s.phase.batch[0]);
  }

  /** What `prepare_poll_event` does to the loop for the first event of the batch. */
  ghost function AfterEvent<T>(v: LoopView<T>, f: NodeMap<T>, s: State): LoopView<T>
    requires s.phase.Preparing? && s.phase.batch != []
    requires s.phase.batch[0].reg.poll in s.polls && s.phase.batch[0].reg.poll in f
  {
    var p := s.phase.batch[0].reg.poll;
    if s.polls[p].detached then v else AfterWake(v, f[p].item)
  }

  /** The node that `prepare_poll_event` unlinks is in the wheel. */
  lemma EventIsFiled<T>(v: LoopView<T>, f: NodeMap<T>, s: State)
    requires Matches(v, f, s) && NodesOk(s) && ListsOk(s) && BatchOk(s) && Enabled(s, Prepare)
    ensures
      var p := s.phase.batch[0].reg.poll;
      p in s.polls && (!s.polls[p].detached ==> Filed(v.wheel, f[p]))
  {
    var p := s.phase.batch[0].reg.poll;
    assert FreshEvent(s.polls, s.phase.batch[0]);
    if !s.polls[p].detached {
      UndetachedInTimer(s, p);
      PendingIsFiled(v.wheel, f, s.timers, TimerOf(p, s.polls[p]));
    }
  }

  lemma PrepareMatches<T>(v: LoopView<T>, f: NodeMap<T>, s: State)
    requires Matches(v, f, s) && NodesOk(s) && BatchOk(s) && Enabled(s, Prepare)
    ensures s.phase.batch[0].reg.poll in s.polls
    ensures Matches(AfterEvent(v, f, s), f, Apply(s, Prepare))
  {
    PrepareEffect(s);
    WakeMatches(v, f, s, s.phase.batch[0].reg.poll);
  }

  // ---------------------------------------------------------------- the clock

  /** A tick takes the same nodes on both sides, in the same order. */
  lemma TickNodes<T>(w: Wheel<T>, f: NodeMap<T>, t: Timers<Node>, clock: nat)
    requires WheelMatches(w, f, t) && TickInRange(t.start, clock, WHEEL_SIZE)
    ensures WheelMatches(WheelTick(w, clock), f, Tick(t, clock))
    ensures Known(TickOut(t, clock), f) && Nodes(TickOut(t, clock), f) == WheelTickOut(w, clock)
  {
    SelectNodes(t.entries, f, AtMost(clock));
    SelectNodes(t.entries, f, Beyond(clock));
    SortNodes(Select(t.entries, AtMost(clock)), f);
    TickRefines(w, Timers(Nodes(t.entries, f), t.start), clock);
  }

  lemma TakeMatches<T>(v: LoopView<T>, f: NodeMap<T>, s: State, clock: nat)
    requires Matches(v, f, s) && Enabled(s, Take(clock))
    ensures Matches(AfterTake(v, clock), f, Apply(s, Take(clock)))
  {
    TickNodes(v.wheel, f, s.timers, clock);
    NodesAppend(s.timeouts, TickOut(s.timers, clock), f);
  }

  /** Which polls are marked: those whose node in memory is in the list of what was taken. */
  lemma MarkMatches<T>(v: LoopView<T>, f: NodeMap<T>, s: State, p: nat)
    requires Matches(v, f, s) && NodesOk(s) && p in s.polls
    ensures f[p].item in v.timeouts <==> TimerOf(p, s.polls[p]) in s.timeouts
  {
    var x := TimerOf(p, s.polls[p]);
    if f[p].item in v.timeouts {
      var i :| 0 <= i < |v.timeouts| && v.timeouts[i] == f[p].item;
      assert s.timeouts[i].item.poll == p;
      LinkedIsLive(s, s.timeouts[i]);
    }
    if x in s.timeouts {
      var i :| 0 <= i < |s.timeouts| && s.timeouts[i] == x;
      assert v.timeouts[i] == f[p].item;
    }
  }

  lemma JoinMatches<T>(v: LoopView<T>, f: NodeMap<T>, s: State)
    requires Matches(v, f, s) && Enabled(s, Join)
    ensures Matches(AfterJoin(v), f, Apply(s, Join))
  {
    NodesAppend(s.active, s.timeouts, f);
  }

  // ---------------------------------------------------------------- resuming

  /** The poll that returns is in no list any more. */
  lemma OthersKnown<T>(f: NodeMap<T>, p: nat, list: seq<Timer>)
    requires Known(list, f) && forall i :: 0 <= i < |list| ==> list[i].item.poll != p
    ensures Known(list, f - {p}) && Nodes(list, f - {p}) == Nodes(list, f)
  {
  }

  /** The head of the active list is nowhere else. */
  lemma HeadIsAlone(s: State, list: seq<Timer>, i: nat)
    requires NodesOk(s) && s.active != [] && i < |list|
    requires list == s.timers.entries || list == s.timeouts || list == s.active[1..]
    ensures list[i].item.poll != s.active[0].item.poll
  {
    var x, y := s.active[0], list[i];
    LinkedIsLive(s, x);
    if list == s.active[1..] { assert y == s.active[i + 1]; }
    LinkedIsLive(s, y);
    LiveIsLinked(s, x.item.poll);
    assert s.active == [x] + s.active[1..];
  }

  lemma ResumeMatches<T>(v: LoopView<T>, f: NodeMap<T>, s: State)
    requires Matches(v, f, s) && NodesOk(s) && Enabled(s, Resume)
    ensures v.active != [] && s.active[0].item.poll in f && v.active[0] == f[s.active[0].item.poll].item
    ensures Matches(v.(active := v.active[1..]), f - {s.active[0].item.poll}, Apply(s, Resume))
  {
    var p := s.active[0].item.poll;
    LinkedIsLive(s, s.active[0]);
    forall i | 0 <= i < |s.timers.entries| ensures s.timers.entries[i].item.poll != p {
      HeadIsAlone(s, s.timers.entries, i);
    }
    forall i | 0 <= i < |s.timeouts| ensures s.timeouts[i].item.poll != p { HeadIsAlone(s, s.timeouts, i); }
    forall i | 0 <= i < |s.active[1..]| ensures s.active[1..][i].item.poll != p { HeadIsAlone(s, s.active[1..], i); }
    OthersKnown(f, p, s.timers.entries);
    OthersKnown(f, p, s.timeouts);
    OthersKnown(f, p, s.active[1..]);
    assert ItemsOf(Nodes(s.active[1..], f)) == v.active[1..];
  }

  // ---------------------------------------------------------------- parking

  /** A new node, known under a new poll, changes nothing for the other polls. */
  lemma MoreKnown<T>(f: NodeMap<T>, p: nat, x: Entry<T>, list: seq<Timer>)
    requires Known(list, f) && p !in f
    ensures Known(list, f[p := x]) && Nodes(list, f[p := x]) == Nodes(list, f)
  {
  }

  lemma ParkOnWheel<T>(w: Wheel<T>, f: NodeMap<T>, t: Timers<Node>, x: Entry<T>, n: Node, clock: nat)
    requires WheelMatches(w, f, t) && n.poll !in f && AddSafe(t.start, x.expire, clock, WHEEL_SIZE)
    ensures WheelMatches(WheelAdd(w, x, clock), f[n.poll := x], Add(t, WHEEL_SIZE, Entry(n, x.expire), clock))
    ensures WheelAddResult(w, x.expire, clock) == 0 <==> Accepts(t, WHEEL_SIZE, x.expire, clock)
  {
    MoreKnown(f, n.poll, x, t.entries);
    AddRefines(w, Timers(Nodes(t.entries, f), t.start), x, clock);
    NodesAppend(t.entries, [Entry(n, x.expire)], f[n.poll := x]);
    assert Nodes([Entry(n, x.expire)], f[n.poll := x]) == [x];
  }

  /** Any step that parks a fresh poll with node x and does nothing else to the loop's state. */
  lemma ParkedMatches<T>(v: LoopView<T>, f: NodeMap<T>, s: State, s': State, x: Entry<T>, poll: Poll, clock: nat)
    requires Matches(v, f, s) && s.nextPoll !in s.polls && AddSafe(s.timers.start, x.expire, clock, WHEEL_SIZE)
    requires (forall p :: p in f ==> f[p].item != x.item) && poll.expire == x.expire
    requires s'.polls == s.polls[s.nextPoll := poll] && s'.loopNow == s.loopNow
    requires s'.timers == Add(s.timers, WHEEL_SIZE, TimerOf(s.nextPoll, poll), clock)
    requires s'.active == s.active && s'.timeouts == s.timeouts
    ensures Matches(AfterPark(v, x, clock), f[s.nextPoll := x], s')
  {
    ParkOnWheel(v.wheel, f, s.timers, x, Node(s.nextPoll, poll.co), clock);
    MoreKnown(f, s.nextPoll, x, s.active);
    MoreKnown(f, s.nextPoll, x, s.timeouts);
  }

  lemma ParkMatches<T>(v: LoopView<T>, f: NodeMap<T>, s: State, fds: seq<PollFd>, timeout: int,
                       accepts: seq<bool>, clock: nat, x: Entry<T>)
    requires Matches(v, f, s) && NodesOk(s) && Enabled(s, PollCall(fds, timeout, accepts, false, clock))
    requires
      var fixed := FixTimeout(s.tasks[Top(s)].budget, s.loopNow, timeout);
      Outcome(s, false, fixed, clock) == Parks && x.expire == clock + Clamp(fixed.timeout)
    requires forall p :: p in f ==> f[p].item != x.item
    ensures WheelAddResult(v.wheel, x.expire, clock) == 0
    ensures Matches(AfterPark(v, x, clock), f[s.nextPoll := x], Apply(s, PollCall(fds, timeout, accepts, false, clock)))
  {
    var s' := Apply(s, PollCall(fds, timeout, accepts, false, clock));
    PollEffect(s, fds, timeout, accepts, false, clock);
    ParkOnWheel(v.wheel, f, s.timers, x, Node(s.nextPoll, Top(s)), clock);
    ParkedMatches(v, f, s, s', x, s'.polls[s.nextPoll], clock);
  }

  // ---------------------------------------------------------------- every step, every run

  /** The outcome of a poll, if the label is one. */
  ghost predicate Has(s: State, l: Label, o: PollOutcome)
    requires Enabled(s, l)
  {
    l.PollCall? && Outcome(s, l.fallback, FixTimeout(s.tasks[Top(s)].budget, s.loopNow, l.timeout), l.clock) == o
  }

  /** The step is a poll that gets as far as asking for a timer. */
  ghost predicate Asks(s: State, l: Label)
    requires Enabled(s, l)
  {
    Has(s, l, Parks) || Has(s, l, Refused)
  }

  /** The deadline it asks for. */
  ghost function Deadline(s: State, l: Label): nat
    requires Enabled(s, l) && Asks(s, l)
  {
    var fixed := FixTimeout(s.tasks[Top(s)].budget, s.loopNow, l.timeout);
    EffectiveWait(s.tasks[Top(s)].budget, s.loopNow, l.timeout);
    l.clock + Clamp(fixed.timeout)
  }

  /** What a step does to the loop in memory; x is the node of a poll that parks. */
  ghost function ViewAfter<T>(v: LoopView<T>, f: NodeMap<T>, s: State, l: Label, x: T): LoopView<T>
    requires v.wheel.buckets != [] && Enabled(s, l)
  {
    match l
    case PollCall(_, _, _, _, clock) =>
      if Has(s, l, Parks) then AfterPark(v, Entry(x, Deadline(s, l)), clock)
      else if Has(s, l, Refused) then v.(wheel := WheelStarted(v.wheel, clock))
      else v
    case EnterLoop(clock) => v.(now := clock)
    case Wait(_) => v.(timeouts := [])
    case Prepare =>
      if s.phase.batch[0].reg.poll in s.polls && s.phase.batch[0].reg.poll in f then AfterEvent(v, f, s) else v
    case Take(clock) => AfterTake(v, clock)
    case Join => AfterJoin(v)
    case Resume => v.(active := if v.active == [] then [] else v.active[1..])
    case _ => v
  }

  ghost function NodesAfter<T>(f: NodeMap<T>, s: State, l: Label, x: T): NodeMap<T>
    requires Enabled(s, l)
  {
    if Has(s, l, Parks) then f[s.nextPoll := Entry(x, Deadline(s, l))]
    else if l.Resume? then f - {s.active[0].item.poll}
    else f
  }

  lemma RefusedMatches<T>(v: LoopView<T>, f: NodeMap<T>, s: State, l: Label)
    requires Matches(v, f, s) && Enabled(s, l) && Has(s, l, Refused)
    ensures Matches(v.(wheel := WheelStarted(v.wheel, l.clock)), f, Apply(s, l))
  {
    StartedRefines(v.wheel, Timers(Nodes(s.timers.entries, f), s.timers.start), l.clock);
  }

  /** Steps that leave the loop's state alone. */
  lemma OtherMatches<T>(v: LoopView<T>, f: NodeMap<T>, s: State, l: Label)
    requires Matches(v, f, s) && Enabled(s, l)
    requires l.NewTask? || l.Finish? || l.Close? || l.EndDrain? || Has(s, l, Expired) || Has(s, l, Fallback)
    ensures Matches(v, f, Apply(s, l))
  {
  }

  /** No poll in progress has this node. */
  ghost predicate Unused<T>(f: NodeMap<T>, x: T) {
    forall p :: p in f ==> f[p].item != x
  }

  lemma PollStepMatches<T>(v: LoopView<T>, f: NodeMap<T>, s: State, l: Label, x: T)
    requires Matches(v, f, s) && NodesOk(s) && Enabled(s, l) && l.PollCall? && (Has(s, l, Parks) ==> Unused(f, x))
    ensures Matches(ViewAfter(v, f, s, l, x), NodesAfter(f, s, l, x), Apply(s, l))
  {
    if Has(s, l, Parks) {
      ParkMatches(v, f, s, l.fds, l.timeout, l.accepts, l.clock, Entry(x, Deadline(s, l)));
    } else if Has(s, l, Refused) {
      RefusedMatches(v, f, s, l);
    } else {
      OtherMatches(v, f, s, l);
    }
  }

  lemma LoopStepMatches<T>(v: LoopView<T>, f: NodeMap<T>, s: State, l: Label, x: T)
    requires Matches(v, f, s) && NodesOk(s) && BatchOk(s) && Enabled(s, l) && !l.PollCall?
    ensures Matches(ViewAfter(v, f, s, l, x), NodesAfter(f, s, l, x), Apply(s, l))
  {
    match l {
      case Wait(batch) => WaitMatches(v, f, s, batch);
      case Prepare => PrepareMatches(v, f, s);
      case Take(clock) => TakeMatches(v, f, s, clock);
      case Join => JoinMatches(v, f, s);
      case Resume => ResumeMatches(v, f, s);
      case EnterLoop(clock) =>
      case _ => OtherMatches(v, f, s, l);
    }
  }

  lemma StepMatches<T>(v: LoopView<T>, f: NodeMap<T>, s: State, l: Label, x: T)
    requires Matches(v, f, s) && NodesOk(s) && BatchOk(s) && Enabled(s, l) && (Has(s, l, Parks) ==> Unused(f, x))
    ensures Matches(ViewAfter(v, f, s, l, x), NodesAfter(f, s, l, x), Apply(s, l))
  {
    if l.PollCall? {
      PollStepMatches(v, f, s, l, x);
    } else {
      LoopStepMatches(v, f, s, l, x);
    }
  }

  ghost function ViewAlong<T>(v: LoopView<T>, f: NodeMap<T>, s: State, run: seq<Label>, picks: seq<T>): LoopView<T>
    requires v.wheel.buckets != [] && ValidRun(s, run) && |picks| == |run|
    decreases |run|
  {
    if run == [] then v else
      var v' := ViewAfter(v, f, s, run[0], picks[0]);
      if v'.wheel.buckets == [] then v'
      else ViewAlong(v', NodesAfter(f, s, run[0], picks[0]), Apply(s, run[0]), run[1..], picks[1..])
  }

  ghost function NodesAlong<T>(f: NodeMap<T>, s: State, run: seq<Label>, picks: seq<T>): NodeMap<T>
    requires ValidRun(s, run) && |picks| == |run|
    decreases |run|
  {
    if run == [] then f else
      NodesAlong(NodesAfter(f, s, run[0], picks[0]), Apply(s, run[0]), run[1..], picks[1..])
  }

  /** Whenever a poll parks, its node is one that no poll in progress has; nodes of polls that have
      returned may be used again, as the stack frames they lie in are. */
  ghost predicate FreshPicks<T>(f: NodeMap<T>, s: State, run: seq<Label>, picks: seq<T>)
    requires ValidRun(s, run) && |picks| == |run|
    decreases |run|
  {
    run != [] ==>
      && (Has(s, run[0], Parks) ==> Unused(f, picks[0]))
      && FreshPicks(NodesAfter(f, s, run[0], picks[0]), Apply(s, run[0]), run[1..], picks[1..])
  }

  /** Along every run the loop in memory, changed step by step as its code changes it, holds in its
      wheel and its two lists exactly the nodes of the polls that the scheduler has there, in order. */
  lemma {:induction false} LoopFollowsRun<T>(v: LoopView<T>, f: NodeMap<T>, s: State, run: seq<Label>, picks: seq<T>)
    requires Matches(v, f, s) && Inv(s) && ValidRun(s, run) && |picks| == |run| && FreshPicks(f, s, run, picks)
    ensures Matches(ViewAlong(v, f, s, run, picks), NodesAlong(f, s, run, picks), Exec(s, run))
    decreases |run|
  {
    if run != [] {
      var x := picks[0];
      StepMatches(v, f, s, run[0], x);
      InvKept(s, run[0]);
      LoopFollowsRun(ViewAfter(v, f, s, run[0], x), NodesAfter(f, s, run[0], x), Apply(s, run[0]), run[1..], picks[1..]);
    }
  }

  function NewLoop<T>(clock: nat): LoopView<T> {
    LoopView(EmptyWheel<T>(WHEEL_SIZE, clock), [], [], 0)
  }

  /** From a new loop and a new pool. */
  lemma LoopOfEveryRun<T>(size: nat, clock: nat, run: seq<Label>, picks: seq<T>)
    requires ValidRun(Init(size, clock), run) && |picks| == |run| && FreshPicks(map[], Init(size, clock), run, picks)
    ensures Matches(ViewAlong(NewLoop<T>(clock), map[], Init(size, clock), run, picks),
                    NodesAlong(map[], Init(size, clock), run, picks), Exec(Init(size, clock), run))
  {
    EmptyRefines<T>(WHEEL_SIZE, clock);
    InvInit(size, clock);
    LoopFollowsRun(NewLoop<T>(clock), map[], Init(size, clock), run, picks);
  }

  // ---------------------------------------------------------------- the preconditions of the loop's methods

  /** What the heap method for the step requires of the loop in memory. */
  ghost predicate Ready<T>(v: LoopView<T>, f: NodeMap<T>, s: State, l: Label)
    requires v.wheel.buckets != [] && Enabled(s, l)
  {
    match l
    case PollCall(_, _, _, _, clock) => Asks(s, l) ==> AddDefined(v.wheel, Deadline(s, l), clock)
    case Prepare =>
      var p := s.phase.batch[0].reg.poll;
      p in s.polls && p in f && (!s.polls[p].detached ==> Filed(v.wheel, f[p]))
    case Take(clock) => TickDefined(v.wheel, clock)
    case Resume => v.active != []
    case _ => true
  }

  /** The clock readings of the step, and the deadlines they lead to, lie less than 2^63 milliseconds
      after `born`. */
  predicate Timely(born: nat, l: Label) {
    match l
    case PollCall(_, _, _, _, clock) => clock + MAX_TIMEOUT_MS - born < TWO_63
    case Take(clock) => clock - born < TWO_63
    case _ => true
  }

  lemma AskInRange(s: State, l: Label)
    requires Enabled(s, l) && Asks(s, l)
    ensures AddInRange(s.timers.start, Deadline(s, l), l.clock, WHEEL_SIZE)
    ensures Deadline(s, l) <= l.clock + MAX_TIMEOUT_MS
  {
    EffectiveWait(s.tasks[Top(s)].budget, s.loopNow, l.timeout);
  }

  lemma StepIsReady<T>(v: LoopView<T>, f: NodeMap<T>, s: State, l: Label, born: nat)
    requires Matches(v, f, s) && NodesOk(s) && ListsOk(s) && BatchOk(s) && Enabled(s, l)
    requires Counted(v.wheel, born) && Timely(born, l)
    ensures Ready(v, f, s, l)
  {
    match l {
      case PollCall(_, _, _, _, clock) =>
        if Asks(s, l) {
          AskInRange(s, l);
          AddIsDefined(v.wheel, born, Deadline(s, l), clock);
        }
      case Prepare => EventIsFiled(v, f, s);
      case Take(clock) => TickIsCounted(v.wheel, born, clock);
      case Resume => ResumeMatches(v, f, s);
      case _ =>
    }
  }

  lemma StepIsCounted<T>(v: LoopView<T>, f: NodeMap<T>, s: State, l: Label, born: nat, x: T)
    requires Matches(v, f, s) && Enabled(s, l) && Counted(v.wheel, born)
    ensures Counted(ViewAfter(v, f, s, l, x).wheel, born)
  {
    match l {
      case PollCall(_, _, _, _, clock) =>
        StartedIsCounted(v.wheel, born, clock);
        if Asks(s, l) {
          AskInRange(s, l);
          AddIsCounted(v.wheel, born, Entry(x, Deadline(s, l)), clock);
        }
      case Take(clock) => TickIsCounted(v.wheel, born, clock);
      case _ =>
    }
  }

  ghost predicate Following<T>(v: LoopView<T>, f: NodeMap<T>, s: State, born: nat) {
    Matches(v, f, s) && Inv(s) && Counted(v.wheel, born)
  }

  lemma StepFollows<T>(v: LoopView<T>, f: NodeMap<T>, s: State, l: Label, born: nat, x: T)
    requires Following(v, f, s, born) && Enabled(s, l) && (Has(s, l, Parks) ==> Unused(f, x))
    ensures Following(ViewAfter(v, f, s, l, x), NodesAfter(f, s, l, x), Apply(s, l), born)
  {
    StepMatches(v, f, s, l, x);
    StepIsCounted(v, f, s, l, born, x);
    InvKept(s, l);
  }

  /** `start_idx` never counts more than the time that has passed. */
  lemma {:induction false} LoopIsCounted<T>(v: LoopView<T>, f: NodeMap<T>, s: State, run: seq<Label>, picks: seq<T>, born: nat)
    requires Following(v, f, s, born) && ValidRun(s, run) && |picks| == |run| && FreshPicks(f, s, run, picks)
    ensures Following(ViewAlong(v, f, s, run, picks), NodesAlong(f, s, run, picks), Exec(s, run), born)
    decreases |run|
  {
    if run != [] {
      StepFollows(v, f, s, run[0], born, picks[0]);
      LoopIsCounted(ViewAfter(v, f, s, run[0], picks[0]), NodesAfter(f, s, run[0], picks[0]), Apply(s, run[0]),
                    run[1..], picks[1..], born);
    }
  }

  /** After every run, whatever step comes next: the method of the loop that takes it finds its
      precondition met, as long as the clock stays below 2^63 milliseconds of its first reading. */
  lemma LoopIsReady<T>(size: nat, clock: nat, run: seq<Label>, picks: seq<T>, l: Label)
    requires ValidRun(Init(size, clock), run) && |picks| == |run| && FreshPicks(map[], Init(size, clock), run, picks)
    ensures
      var v := ViewAlong(NewLoop<T>(clock), map[], Init(size, clock), run, picks);
      var f, s := NodesAlong(map[], Init(size, clock), run, picks), Exec(Init(size, clock), run);
      && 0 <= v.wheel.startIdx <= v.wheel.start - clock
      && v.wheel.buckets != [] && (Enabled(s, l) && Timely(clock, l) ==> Ready(v, f, s, l))
  {
    EmptyRefines<T>(WHEEL_SIZE, clock);
    EmptyIsCounted<T>(WHEEL_SIZE, clock);
    InvInit(size, clock);
    LoopIsCounted(NewLoop<T>(clock), map[], Init(size, clock), run, picks, clock);
    var v := ViewAlong(NewLoop<T>(clock), map[], Init(size, clock), run, picks);
    var f, s := NodesAlong(map[], Init(size, clock), run, picks), Exec(Init(size, clock), run);
    if Enabled(s, l) && Timely(clock, l) {
      StepIsReady(v, f, s, l, clock);
    }
  }
}
