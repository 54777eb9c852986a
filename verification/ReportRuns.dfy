/**
Which events a poll reports when it returns, and in which order event-woken polls are resumed: both are
read off the batch that the kernel returned in that iteration.
 */
module ReportRuns {
  import opened EventMask
  import opened PollRegistry
  import opened Scheduler
  import opened SchedulerInvariant
  import opened SchedulerRuns

  /** The batch of the last wait, from the labels of the run. */
  function LastBatch(run: seq<Label>, batch: seq<Event>): seq<Event> {
    if run == [] then batch else LastBatch(run[1..], if run[0].Wait? then run[0].batch else batch)
  }

  /** An entry shows what the batch reports for its registration, and 0 if it reports nothing. */
  ghost predicate Answers(batch: seq<Event>, reg: Reg, revents: bv16) {
    && (forall k :: 0 <= k < |batch| && batch[k].reg == reg ==> Shows(batch[k].events, revents))
    && ((forall k :: 0 <= k < |batch| ==> batch[k].reg != reg) ==> revents == 0)
  }

  ghost predicate Names(batch: seq<Event>, p: nat) {
    exists k :: 0 <= k < |batch| && batch[k].reg.poll == p
  }

  /** The first event for p comes before every event for q. */
  ghost predicate Earlier(batch: seq<Event>, p: nat, q: nat) {
    exists k :: 0 <= k < |batch| && batch[k].reg.poll == p && forall j :: 0 <= j <= k ==> batch[j].reg.poll != q
  }

  /** The part of the batch that has been prepared. */
  function Done(s: State, batch: seq<Event>): seq<Event> {
    if s.phase.Preparing? && |s.phase.batch| <= |batch| then batch[..|batch| - |s.phase.batch|] else batch
  }

  ghost predicate BatchKnown(s: State, batch: seq<Event>) {
    && (forall k :: 0 <= k < |batch| ==> batch[k].reg.poll < s.nextPoll)
    && (forall j, k :: 0 <= j < k < |batch| ==> batch[j].reg != batch[k].reg)
    && (s.phase.Preparing? ==> |s.phase.batch| <= |batch| && Done(s, batch) + s.phase.batch == batch)
  }

  /** What the polls in progress show. */
  ghost predicate Heard(polls: map<nat, Poll>, done: seq<Event>) {
    forall p, i :: p in polls && 0 <= i < |polls[p].revents| ==> Answers(done, Reg(p, i), polls[p].revents[i])
  }

  /** Exactly the polls that have been named are detached. */
  ghost predicate NamedDetached(polls: map<nat, Poll>, done: seq<Event>) {
    forall p :: p in polls ==> (polls[p].detached <==> Names(done, p))
  }

  /** Event-woken nodes are in the order in which the batch first names their polls. */
  ghost predicate InBatchOrder(polls: map<nat, Poll>, active: seq<Timer>, done: seq<Event>) {
    forall i, j :: 0 <= i < j < |active| && !TimedOut(polls, active[j]) ==>
      Earlier(done, active[i].item.poll, active[j].item.poll)
  }

  ghost predicate Reports(s: State, batch: seq<Event>) {
    && BatchKnown(s, batch)
    && Heard(s.polls, Done(s, batch)) && NamedDetached(s.polls, Done(s, batch))
    && InBatchOrder(s.polls, s.active, Done(s, batch))
  }

  // ---------------------------------------------------------------- one step

  lemma {:induction false} RaisedNone(revents: seq<bv16>, i: nat)
    requires Raised(revents) == 0 && i < |revents|
    ensures revents[i] == 0
  {
    var rest := revents[..|revents| - 1];
    if i < |rest| {
      RaisedNone(rest, i);
    }
  }

  lemma WaitReports(s: State, batch: seq<Event>)
    requires Inv(s) && Enabled(s, Wait(batch))
    ensures Reports(Apply(s, Wait(batch)), batch)
  {
    forall k | 0 <= k < |batch| ensures batch[k].reg.poll < s.nextPoll {
      assert Registered(s.regs, batch[k].reg);
      var fd :| fd in s.regs && s.regs[fd] == batch[k].reg;
      assert RegOk(s.polls, fd, s.regs[fd]);
    }
    forall p | p in s.polls ensures !s.polls[p].detached { NoneDetached(s, p); }
    forall p, i | p in s.polls && 0 <= i < |s.polls[p].revents| ensures s.polls[p].revents[i] == 0 {
      assert PollOk(s.polls[p], s.loopNow);
      RaisedNone(s.polls[p].revents, i);
    }
    assert batch[..0] + batch == batch;
  }

  /** One more event: its own entry shows it, and every other entry stays. */
  lemma AnswersMore(done: seq<Event>, e: Event, reg: Reg, revents: bv16)
    requires e.reg != reg && Answers(done, reg, revents)
    ensures Answers(done + [e], reg, revents)
  {
    forall k | 0 <= k < |done| + 1 && (done + [e])[k].reg == reg ensures Shows((done + [e])[k].events, revents) {
      assert (done + [e])[k] == done[k];
    }
    if forall k :: 0 <= k < |done| + 1 ==> (done + [e])[k].reg != reg {
      forall k | 0 <= k < |done| ensures done[k].reg != reg { assert (done + [e])[k] == done[k]; }
    }
  }

  lemma AnswersNow(done: seq<Event>, e: Event)
    requires forall k :: 0 <= k < |done| ==> done[k].reg != e.reg
    ensures Answers(done + [e], e.reg, EpollToPoll(e.events))
  {
    EpollToPollShows(e.events, EpollToPoll(e.events));
    assert (done + [e])[|done|] == e;
  }

  lemma NamesMore(done: seq<Event>, e: Event, p: nat)
    ensures Names(done + [e], p) <==> Names(done, p) || e.reg.poll == p
  {
    assert (done + [e])[|done|] == e;
    assert forall k :: 0 <= k < |done| ==> (done + [e])[k] == done[k];
    if Names(done, p) {
      var k :| 0 <= k < |done| && done[k].reg.poll == p;
      assert (done + [e])[k].reg.poll == p;
    }
  }

  lemma EarlierMore(done: seq<Event>, e: Event, p: nat, q: nat)
    ensures Earlier(done, p, q) ==> Earlier(done + [e], p, q)
    ensures Names(done, p) && !Names(done, q) ==> Earlier(done + [e], p, q)
  {
    assert forall k :: 0 <= k < |done| ==> (done + [e])[k] == done[k];
    if Earlier(done, p, q) {
      var k :| 0 <= k < |done| && done[k].reg.poll == p && forall j :: 0 <= j <= k ==> done[j].reg.poll != q;
      assert (done + [e])[k].reg.poll == p;
    }
    if Names(done, p) && !Names(done, q) {
      var k :| 0 <= k < |done| && done[k].reg.poll == p;
      assert (done + [e])[k].reg.poll == p;
    }
  }

  /** The event has been noted in its poll, and no other poll has changed. */
  ghost predicate NotedIn(polls: map<nat, Poll>, polls': map<nat, Poll>, e: Event) {
    var p := e.reg.poll;
    && polls'.Keys == polls.Keys && p in polls && e.reg.index < |polls[p].revents|
    && polls'[p].revents == polls[p].revents[e.reg.index := EpollToPoll(e.events)]
    && polls'[p].detached && polls'[p].timedOut == polls[p].timedOut
    && forall q :: q in polls && q != p ==> polls'[q] == polls[q]
  }

  lemma HeardMore(polls: map<nat, Poll>, polls': map<nat, Poll>, done: seq<Event>, e: Event)
    requires NotedIn(polls, polls', e) && Heard(polls, done) && NamedDetached(polls, done)
    requires forall k :: 0 <= k < |done| ==> done[k].reg != e.reg
    ensures Heard(polls', done + [e]) && NamedDetached(polls', done + [e])
  {
    forall p, i | p in polls' && 0 <= i < |polls'[p].revents|
      ensures Answers(done + [e], Reg(p, i), polls'[p].revents[i])
    {
      if Reg(p, i) == e.reg {
        AnswersNow(done, e);
      } else {
        AnswersMore(done, e, Reg(p, i), polls[p].revents[i]);
      }
    }
    forall p | p in polls' ensures polls'[p].detached <==> Names(done + [e], p) { NamesMore(done, e, p); }
  }

  /** The order of the active list when the batch goes on, and a poll not named before may join. */
  lemma OrderMore(polls: map<nat, Poll>, polls': map<nat, Poll>, active: seq<Timer>, more: seq<Timer>,
                  done: seq<Event>, e: Event)
    requires NotedIn(polls, polls', e) && InBatchOrder(polls, active, done)
    requires |more| <= 1 && forall i :: 0 <= i < |more| ==> !Names(done, more[i].item.poll)
    requires forall i :: 0 <= i < |active| ==> Names(done, active[i].item.poll)
    ensures InBatchOrder(polls', active + more, done + [e])
  {
    var active' := active + more;
    forall i, j | 0 <= i < j < |active'| && !TimedOut(polls', active'[j])
      ensures Earlier(done + [e], active'[i].item.poll, active'[j].item.poll)
    {
      EarlierMore(done, e, active[i].item.poll, active'[j].item.poll);
      if j < |active| {
        assert active'[j] == active[j] && !TimedOut(polls, active[j]);
      }
    }
  }

  /** What preparing an event does to the polls and to the active list. */
  lemma PrepareReport(s: State)
    requires BatchOk(s) && Enabled(s, Prepare)
    ensures
      var e, s' := s.phase.batch[0], Apply(s, Prepare);
      var p := e.reg.poll;
      && NotedIn(s.polls, s'.polls, e)
      && s'.active == s.active + (if s.polls[p].detached then [] else [TimerOf(p, s.polls[p])])
      && s'.nextPoll == s.nextPoll && s'.phase == Preparing(s.phase.batch[1..])
  {
    assert FreshEvent(s.polls, s.phase.batch[0]);
  }

  /** While a batch is prepared, exactly event-woken polls are active. */
  lemma ActiveIsNamed(s: State, done: seq<Event>, i: nat)
    requires NodesOk(s) && ListsOk(s) && s.phase.Preparing? && NamedDetached(s.polls, done) && i < |s.active|
    ensures Names(done, s.active[i].item.poll)
  {
    LinkedIsLive(s, s.active[i]);
  }

  lemma BatchGoesOn(s: State, s': State, batch: seq<Event>)
    requires BatchKnown(s, batch) && s.phase.Preparing? && s.phase.batch != []
    requires s'.phase == Preparing(s.phase.batch[1..]) && s'.nextPoll == s.nextPoll
    ensures BatchKnown(s', batch) && Done(s', batch) == Done(s, batch) + [s.phase.batch[0]]
    ensures forall k :: 0 <= k < |Done(s, batch)| ==> Done(s, batch)[k].reg != s.phase.batch[0].reg
  {
    var done := Done(s, batch);
    assert batch[|done|] == s.phase.batch[0];
    forall k | 0 <= k < |done| ensures done[k].reg != s.phase.batch[0].reg { assert batch[k] == done[k]; }
  }

  /** Any step that notes the next event and wakes its poll if it is the first. */
  lemma NotedReports(s: State, s': State, batch: seq<Event>)
    requires NodesOk(s) && ListsOk(s) && s.phase.Preparing? && s.phase.batch != [] && Reports(s, batch)
    requires NotedIn(s.polls, s'.polls, s.phase.batch[0])
    requires s'.phase == Preparing(s.phase.batch[1..]) && s'.nextPoll == s.nextPoll
    requires
      var p := s.phase.batch[0].reg.poll;
      s'.active == s.active + (if s.polls[p].detached then [] else [TimerOf(p, s.polls[p])])
    ensures Reports(s', batch)
  {
    var done, e := Done(s, batch), s.phase.batch[0];
    BatchGoesOn(s, s', batch);
    HeardMore(s.polls, s'.polls, done, e);
    forall i | 0 <= i < |s.active| ensures Names(done, s.active[i].item.poll) { ActiveIsNamed(s, done, i); }
    var p := e.reg.poll;
    OrderMore(s.polls, s'.polls, s.active, if s.polls[p].detached then [] else [TimerOf(p, s.polls[p])], done, e);
  }

  lemma PrepareReports(s: State, batch: seq<Event>)
    requires NodesOk(s) && ListsOk(s) && BatchOk(s) && Enabled(s, Prepare) && Reports(s, batch)
    ensures Reports(Apply(s, Prepare), batch)
  {
    PrepareReport(s);
    NotedReports(s, Apply(s, Prepare), batch);
  }

  /** A poll that parks has nothing to show, and the batch cannot name it. */
  lemma ParkedReports(polls: map<nat, Poll>, active: seq<Timer>, batch: seq<Event>, p: nat, poll: Poll)
    requires Heard(polls, batch) && NamedDetached(polls, batch) && InBatchOrder(polls, active, batch)
    requires p !in polls && !Names(batch, p) && !poll.detached
    requires forall i :: 0 <= i < |poll.revents| ==> poll.revents[i] == 0
    requires forall i :: 0 <= i < |active| ==> active[i].item.poll != p
    ensures Heard(polls[p := poll], batch) && NamedDetached(polls[p := poll], batch)
    ensures InBatchOrder(polls[p := poll], active, batch)
  {
  }

  lemma PollReports(s: State, l: Label, batch: seq<Event>)
    requires NodesOk(s) && Enabled(s, l) && l.PollCall? && Reports(s, batch) && !s.phase.Preparing?
    ensures Reports(Apply(s, l), batch)
  {
    PollEffect(s, l.fds, l.timeout, l.accepts, l.fallback, l.clock);
    var s', p := Apply(s, l), s.nextPoll;
    if s'.polls != s.polls {
      forall i | 0 <= i < |s.active| ensures s.active[i].item.poll != p { LinkedIsLive(s, s.active[i]); }
      ParkedReports(s.polls, s.active, batch, p, s'.polls[p]);
    }
  }

  lemma TakeReports(s: State, clock: nat, batch: seq<Event>)
    requires NodesOk(s) && ListsOk(s) && Enabled(s, Take(clock)) && Reports(s, batch)
    ensures Reports(Apply(s, Take(clock)), batch)
  {
    var s' := Apply(s, Take(clock));
    assert Done(s, batch) == batch == Done(s', batch);
  }

  lemma JoinReports(s: State, batch: seq<Event>)
    requires NodesOk(s) && ListsOk(s) && Enabled(s, Join) && Reports(s, batch)
    ensures Reports(Apply(s, Join), batch)
  {
    var s' := Apply(s, Join);
    forall i | 0 <= i < |s.timeouts| ensures TimedOut(s.polls, s.timeouts[i]) { LinkedIsLive(s, s.timeouts[i]); }
  }

  /** The head of the active list is there only once. */
  lemma HeadIsAlone(s: State, j: nat)
    requires NodesOk(s) && 0 < j < |s.active|
    ensures s.active[j].item.poll != s.active[0].item.poll
  {
    LinkedIsLive(s, s.active[0]);
    LinkedIsLive(s, s.active[j]);
    LiveIsLinked(s, s.active[0].item.poll);
    assert s.active == [s.active[0]] + s.active[1..];
    assert s.active[1..][j - 1] == s.active[j];
  }

  lemma ResumeReports(s: State, batch: seq<Event>)
    requires NodesOk(s) && Enabled(s, Resume) && Reports(s, batch)
    ensures Reports(Apply(s, Resume), batch)
  {
    var s' := Apply(s, Resume);
    LinkedIsLive(s, s.active[0]);
    forall i, j | 0 <= i < j < |s'.active| && !TimedOut(s'.polls, s'.active[j])
      ensures Earlier(batch, s'.active[i].item.poll, s'.active[j].item.poll)
    {
      assert s'.active[i] == s.active[i + 1] && s'.active[j] == s.active[j + 1];
      HeadIsAlone(s, j + 1);
    }
  }

  lemma ReportsKept(s: State, l: Label, batch: seq<Event>)
    requires Inv(s) && Enabled(s, l) && Reports(s, batch)
    ensures Reports(Apply(s, l), if l.Wait? then l.batch else batch)
  {
    match l {
      case PollCall(_, _, _, _, _) => TaskAboveMain(s); PollReports(s, l, batch);
      case Wait(b) => WaitReports(s, b);
      case Prepare => PrepareReports(s, batch);
      case Take(clock) => TakeReports(s, clock, batch);
      case Join => JoinReports(s, batch);
      case Resume => ResumeReports(s, batch);
      case _ =>
    }
  }

  // ---------------------------------------------------------------- every run

  lemma {:induction false} ReportsAlong(s: State, run: seq<Label>, batch: seq<Event>)
    requires Inv(s) && ValidRun(s, run) && Reports(s, batch)
    ensures Reports(Exec(s, run), LastBatch(run, batch))
    decreases |run|
  {
    if run != [] {
      ReportsKept(s, run[0], batch);
      InvKept(s, run[0]);
      ReportsAlong(Apply(s, run[0]), run[1..], if run[0].Wait? then run[0].batch else batch);
    }
  }

  /** When a poll returns, every entry holds, bit by bit, what the kernel reported for it in the batch of
      this iteration, and 0 where it reported nothing. */
  lemma ReportOfEveryRun(size: nat, clock: nat, run: seq<Label>)
    requires ValidRun(Init(size, clock), run) && Enabled(Exec(Init(size, clock), run), Resume)
    ensures
      var s := Exec(Init(size, clock), run);
      var p := s.active[0].item.poll;
      && p in s.polls && |s.polls[p].revents| == |s.polls[p].fds|
      && forall i :: 0 <= i < |s.polls[p].fds| ==> Answers(LastBatch(run, []), Reg(p, i), s.polls[p].revents[i])
  {
    InvInit(size, clock);
    ReportsAlong(Init(size, clock), run, []);
    PollContract(size, clock, run);
  }

  /** In every drain the polls woken by events come in the order in which the batch first names them. */
  lemma WakeOrderOfEveryRun(size: nat, clock: nat, run: seq<Label>, i: nat, j: nat)
    requires ValidRun(Init(size, clock), run) && Exec(Init(size, clock), run).phase == Draining
    requires i < j < |Exec(Init(size, clock), run).active|
    ensures
      var s := Exec(Init(size, clock), run);
      TimedOut(s.polls, s.active[j]) || Earlier(LastBatch(run, []), s.active[i].item.poll, s.active[j].item.poll)
  {
    InvInit(size, clock);
    ReportsAlong(Init(size, clock), run, []);
  }
}
