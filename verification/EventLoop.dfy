/**
One iteration of `coroutine_eventloop` on the heap, apart from the coroutines it resumes: preparing an
event, taking and marking what is due, and popping the next node to resume.  Each method is proved to
do to the view of the heap what a function of `LoopViews` says.
 */
module EventLoop {
  import opened TimerSpec
  import opened TimerWheel
  import opened WheelBounds
  import opened EventMask
  import opened LoopViews
  import opened IntrusiveList
  import opened EpollTimer

  /** One entry shows the event, bit by bit, and the others stay. */
  ghost predicate Recorded(was: seq<bv16>, now: seq<bv16>, index: nat, events: bv32)
    requires index < |was|
  {
    && |now| == |was| && Shows(events, now[index])
    && forall i :: 0 <= i < |now| && i != index ==> now[i] == was[i]
  }

  /** The fields of `poll_context_t` that an event touches. */
  class PollContext {
    const time: TimerItem
    var revents: seq<bv16>
    var raiseCnt: nat
    var detached: bool

    constructor (time: TimerItem, n: nat)
      ensures this.time == time && revents == seq(n, _ => 0) && raiseCnt == 0 && !detached
    {
      this.time, revents, raiseCnt, detached := time, seq(n, _ => 0), 0, false;
    }

    /** Note an event, as the caller of `poll` will see it; report whether it is the first. */
    method Record(index: nat, events: bv32) returns (first: bool)
      requires index < |revents|
      modifies this
      ensures Recorded(old(revents), revents, index, events) && raiseCnt == old(raiseCnt) + 1 && detached
      ensures first == !old(detached)
    {
      EpollToPollShows(events, EpollToPoll(events));
      revents := revents[index := EpollToPoll(events)];
      raiseCnt := raiseCnt + 1;
      first := !detached;
      detached := true;
    }
  }

  lemma TakenItems(was: seq<TimerItem>, items: seq<TimerItem>, out: seq<Entry<TimerItem>>)
    requires Entries(items) == Entries(was) + out
    ensures items == was + ItemsOf(out)
  {
    assert |items| == |was| + |out|;
    forall i | 0 <= i < |items| ensures items[i] == (was + ItemsOf(out))[i] {
      assert Entries(items)[i] == (Entries(was) + out)[i];
    }
  }

  class EpollContext {
    const timer: Timer
    const active: TimerList
    const timeouts: TimerList
    var now: nat

    ghost predicate Valid()
      reads timer, timer.row, timer.row.lists, timer.row.nodes, active, active.items, timeouts, timeouts.items
    {
      && active.slot < 0 && timeouts.slot < 0 && active != timeouts
      && timer.Valid() && active.Valid() && timeouts.Valid()
    }

    ghost function View(): LoopView<TimerItem>
      reads this, timer, timer.row, active, timeouts
    {
      LoopView(timer.View(), active.items, timeouts.items, now)
    }

    /** `alloc_epoll` */
    constructor (clock: nat)
      ensures Valid() && View() == LoopView(EmptyWheel(60000, clock), [], [], 0)
    {
      timer := new Timer(60000, clock);
      active := new TimerList(-1);
      timeouts := new TimerList(-1);
      now := 0;
    }

    /** No node is both in the wheel and in one of the two lists: a node names the list it is in. */
    lemma Apart()
      requires Valid()
      ensures forall x :: x in timer.row.nodes ==> x !in active.items && x !in timeouts.items
      ensures forall x :: x in active.items ==> x !in timeouts.items
    {
    }

    /** A node that the wheel files is linked into a bucket. */
    lemma FiledIsLinked(item: TimerItem)
      requires timer.Valid() && Filed(timer.View(), Entry(item, item.expire))
      ensures item in timer.row.nodes && item in item.parent.items
    {
      var rows := timer.row.rows;
      var i :| 0 <= i < |rows| && Entry(item, item.expire) in rows[i];
      var k :| 0 <= k < |rows[i]| && rows[i][k] == Entry(item, item.expire);
      assert timer.row.lists[i].items[k] == item;
    }

    /** Clearing the timeout list at the start of an iteration.  Whatever was in it is stranded: such a
        node still names the list, so that `add_tail` would never link it again. */
    method ClearTimeouts()
      requires Valid()
      modifies timeouts
      ensures Valid() && View() == old(View()).(timeouts := [])
      ensures forall x :: x in old(timeouts.items) ==>
                x.parent == timeouts && x !in active.items && x !in timer.row.nodes
    {
      Apart();
      timeouts.head, timeouts.tail, timeouts.items := null, null, [];
    }

    /** `remove_from_link` on a node of the wheel. */
    method LeaveWheel(item: TimerItem)
      requires Valid() && item in timer.row.nodes && item in item.parent.items
      modifies timer.row, timer.row.lists, timer.row.nodes`prev, timer.row.nodes`next, item`parent
      ensures Valid() && item.parent == null && active.items == old(active.items) && timeouts.items == old(timeouts.items)
      ensures timer.View() == WheelRemove(old(timer.View()), item)
      ensures timer.row.nodes == old(timer.row.nodes) - {item}
    {
      Apart();
      timer.row.Remove(item);
    }

    /** `add_tail` on the active list. */
    method Activate(item: TimerItem)
      requires Valid() && item.parent == null && item !in timer.row.nodes
      modifies active, item`prev, item`next, item`parent, active.items`next
      ensures Valid() && active.items == old(active.items) + [item]
      ensures timer.View() == old(timer.View()) && timeouts.items == old(timeouts.items)
    {
      Apart();
      active.AddTail(item);
    }

    /** A node moves from the wheel to the end of the active list. */
    method Wake(item: TimerItem)
      requires Valid() && Filed(timer.View(), Entry(item, item.expire))
      modifies timer.row, timer.row.lists, timer.row.nodes`prev, timer.row.nodes`next
      modifies active, active.items`next, item`prev, item`next, item`parent
      ensures Valid() && View() == AfterWake(old(View()), item)
    {
      FiledIsLinked(item);
      LeaveWheel(item);
      Activate(item);
    }

    /** `prepare_poll_event`: record the event as the caller of `poll` will see it, count it, and on the
        first one move the poll's node from the wheel to the end of the active list. */
    method PreparePollEvent(poll: PollContext, index: nat, events: bv32)
      requires Valid() && index < |poll.revents|
      requires !poll.detached ==> Filed(timer.View(), Entry(poll.time, poll.time.expire))
      modifies poll, timer.row, timer.row.lists, timer.row.nodes`prev, timer.row.nodes`next
      modifies active, active.items`next, poll.time`prev, poll.time`next, poll.time`parent
      ensures Valid()
      ensures Recorded(old(poll.revents), poll.revents, index, events)
      ensures poll.raiseCnt == old(poll.raiseCnt) + 1 && poll.detached
      ensures View() == if old(poll.detached) then old(View())
                        else AfterWake(old(View()), poll.time)
    {
      var first := poll.Record(index, events);
      if first {
        Wake(poll.time);
      }
    }

    /** One turn of the drain loop up to the call of `process`: the head leaves the list. */
    method PopActive() returns (item: TimerItem)
      requires Valid() && active.items != []
      modifies active, active.items`prev, active.items`next, active.items`parent
      ensures Valid() && item == old(active.items[0]) && active.items == old(active.items[1..]) && item.parent == null
      ensures View() == old(View()).(active := old(View()).active[1..])
    {
      item := active.head;
      Apart();
      active.PopHead();
    }

    /** Read the clock and take what is due. */
    method TakeDue(clock: nat, ghost touch: set<TimerItem>)
      requires Valid() && TickDefined(timer.View(), clock)
      requires timer.row.nodes <= touch && forall x :: x in timeouts.items ==> x in touch
      requires forall x :: x in active.items ==> x !in touch
      modifies this, timer, timer.row, timer.row.lists, timeouts, touch`parent, touch`prev, touch`next
      ensures Valid() && View() == AfterTake(old(View()), clock)
      ensures timer.row.nodes <= touch && forall x :: x in timeouts.items ==> x in touch
    {
      ghost var was, out := timeouts.items, WheelTickOut(timer.View(), clock);
      timer.TakeAllTimeout(clock, timeouts, touch);
      now := clock;
      TakenItems(was, timeouts.items, out);
    }

    /** Mark what was taken. */
    method MarkDue()
      requires Valid()
      modifies timeouts.items`timeout
      ensures Valid() && forall i :: 0 <= i < |timeouts.items| ==> timeouts.items[i].timeout
    {
      Apart();
      timeouts.MarkTimeouts();
    }

    /** Read the clock, take what is due and mark it. */
    method TakeAndMark(clock: nat, ghost touch: set<TimerItem>)
      requires Valid() && TickDefined(timer.View(), clock)
      requires timer.row.nodes <= touch && forall x :: x in timeouts.items ==> x in touch
      requires forall x :: x in active.items ==> x !in touch
      modifies this, timer, timer.row, timer.row.lists, timeouts, touch
      ensures Valid() && View() == AfterTake(old(View()), clock)
      ensures timer.row.nodes <= touch && forall x :: x in timeouts.items ==> x in touch
      ensures forall x :: x in touch ==> x.timeout == (old(x.timeout) || x in timeouts.items)
    {
      TakeDue(clock, touch);
      MarkDue();
    }

    /** Append the timed-out nodes to those that events have already made active. */
    method JoinTimeouts(ghost touch: set<TimerItem>)
      requires Valid()
      requires timer.row.nodes <= touch && forall x :: x in timeouts.items ==> x in touch
      modifies active, active.items`next, timeouts, touch`parent, touch`prev, touch`next
      ensures Valid() && View() == AfterJoin(old(View()))
    {
      Apart();
      active.Join(timeouts);
    }

    /** The clock half of an iteration: what is due comes behind what events have made active, and
        exactly that is marked. */
    method Tick(clock: nat)
      requires Valid() && TickDefined(timer.View(), clock)
      modifies this, timer, timer.row, timer.row.lists, timer.row.nodes
      modifies active, active.items`next, timeouts, timeouts.items
      ensures Valid() && View() == AfterJoin(AfterTake(old(View()), clock))
      ensures forall x :: x in old(active.items) ==> x.timeout == old(x.timeout)
      ensures forall x :: x in old(timer.row.nodes) || x in old(timeouts.items) ==>
                x.timeout == (old(x.timeout) || x in active.items)
    {
      ghost var touch := timer.row.nodes + set x | x in timeouts.items;
      Apart();
      TakeAndMark(clock, touch);
      JoinTimeouts(touch);
    }
  }
}
