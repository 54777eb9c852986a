/**
The timer wheel of src/epoll.c on the heap: a fixed row of intrusive lists.  Each method is proved
equal to the function of `TimerWheel` that models it on values.
 */
module EpollTimer {
  import opened CInt
  import opened TimerSpec
  import opened TimerWheel
  import opened WheelBounds
  import opened IntrusiveList

  /** A chain of nodes as (node, deadline) pairs. */
  ghost function Entries(items: seq<TimerItem>): (r: seq<Entry<TimerItem>>)
    ensures |r| == |items| && forall i :: 0 <= i < |r| ==> r[i] == Entry(items[i], items[i].expire)
  {
    seq(|items|, i requires 0 <= i < |items| => Entry(items[i], items[i].expire))
  }

  lemma EntriesAppend(a: seq<TimerItem>, b: seq<TimerItem>)
    ensures Entries(a + b) == Entries(a) + Entries(b)
  {
  }

  lemma Regroup(a: seq<Entry<TimerItem>>, b: seq<Entry<TimerItem>>, c: seq<Entry<TimerItem>>)
    ensures (a + b) + c == a + (b + c)
  {
  }

  lemma {:induction false} EntriesWithout(items: seq<TimerItem>, item: TimerItem)
    ensures Entries(Without(items, item)) == Select(Entries(items), Except(item))
  {
    if items != [] {
      var rest, last := items[..|items| - 1], items[|items| - 1];
      EntriesWithout(rest, item);
      assert Entries(items) == Entries(rest) + [Entry(last, last.expire)];
      SelectSnoc(Entries(rest), Entry(last, last.expire), Except(item));
    }
  }

  lemma EntriesAbsent(items: seq<TimerItem>, item: TimerItem)
    requires item !in items
    ensures Select(Entries(items), Except(item)) == Entries(items)
  {
    SelectAll(Entries(items), Except(item));
  }

  /** A scan in progress: the content of the buckets, and of the list that collects it. */
  datatype Scan = Scan(rows: seq<seq<Entry<TimerItem>>>, found: seq<Entry<TimerItem>>)

  /** One bucket moves to the end of the list. */
  function Joined(s: Scan, idx: nat): Scan
    requires idx < |s.rows|
  {
    Scan(s.rows[idx := []], s.found + s.rows[idx])
  }

  /** The i-th turn of the scanning loop leads from one stage to the next. */
  predicate Advances(stages: seq<Scan>, startIdx: int, i: nat, size: nat)
    requires 0 < size && i + 1 < |stages|
  {
    && IndexDefined(startIdx, i, size) && RawIndex(startIdx, i, size) < |stages[i].rows|
    && stages[i + 1] == Joined(stages[i], RawIndex(startIdx, i, size))
  }

  /** The stages of a scan that appends to `front`. */
  ghost function Stages(w: Wheel<TimerItem>, front: seq<Entry<TimerItem>>, cnt: nat): (r: seq<Scan>)
    requires 0 < |w.buckets| && cnt <= |w.buckets|
    ensures |r| == cnt + 1
    ensures r[0] == Scan(w.buckets, front) && r[cnt] == Scan(Emptied(w, cnt), front + Taken(w, cnt))
  {
    assert front + Taken(w, 0) == front;
    seq(cnt + 1, n requires 0 <= n <= cnt => Scan(Emptied(w, n), front + Taken(w, n)))
  }

  lemma StagesAdvance(w: Wheel<TimerItem>, front: seq<Entry<TimerItem>>, cnt: nat, i: nat)
    requires i < cnt <= |w.buckets| && IndexDefined(w.startIdx, i, |w.buckets|)
    ensures Advances(Stages(w, front, cnt), w.startIdx, i, |w.buckets|)
  {
    ScanStep(w, i);
    RawIndexIsBucket(w.startIdx, i, |w.buckets|);
    Regroup(front, Taken(w, i), Emptied(w, i)[RawIndex(w.startIdx, i, |w.buckets|)]);
  }

  /** The row of buckets, `timer->items`. */
  class Buckets {
    const lists: seq<TimerList>
    /** The content of each bucket. */
    ghost var rows: seq<seq<Entry<TimerItem>>>
    /** The nodes in all buckets. */
    ghost var nodes: set<TimerItem>

    /** Every bucket is a well-formed list of its own, and `nodes` are the nodes in them. */
    ghost predicate Shape()
      reads this`nodes, lists, nodes
    {
      && (forall i :: 0 <= i < |lists| ==> lists[i].slot == i)
      && (forall i, x :: 0 <= i < |lists| && x in lists[i].items ==> x in nodes)
      && (forall x :: x in nodes ==> x.parent != null && x.parent in lists)
      && (forall i :: 0 <= i < |lists| ==> lists[i].Valid())
    }

    ghost predicate Valid()
      reads this, lists, nodes
    {
      && Shape()
      && |rows| == |lists|
      && (forall i :: 0 <= i < |lists| ==> rows[i] == Entries(lists[i].items))
    }

    constructor (size: nat)
      ensures Valid() && rows == seq(size, _ => []) && fresh(lists) && nodes == {} && |lists| == size
    {
      var row: seq<TimerList> := [];
      for i := 0 to size
        invariant |row| == i
        invariant forall j :: 0 <= j < i ==> fresh(row[j]) && row[j].Valid() && row[j].items == [] && row[j].slot == j
      {
        var list := new TimerList(i);
        row := row + [list];
      }
      lists, rows, nodes := row, seq(size, _ => []), {};
    }

    /** `add_tail` on one bucket. */
    method AppendTo(idx: nat, item: TimerItem)
      requires Shape() && idx < |lists|
      modifies this`nodes, lists, nodes`next, item`prev, item`next, item`parent
      ensures Shape() && nodes == old(nodes) + if old(item.parent) == null then {item} else {}
      ensures forall j :: 0 <= j < |lists| ==>
                lists[j].items == if j == idx && old(item.parent) == null then old(lists[j].items) + [item]
                                  else old(lists[j].items)
    {
      if item.parent == null {
        nodes := nodes + {item};
      }
      lists[idx].AddTail(item);
    }

    /** Append a node to one bucket, unless it is already in some list. */
    method AddTo(idx: nat, item: TimerItem)
      requires Valid() && idx < |lists|
      modifies this, lists, nodes`next, item`prev, item`next, item`parent
      ensures Valid()
      ensures old(item.parent) != null ==> rows == old(rows) && nodes == old(nodes)
      ensures old(item.parent) == null ==>
                && rows == old(rows)[idx := old(rows)[idx] + [Entry(item, item.expire)]]
                && nodes == old(nodes) + {item}
    {
      ghost var x := Entry(item, item.expire);
      assert Entries(lists[idx].items + [item]) == rows[idx] + [x];
      AppendTo(idx, item);
      if old(item.parent) == null {
        rows := rows[idx := rows[idx] + [x]];
      }
    }

    /** `remove_from_link` of a node that is in some bucket. */
    method Unlink(item: TimerItem)
      requires Shape() && item in nodes && item in item.parent.items
      modifies this`nodes, lists, nodes`prev, nodes`next, item`parent
      ensures Shape() && nodes == old(nodes) - {item}
      ensures item.parent == null && item.prev == null && item.next == null
      ensures forall j :: 0 <= j < |lists| ==>
                lists[j].items == if lists[j] == old(item.parent) then Without(old(lists[j].items), item)
                                  else old(lists[j].items)
    {
      ghost var list, was := item.parent, item.parent.items;
      assert forall j :: 0 <= j < |lists| && item in lists[j].items ==> lists[j] == list;
      nodes := nodes - {item};
      RemoveFromLink(item);
      forall j, x | 0 <= j < |lists| && x in lists[j].items ensures x in nodes {
        if lists[j] == list {
          WithoutIn(was, item);
          assert x in Without(was, item);
        } else {
          assert x in old(lists[j].items);
        }
      }
    }

    /** Delete a node from the row. */
    method Remove(item: TimerItem)
      requires Valid() && item in nodes && item in item.parent.items
      modifies this, lists, nodes`prev, nodes`next, item`parent
      ensures Valid() && nodes == old(nodes) - {item}
      ensures item.parent == null && item.prev == null && item.next == null
      ensures rows == WheelRemove(Wheel(old(rows), 0, 0), item).buckets
    {
      ghost var was := rows;
      forall j | 0 <= j < |lists|
        ensures Select(rows[j], Except(item)) ==
                if lists[j] == item.parent then Entries(Without(lists[j].items, item)) else rows[j]
      {
        EntriesWithout(lists[j].items, item);
        if lists[j] != item.parent { EntriesAbsent(lists[j].items, item); }
      }
      rows := WheelRemove(Wheel(rows, 0, 0), item).buckets;
      Unlink(item);
    }

    /** `join` of one bucket into a list outside the row. */
    method JoinInto(idx: nat, result: TimerList, ghost touch: set<TimerItem>)
      requires Shape() && idx < |lists|
      requires result.Valid() && result.slot < 0
      requires nodes <= touch && forall x :: x in result.items ==> x in touch
      modifies this`nodes, lists, result, touch`parent, touch`prev, touch`next
      ensures Shape() && result.Valid()
      ensures result.items == old(result.items) + old(lists[idx].items)
      ensures forall j :: 0 <= j < |lists| ==> lists[j].items == if j == idx then [] else old(lists[j].items)
      ensures nodes <= touch && forall x :: x in result.items ==> x in touch
    {
      nodes := nodes - set x | x in lists[idx].items;
      result.Join(lists[idx]);
    }

    /** Move the content of one bucket to the end of a list outside the row. */
    method Take(idx: nat, result: TimerList, ghost touch: set<TimerItem>)
      requires Valid() && idx < |lists|
      requires result.Valid() && result.slot < 0
      requires nodes <= touch && forall x :: x in result.items ==> x in touch
      modifies this, lists, result, touch`parent, touch`prev, touch`next
      ensures Valid() && result.Valid()
      ensures rows == old(rows)[idx := []]
      ensures Entries(result.items) == old(Entries(result.items)) + old(rows)[idx]
      ensures nodes <= touch && forall x :: x in result.items ==> x in touch
    {
      EntriesAppend(result.items, lists[idx].items);
      JoinInto(idx, result, touch);
      rows := rows[idx := []];
    }

    /** A list outside the row, which together with the row uses nodes of `touch` only. */
    ghost predicate Beside(result: TimerList, touch: set<TimerItem>)
      reads this, lists, nodes, result, result.items
    {
      && Valid() && result.Valid() && result.slot < 0
      && nodes <= touch && forall x :: x in result.items ==> x in touch
    }

    ghost function Progress(result: TimerList): Scan
      reads this, result
    {
      Scan(rows, Entries(result.items))
    }

    /** One turn of the scanning loop of `takeAllTimeout`. */
    method TakeNext(startIdx: int, i: nat, result: TimerList, ghost stages: seq<Scan>, ghost touch: set<TimerItem>)
      requires Beside(result, touch) && 0 < |lists| && i + 1 < |stages|
      requires Progress(result) == stages[i] && Advances(stages, startIdx, i, |lists|)
      modifies this, lists, result, touch`parent, touch`prev, touch`next
      ensures Beside(result, touch) && Progress(result) == stages[i + 1]
    {
      Take(RawIndex(startIdx, i, |lists|), result, touch);
    }

    /** The scanning loop of `takeAllTimeout`. */
    method TakeRun(startIdx: int, cnt: nat, result: TimerList, ghost stages: seq<Scan>, ghost touch: set<TimerItem>)
      requires Beside(result, touch) && 0 < |lists| && |stages| == cnt + 1 && Progress(result) == stages[0]
      requires forall i :: 0 <= i < cnt ==> Advances(stages, startIdx, i, |lists|)
      modifies this, lists, result, touch`parent, touch`prev, touch`next
      ensures Beside(result, touch) && Progress(result) == stages[cnt]
    {
      var i := 0;
      while i < cnt
        invariant i <= cnt
        invariant Beside(result, touch) && Progress(result) == stages[i]
        modifies this, lists, result, touch`parent, touch`prev, touch`next
      {
        TakeNext(startIdx, i, result, stages, touch);
        i := i + 1;
      }
    }
  }

  class Timer {
    const size: nat
    const row: Buckets
    var start: nat
    var startIdx: int

    ghost predicate Valid()
      reads row, row.lists, row.nodes
    {
      0 < size < TWO_31 && |row.lists| == |row.rows| == size && row.Valid()
    }

    ghost function View(): Wheel<TimerItem>
      reads this, row
    {
      Wheel(row.rows, start, startIdx)
    }

    /** `alloc_timer`: every bucket empty, the clock reading as start. */
    constructor (size: nat, now: nat)
      requires 0 < size < TWO_31
      ensures Valid() && View() == EmptyWheel(size, now) && fresh(row) && fresh(row.lists) && row.nodes == {}
    {
      this.size, start, startIdx := size, now, 0;
      row := new Buckets(size);
    }

    /** The first statement of both operations: adopt the first clock reading as start. */
    method Begin(now: nat)
      requires Valid()
      modifies this
      ensures Valid() && View() == WheelStarted(old(View()), now)
    {
      if start == 0 {
        start := now;
        startIdx := 0;
      }
    }

    /** `add_tail` on the bucket that `add_timeout` has chosen. */
    method File(item: TimerItem, idx: nat)
      requires Valid() && idx < size
      modifies row, row.lists, row.nodes`next, item`prev, item`next, item`parent
      ensures Valid()
      ensures old(item.parent) != null ==> View() == old(View())
      ensures old(item.parent) == null ==>
                var w := old(View());
                View() == w.(buckets := w.buckets[idx := w.buckets[idx] + [Entry(item, item.expire)]])
    {
      row.AddTo(idx, item);
    }

    /** `add_timeout` */
    method AddTimeout(item: TimerItem, now: nat) returns (ret: int)
      requires Valid() && AddDefined(View(), item.expire, now)
      modifies this, row, row.lists, row.nodes`next, item`prev, item`next, item`parent
      ensures Valid()
      ensures ret == WheelAddResult(old(View()), item.expire, now)
      ensures old(item.parent) == null ==> View() == WheelAdd(old(View()), Entry(item, item.expire), now)
      ensures old(item.parent) != null ==> View() == WheelStarted(old(View()), now)
    {
      ret := -1;
      Begin(now);
      if start <= now <= item.expire {
        var diff := Int32(item.expire - start);
        AddUnfolds(old(View()), Entry(item, item.expire), now, diff);
        if diff < size {
          RawIndexIsBucket(startIdx, diff, size);
          File(item, RawIndex(startIdx, diff, size));
          ret := 0;
        }
      }
    }

    /** The second half of `takeAllTimeout`: scan, and make the bucket of `now` the first. */
    method Scan(now: nat, cnt: nat, result: TimerList, ghost touch: set<TimerItem>)
      requires Valid() && row.Beside(result, touch) && cnt <= size && ScanDefined(startIdx, cnt, size)
      modifies this, row, row.lists, result, touch`parent, touch`prev, touch`next
      ensures Valid() && row.Beside(result, touch)
      ensures View() == Wheel(Emptied(old(View()), cnt), now, old(startIdx) + cnt - 1)
      ensures Entries(result.items) == old(Entries(result.items)) + Taken(old(View()), cnt)
    {
      ghost var w, front := View(), Entries(result.items);
      forall i | 0 <= i < cnt ensures Advances(Stages(w, front, cnt), startIdx, i, size) {
        StagesAdvance(w, front, cnt, i);
      }
      row.TakeRun(startIdx, cnt, result, Stages(w, front, cnt), touch);
      start := now;
      startIdx := startIdx + cnt - 1;
    }

    /** `takeAllTimeout` */
    method TakeAllTimeout(now: nat, result: TimerList, ghost touch: set<TimerItem>)
      requires Valid() && row.Beside(result, touch) && TickDefined(View(), now)
      modifies this, row, row.lists, result, touch`parent, touch`prev, touch`next
      ensures Valid() && row.Beside(result, touch)
      ensures View() == WheelTick(old(View()), now)
      ensures Entries(result.items) == old(Entries(result.items)) + WheelTickOut(old(View()), now)
    {
      Begin(now);
      if start <= now {
        var cnt := Int32(now - start + 1);
        if cnt > size {
          cnt := size;
        }
        if cnt >= 0 {
          TickUnfolds(old(View()), now, cnt);
          Scan(now, cnt, result, touch);
        }
      }
    }
  }
}
