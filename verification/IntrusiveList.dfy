/**
The intrusive doubly linked lists of src/epoll.c on the heap.  A node carries its own links and a
pointer to the list it is in; a list carries its head and tail.  Each operation is proved to be the
matching operation on sequences, in a heap that holds any number of other lists.
 */
module IntrusiveList {

  class TimerItem {
    var prev: TimerItem?
    var next: TimerItem?
    var parent: TimerList?
    /** Written once, before the node is first linked. */
    const expire: nat
    var timeout: bool

    /** A node as `memset` leaves it: in no list. */
    constructor (expire: nat)
      ensures prev == null && next == null && parent == null && this.expire == expire && !timeout
    {
      prev, next, parent := null, null, null;
      this.expire, timeout := expire, false;
    }
  }

  class TimerList {
    var head: TimerItem?
    var tail: TimerItem?
    /** The nodes from head to tail. */
    ghost var items: seq<TimerItem>
    /** The position of a list in a row of lists; negative for a list on its own. */
    ghost const slot: int

    /** Links, ends and parents all agree with `items`, and no node occurs twice.  Because every
        node names its list, two valid lists never share a node. */
    ghost predicate Valid()
      reads this, items
    {
      && head == (if items == [] then null else items[0])
      && tail == (if items == [] then null else items[|items| - 1])
      && (forall x :: x in items ==> x.parent == this)
      && (forall i {:trigger items[i].prev} :: 0 <= i < |items| ==>
            items[i].prev == if i == 0 then null else items[i - 1])
      && (forall i {:trigger items[i].next} :: 0 <= i < |items| ==>
            items[i].next == if i + 1 == |items| then null else items[i + 1])
      && (forall i, j :: 0 <= i < j < |items| ==> items[i] != items[j])
    }

    constructor (ghost slot: int)
      ensures Valid() && items == [] && this.slot == slot
    {
      head, tail, items, this.slot := null, null, [], slot;
    }

    /** Append, unless the node is already in some list. */
    method AddTail(item: TimerItem)
      requires Valid()
      modifies this, item`prev, item`next, item`parent, items`next
      ensures Valid()
      ensures items == if old(item.parent) != null then old(items) else old(items) + [item]
      ensures item.parent == if old(item.parent) != null then old(item.parent) else this
      ensures forall l: TimerList :: old(allocated(l)) && l != this && old(l.Valid()) ==>
                l.Valid() && l.items == old(l.items)
    {
      if item.parent != null {
        return;
      }
      if tail != null {
        tail.next := item;
        item.next := null;
        item.prev := tail;
        tail := item;
      } else {
        head, tail := item, item;
        item.next, item.prev := null, null;
      }
      item.parent := this;
      items := items + [item];
      forall l: TimerList | old(allocated(l)) && l != this && old(l.Valid())
        ensures l.Valid() && l.items == old(l.items)
      {
        assert forall i :: 0 <= i < |old(l.items)| ==> old(l.items[i].parent) == l;
      }
    }

    /** Drop the first node; an empty list stays empty. */
    method PopHead()
      requires Valid()
      modifies this, items`prev, items`next, items`parent
      ensures Valid()
      ensures items == if old(items) == [] then [] else old(items)[1..]
      ensures old(items) != [] ==>
                var item := old(items)[0]; item.parent == null && item.prev == null && item.next == null
      ensures forall l: TimerList :: old(allocated(l)) && l != this && old(l.Valid()) ==>
                l.Valid() && l.items == old(l.items)
    {
      if head == null {
        return;
      }
      var item := head;
      if head == tail {
        head, tail := null, null;
      } else {
        head := head.next;
      }
      item.prev, item.next := null, null;
      item.parent := null;
      if head != null {
        head.prev := null;
      }
      items := items[1..];
      forall l: TimerList | old(allocated(l)) && l != this && old(l.Valid())
        ensures l.Valid() && l.items == old(l.items)
      {
        assert forall i :: 0 <= i < |old(l.items)| ==> old(l.items[i].parent) == l;
      }
    }

    /** The marking loop of the event loop: every node of this list has timed out. */
    method MarkTimeouts()
      requires Valid()
      modifies items`timeout
      ensures Valid() && forall i :: 0 <= i < |items| ==> items[i].timeout
    {
      var item := head;
      ghost var i := 0;
      while item != null
        invariant 0 <= i <= |items|
        invariant item == if i == |items| then null else items[i]
        invariant forall j :: 0 <= j < i ==> items[j].timeout
        decreases |items| - i
      {
        item.timeout := true;
        item := item.next;
        i := i + 1;
      }
    }

    /** First half of `join`: every node names `list` as its parent. */
    method Reparent(list: TimerList)
      requires Valid()
      modifies items`parent
      ensures forall i :: 0 <= i < |items| ==> items[i].parent == list
    {
      var item := head;
      ghost var i := 0;
      while item != null
        invariant 0 <= i <= |items|
        invariant item == if i == |items| then null else items[i]
        invariant forall j :: 0 <= j < i ==> items[j].parent == list
        decreases |items| - i
      {
        item.parent := list;
        item := item.next;
        i := i + 1;
      }
    }

    /** Second half of `join`: hook the chain of `other` behind the tail. */
    method Splice(other: TimerList)
      requires Valid() && other != this && other.items != []
      requires other.head == other.items[0] && other.tail == other.items[|other.items| - 1]
      requires forall i :: 0 <= i < |other.items| ==> other.items[i].parent == this
      requires forall i {:trigger other.items[i].prev} :: 0 <= i < |other.items| ==>
                 other.items[i].prev == if i == 0 then null else other.items[i - 1]
      requires forall i {:trigger other.items[i].next} :: 0 <= i < |other.items| ==>
                 other.items[i].next == if i + 1 == |other.items| then null else other.items[i + 1]
      requires forall i, j :: 0 <= i < j < |other.items| ==> other.items[i] != other.items[j]
      requires forall i, j :: 0 <= i < |items| && 0 <= j < |other.items| ==> items[i] != other.items[j]
      modifies this, other, other.items`prev, items`next
      ensures Valid() && other.Valid()
      ensures items == old(items) + old(other.items) && other.items == []
    {
      var item := other.head;
      if tail != null {
        tail.next := item;
        item.prev := tail;
        tail := other.tail;
      } else {
        head := other.head;
        tail := other.tail;
      }
      items := items + other.items;
      other.head, other.tail, other.items := null, null, [];
    }

    /** Move all nodes of `other` behind the nodes of this list. */
    method Join(other: TimerList)
      requires Valid() && other.Valid() && other != this
      modifies this, other, other.items`parent, other.items`prev, items`next
      ensures Valid() && other.Valid()
      ensures items == old(items) + old(other.items)
      ensures other.items == []
      ensures forall l: TimerList :: old(allocated(l)) && l != this && l != other && old(l.Valid()) ==>
                l.Valid() && l.items == old(l.items)
    {
      if other.head == null {
        return;
      }
      assert forall i, j :: 0 <= i < |items| && 0 <= j < |other.items| ==>
          items[i].parent != other.items[j].parent;
      assert forall i, j :: 0 <= i < |items| && 0 <= j < |other.items| ==> items[i] != other.items[j];
      other.Reparent(this);
      Splice(other);
      forall l: TimerList | old(allocated(l)) && l != this && l != other && old(l.Valid())
        ensures l.Valid() && l.items == old(l.items)
      {
        assert forall i :: 0 <= i < |old(l.items)| ==> old(l.items[i].parent) == l;
      }
    }

    /** The pointer work of `remove_from_link` for the node at position k. */
    method Unlink(item: TimerItem, ghost k: nat)
      requires Valid() && k < |items| && items[k] == item
      modifies this, items`prev, items`next, item`parent
      ensures Valid() && items == old(items[..k] + items[k + 1..])
      ensures item.parent == null && item.prev == null && item.next == null
    {
      if item == head {
        head := item.next;
        if head != null {
          head.prev := null;
        }
      } else if item.prev != null {
        item.prev.next := item.next;
      }
      if item == tail {
        tail := item.prev;
        if tail != null {
          tail.next := null;
        }
      } else {
        item.next.prev := item.prev;
      }
      item.prev, item.next := null, null;
      item.parent := null;
      items := items[..k] + items[k + 1..];
    }
  }

  /** The position of a node in its list. */
  ghost function IndexOf(s: seq<TimerItem>, x: TimerItem): (i: nat)
    requires x in s
    ensures i < |s| && s[i] == x
  {
    var i: nat :| i < |s| && s[i] == x; i
  }

  function Without(s: seq<TimerItem>, x: TimerItem): seq<TimerItem> {
    if s == [] then []
    else Without(s[..|s| - 1], x) + if s[|s| - 1] == x then [] else [s[|s| - 1]]
  }

  lemma {:induction false} WithoutAbsent(s: seq<TimerItem>, x: TimerItem)
    requires forall i :: 0 <= i < |s| ==> s[i] != x
    ensures Without(s, x) == s
  {
    if s != [] {
      WithoutAbsent(s[..|s| - 1], x);
    }
  }

  lemma {:induction false} WithoutAt(s: seq<TimerItem>, k: nat)
    requires k < |s| && forall i, j :: 0 <= i < j < |s| ==> s[i] != s[j]
    ensures Without(s, s[k]) == s[..k] + s[k + 1..]
  {
    var rest, last := s[..|s| - 1], s[|s| - 1];
    if k == |s| - 1 {
      WithoutAbsent(rest, last);
    } else {
      WithoutAt(rest, k);
      assert s[..k] + s[k + 1..] == rest[..k] + rest[k + 1..] + [last];
    }
  }

  lemma {:induction false} WithoutIn(s: seq<TimerItem>, x: TimerItem)
    ensures forall y :: y in Without(s, x) <==> y in s && y != x
  {
    if s != [] {
      WithoutIn(s[..|s| - 1], x);
      assert s == s[..|s| - 1] + [s[|s| - 1]];
    }
  }

  /** Unlink a node, wherever in its list it is; a node in no list stays as it is. */
  method RemoveFromLink(item: TimerItem)
    requires item.parent != null ==> item.parent.Valid() && item in item.parent.items
    modifies item`prev, item`next, item`parent
    modifies item.parent
    modifies (if item.parent == null then {} else set x | x in item.parent.items)`prev
    modifies (if item.parent == null then {} else set x | x in item.parent.items)`next
    ensures item.parent == null
    ensures old(item.parent) == null ==> item.prev == old(item.prev) && item.next == old(item.next)
    ensures old(item.parent) != null ==>
              var list := old(item.parent);
              && list.Valid() && item.prev == null && item.next == null
              && list.items == Without(old(item.parent.items), item)
    ensures forall l: TimerList :: old(allocated(l)) && l != old(item.parent) && old(l.Valid()) ==>
              l.Valid() && l.items == old(l.items)
  {
    var list := item.parent;
    if list == null {
      return;
    }
    ghost var k := IndexOf(list.items, item);
    WithoutAt(list.items, k);
    list.Unlink(item, k);
    forall l: TimerList | old(allocated(l)) && l != list && old(l.Valid())
      ensures l.Valid() && l.items == old(l.items)
    {
      assert forall i :: 0 <= i < |old(l.items)| ==> old(l.items[i].parent) == l;
    }
  }
}
