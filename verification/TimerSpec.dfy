/**
The timer as a client sees it: a plain collection of (item, expire) pairs in insertion order.
Adding appends, removing deletes, and a tick takes out everything that is due, earliest deadline
first and ties in insertion order.  The wheel in `TimerWheel` is proved to refine this.
 */
module TimerSpec {

  datatype Entry<T> = Entry(item: T, expire: nat)

  /** `start` is the clock reading of the last tick; 0 means that no reading has been taken yet. */
  datatype Timers<T> = Timers(entries: seq<Entry<T>>, start: nat)

  /** First-order tests on entries, so that one `Select` serves every filter. */
  datatype Test<T> = Exactly(e: nat) | AtMost(e: nat) | Beyond(e: nat) | Except(item: T)

  predicate Holds<T(==)>(t: Test<T>, x: Entry<T>) {
    match t
    case Exactly(e) => x.expire == e
    case AtMost(e) => x.expire <= e
    case Beyond(e) => e < x.expire
    case Except(item) => x.item != item
  }

  /** The subsequence of entries that pass the test. */
  function Select<T(==)>(s: seq<Entry<T>>, t: Test<T>): seq<Entry<T>> {
    if s == [] then [] else
    Select(s[..|s| - 1], t) + if Holds(t, s[|s| - 1]) then [s[|s| - 1]] else []
  }

  ghost predicate SortedByExpire<T>(s: seq<Entry<T>>) {
    forall i, j :: 0 <= i < j < |s| ==> s[i].expire <= s[j].expire
  }

  /** Insertion into a sorted sequence, behind every entry with the same deadline. */
  function InsertStable<T>(s: seq<Entry<T>>, x: Entry<T>): seq<Entry<T>> {
    if s == [] || s[|s| - 1].expire <= x.expire then s + [x]
    else InsertStable(s[..|s| - 1], x) + [s[|s| - 1]]
  }

  function StableSort<T>(s: seq<Entry<T>>): seq<Entry<T>> {
    if s == [] then [] else InsertStable(StableSort(s[..|s| - 1]), s[|s| - 1])
  }

  // ---------------------------------------------------------------- operations

  /** `start == 0` stands for "uninitialised": the first operation adopts its clock reading. */
  function Started<T>(t: Timers<T>, now: nat): Timers<T> {
    if t.start == 0 then t.(start := now) else t
  }

  /** An addition is accepted when the clock has not run backwards past the last tick, the deadline
      has not passed, and it lies within `size` of the last tick. */
  predicate Accepts<T>(t: Timers<T>, size: nat, expire: nat, now: nat) {
    var t := Started(t, now);
    t.start <= now <= expire < t.start + size
  }

  function Add<T>(t: Timers<T>, size: nat, x: Entry<T>, now: nat): Timers<T> {
    var t' := Started(t, now);
    if Accepts(t, size, x.expire, now) then t'.(entries := t'.entries + [x]) else t'
  }

  function Remove<T(==)>(t: Timers<T>, item: T): Timers<T> {
    t.(entries := Select(t.entries, Except(item)))
  }

  /** A clock that has run backwards ticks nothing. */
  function TickOut<T(==)>(t: Timers<T>, now: nat): seq<Entry<T>> {
    if now < Started(t, now).start then [] else StableSort(Select(t.entries, AtMost(now)))
  }

  function Tick<T(==)>(t: Timers<T>, now: nat): Timers<T> {
    if now < Started(t, now).start then t else Timers(Select(t.entries, Beyond(now)), now)
  }

  /** Every pending deadline lies less than one lap ahead of the last tick. */
  ghost predicate Within<T>(t: Timers<T>, size: nat) {
    && (t.start == 0 ==> t.entries == [])
    && forall x :: x in t.entries ==> t.start <= x.expire < t.start + size
  }

  // ---------------------------------------------------------------- laws of Select

  lemma SelectSnoc<T>(s: seq<Entry<T>>, x: Entry<T>, t: Test<T>)
    ensures Select(s + [x], t) == Select(s, t) + if Holds(t, x) then [x] else []
  {
  }

  lemma {:induction false} SelectIn<T>(s: seq<Entry<T>>, t: Test<T>)
    ensures forall x :: x in Select(s, t) <==> x in s && Holds(t, x)
    ensures forall i :: 0 <= i < |Select(s, t)| ==> Holds(t, Select(s, t)[i]) && Select(s, t)[i] in s
  {
    if s != [] {
      SelectIn(s[..|s| - 1], t);
      assert s == s[..|s| - 1] + [s[|s| - 1]];
    }
  }

  lemma {:induction false} SelectAppend<T>(a: seq<Entry<T>>, b: seq<Entry<T>>, t: Test<T>)
    ensures Select(a + b, t) == Select(a, t) + Select(b, t)
  {
    if b == [] {
      assert a + b == a;
    } else {
      var rest, last := b[..|b| - 1], b[|b| - 1];
      assert a + b == (a + rest) + [last];
      SelectAppend(a, rest, t);
      SelectSnoc(a + rest, last, t);
    }
  }

  lemma {:induction false} SelectAll<T>(s: seq<Entry<T>>, t: Test<T>)
    requires forall i :: 0 <= i < |s| ==> Holds(t, s[i])
    ensures Select(s, t) == s
  {
    if s != [] {
      SelectAll(s[..|s| - 1], t);
    }
  }

  lemma {:induction false} SelectNone<T>(s: seq<Entry<T>>, t: Test<T>)
    requires forall i :: 0 <= i < |s| ==> !Holds(t, s[i])
    ensures Select(s, t) == []
  {
    if s != [] {
      SelectNone(s[..|s| - 1], t);
    }
  }

  lemma {:induction false} SelectCommute<T>(s: seq<Entry<T>>, t: Test<T>, u: Test<T>)
    ensures Select(Select(s, t), u) == Select(Select(s, u), t)
  {
    if s != [] {
      var rest, last := s[..|s| - 1], s[|s| - 1];
      SelectCommute(rest, t, u);
      SelectSnoc(Select(rest, t), last, u);
      SelectSnoc(Select(rest, u), last, t);
      assert Select(rest, t) + [] == Select(rest, t);
      assert Select(rest, u) + [] == Select(rest, u);
    }
  }

  /** A tick splits the collection: nothing is lost and nothing is duplicated. */
  lemma {:induction false} SelectSplit<T>(s: seq<Entry<T>>, now: nat)
    ensures multiset(Select(s, AtMost(now))) + multiset(Select(s, Beyond(now))) == multiset(s)
  {
    if s != [] {
      assert s == s[..|s| - 1] + [s[|s| - 1]];
      SelectSplit(s[..|s| - 1], now);
    }
  }

  /** Removing an item that occurs once removes exactly that entry. */
  lemma {:induction false} SelectExcept<T>(s: seq<Entry<T>>, x: Entry<T>)
    requires forall i :: 0 <= i < |s| && s[i].item == x.item ==> s[i] == x
    requires multiset(s)[x] == 1
    ensures multiset(Select(s, Except(x.item))) + multiset{x} == multiset(s)
  {
    var rest, last := s[..|s| - 1], s[|s| - 1];
    assert s == rest + [last];
    if last == x {
      assert multiset(rest)[x] == 0;
      SelectAll(rest, Except(x.item));
    } else {
      SelectExcept(rest, x);
    }
  }

  lemma TickWithin<T>(t: Timers<T>, size: nat, now: nat)
    requires Within(t, size) && t.start <= now
    ensures Within(Timers(Select(t.entries, Beyond(now)), now), size)
  {
    SelectIn(t.entries, Beyond(now));
  }

  lemma RemoveWithin<T>(t: Timers<T>, size: nat, item: T)
    requires Within(t, size)
    ensures Within(Remove(t, item), size)
  {
    SelectIn(t.entries, Except(item));
  }

  // ---------------------------------------------------------------- stability

  lemma {:induction false} InsertStablePermutes<T>(s: seq<Entry<T>>, x: Entry<T>)
    ensures multiset(InsertStable(s, x)) == multiset(s) + multiset{x}
  {
    if s != [] && x.expire < s[|s| - 1].expire {
      InsertStablePermutes(s[..|s| - 1], x);
      assert s == s[..|s| - 1] + [s[|s| - 1]];
    }
  }

  /** No inserted or shifted entry exceeds a bound on the old entries and the new one. */
  lemma {:induction false} InsertStableBounded<T>(s: seq<Entry<T>>, x: Entry<T>, bound: nat)
    requires x.expire <= bound && forall i :: 0 <= i < |s| ==> s[i].expire <= bound
    ensures forall i :: 0 <= i < |InsertStable(s, x)| ==> InsertStable(s, x)[i].expire <= bound
  {
    if s != [] && x.expire < s[|s| - 1].expire {
      InsertStableBounded(s[..|s| - 1], x, bound);
    }
  }

  lemma {:induction false} InsertStableSorts<T>(s: seq<Entry<T>>, x: Entry<T>)
    requires SortedByExpire(s)
    ensures SortedByExpire(InsertStable(s, x))
  {
    if s != [] && x.expire < s[|s| - 1].expire {
      InsertStableSorts(s[..|s| - 1], x);
      InsertStableBounded(s[..|s| - 1], x, s[|s| - 1].expire);
    }
  }

  /** `StableSort` is a sorted permutation of its input. */
  lemma {:induction false} StableSortSorts<T>(s: seq<Entry<T>>)
    ensures multiset(StableSort(s)) == multiset(s)
    ensures SortedByExpire(StableSort(s))
  {
    if s != [] {
      StableSortSorts(s[..|s| - 1]);
      InsertStablePermutes(StableSort(s[..|s| - 1]), s[|s| - 1]);
      InsertStableSorts(StableSort(s[..|s| - 1]), s[|s| - 1]);
      assert s == s[..|s| - 1] + [s[|s| - 1]];
    }
  }

  lemma {:induction false} InsertStableKeepsTies<T>(s: seq<Entry<T>>, x: Entry<T>, e: nat)
    ensures Select(InsertStable(s, x), Exactly(e)) == Select(s + [x], Exactly(e))
  {
    SelectSnoc(s, x, Exactly(e));
    if s != [] && x.expire < s[|s| - 1].expire {
      var rest, last := s[..|s| - 1], s[|s| - 1];
      InsertStableKeepsTies(rest, x, e);
      SelectSnoc(rest, x, Exactly(e));
      SelectSnoc(InsertStable(rest, x), last, Exactly(e));
    }
  }

  /** Sorting does not reorder entries that share a deadline. */
  lemma {:induction false} StableSortKeepsTies<T>(s: seq<Entry<T>>, e: nat)
    ensures Select(StableSort(s), Exactly(e)) == Select(s, Exactly(e))
  {
    if s != [] {
      var rest, last := s[..|s| - 1], s[|s| - 1];
      StableSortKeepsTies(rest, e);
      InsertStableKeepsTies(StableSort(rest), last, e);
      SelectSnoc(StableSort(rest), last, Exactly(e));
    }
  }

  lemma LastIsMax<T>(a: seq<Entry<T>>, b: seq<Entry<T>>)
    requires a != [] && SortedByExpire(b)
    requires forall e: nat :: Select(a, Exactly(e)) == Select(b, Exactly(e))
    ensures b != [] && a[|a| - 1].expire <= b[|b| - 1].expire
  {
    var x := a[|a| - 1];
    SelectIn(a, Exactly(x.expire));
    SelectIn(b, Exactly(x.expire));
    assert x in Select(b, Exactly(x.expire));
  }

  /** Sortedness and the order within each deadline together determine the whole order, so
      `StableSort` is the only function with the two properties above. */
  lemma {:induction false} StableOrderUnique<T>(a: seq<Entry<T>>, b: seq<Entry<T>>)
    requires SortedByExpire(a) && SortedByExpire(b)
    requires forall e: nat :: Select(a, Exactly(e)) == Select(b, Exactly(e))
    ensures a == b
  {
    if a == [] {
      if b != [] { LastIsMax(b, a); }
    } else {
      LastIsMax(a, b);
      LastIsMax(b, a);
      var a', b', x, y := a[..|a| - 1], b[..|b| - 1], a[|a| - 1], b[|b| - 1];
      var tie := Select(a, Exactly(x.expire));
      assert tie == Select(a', Exactly(x.expire)) + [x];
      assert tie == Select(b', Exactly(x.expire)) + [y];
      forall e: nat ensures Select(a', Exactly(e)) == Select(b', Exactly(e)) {
        assert Select(a, Exactly(e)) == Select(b, Exactly(e));
        if e == x.expire {
          assert Select(a', Exactly(e)) == tie[..|tie| - 1] == Select(b', Exactly(e));
        } else {
          assert Select(a, Exactly(e)) == Select(a', Exactly(e));
          assert Select(b, Exactly(e)) == Select(b', Exactly(e));
        }
      }
      StableOrderUnique(a', b');
      assert x == tie[|tie| - 1] == y;
      assert a == a' + [x] && b == b' + [y];
    }
  }
}
