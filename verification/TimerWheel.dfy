/**
The timer wheel of src/epoll.c on values: a ring of buckets, one per millisecond, that is scanned
forward from the bucket of the last tick.  The wheel refines the plain collection of `TimerSpec`;
the heap-level wheel in `EpollTimer` is proved equal to the functions here.
 */
module TimerWheel {
  import opened CInt
  import opened TimerSpec

  /** `startIdx` grows for ever and is reduced modulo the ring size at each use. */
  datatype Wheel<T> = Wheel(buckets: seq<seq<Entry<T>>>, start: nat, startIdx: int)

  /** The index of the bucket `k` milliseconds after the last tick.  `Mod` is the code's `%`
      wherever that is an index at all (`CInt.RemIsModIff`). */
  function BucketIndex(startIdx: int, k: int, size: int): int
    requires 0 < size
  {
    Mod(startIdx + k, size)
  }

  function BucketAt<T>(w: Wheel<T>, k: int): seq<Entry<T>>
    requires w.buckets != []
  {
    w.buckets[BucketIndex(w.startIdx, k, |w.buckets|)]
  }

  function WheelStarted<T>(w: Wheel<T>, now: nat): Wheel<T> {
    if w.start == 0 then w.(start := now, startIdx := 0) else w
  }

  // ---------------------------------------------------------------- add_timeout

  /** 0 on success, -1 when refused.  The distance is an `int`, so it is truncated. */
  function WheelAddResult<T>(w: Wheel<T>, expire: nat, now: nat): int {
    var w' := WheelStarted(w, now);
    if now < w'.start then -1
    else if expire < now then -1
    else if Int32(expire - w'.start) >= |w'.buckets| then -1
    else 0
  }

  function WheelAdd<T>(w: Wheel<T>, x: Entry<T>, now: nat): Wheel<T>
    requires w.buckets != []
  {
    var w' := WheelStarted(w, now);
    if WheelAddResult(w, x.expire, now) != 0 then w' else
      var idx := BucketIndex(w'.startIdx, Int32(x.expire - w'.start), |w'.buckets|);
      w'.(buckets := w'.buckets[idx := w'.buckets[idx] + [x]])
  }

  /** The unfolded definition, for an addition that passes the tests of the clock. */
  lemma AddUnfolds<T>(w: Wheel<T>, x: Entry<T>, now: nat, d: int)
    requires w.buckets != [] && WheelStarted(w, now).start <= now <= x.expire
    requires d == Int32(x.expire - WheelStarted(w, now).start)
    ensures
      var w' := WheelStarted(w, now);
      var idx := BucketIndex(w'.startIdx, d, |w'.buckets|);
      && WheelAddResult(w, x.expire, now) == (if d < |w.buckets| then 0 else -1)
      && WheelAdd(w, x, now) ==
         (if d < |w.buckets| then w'.(buckets := w'.buckets[idx := w'.buckets[idx] + [x]]) else w')
  {
  }

  // ---------------------------------------------------------------- takeAllTimeout

  /** How many buckets a tick scans: the truncated number of elapsed milliseconds plus one, so that
      the bucket of the last tick is scanned again, and at most one lap. */
  function TickCount(start: nat, now: nat, size: nat): int {
    var cnt := Int32(now - start + 1);
    if cnt > size then size else cnt
  }

  /** The ring unrolled: one lap of buckets, from the bucket of the last tick. */
  function Ring<T>(w: Wheel<T>): (r: seq<seq<Entry<T>>>)
    requires w.buckets != []
    ensures |r| == |w.buckets|
  {
    seq(|w.buckets|, k => BucketAt(w, k))
  }

  /** The first n buckets, end to end. */
  function Flatten<T>(b: seq<seq<Entry<T>>>, n: nat): seq<Entry<T>>
    requires n <= |b|
  {
    if n == 0 then [] else Flatten(b, n - 1) + b[n - 1]
  }

  function Taken<T>(w: Wheel<T>, n: nat): seq<Entry<T>>
    requires 0 < |w.buckets| && n <= |w.buckets|
  {
    Flatten(Ring(w), n)
  }

  function Emptied<T>(w: Wheel<T>, n: nat): (b: seq<seq<Entry<T>>>)
    requires w.buckets != []
    ensures |b| == |w.buckets|
  {
    if n == 0 then w.buckets
    else Emptied(w, n - 1)[BucketIndex(w.startIdx, n - 1, |w.buckets|) := []]
  }

  function WheelTickOut<T>(w: Wheel<T>, now: nat): seq<Entry<T>>
    requires w.buckets != []
  {
    var w' := WheelStarted(w, now);
    var cnt := TickCount(w'.start, now, |w.buckets|);
    if now < w'.start || cnt < 0 then [] else Taken(w', cnt)
  }

  function WheelTick<T>(w: Wheel<T>, now: nat): Wheel<T>
    requires w.buckets != []
  {
    var w' := WheelStarted(w, now);
    var cnt := TickCount(w'.start, now, |w.buckets|);
    if now < w'.start || cnt < 0 then w'
    else Wheel(Emptied(w', cnt), now, w'.startIdx + cnt - 1)
  }

  /** The unfolded definition, for a tick that is neither early nor out of range. */
  lemma TickUnfolds<T>(w: Wheel<T>, now: nat, cnt: nat)
    requires w.buckets != [] && WheelStarted(w, now).start <= now
    requires TickCount(WheelStarted(w, now).start, now, |w.buckets|) == cnt
    ensures
      var w' := WheelStarted(w, now);
      && cnt <= |w.buckets|
      && WheelTick(w, now) == Wheel(Emptied(w', cnt), now, w'.startIdx + cnt - 1)
      && WheelTickOut(w, now) == Taken(w', cnt)
  {
  }

  // ---------------------------------------------------------------- remove_from_link on a wheel node

  function WheelRemove<T(==)>(w: Wheel<T>, item: T): Wheel<T> {
    w.(buckets := seq(|w.buckets|, i requires 0 <= i < |w.buckets| => Select(w.buckets[i], Except(item))))
  }

  // ---------------------------------------------------------------- refinement

  ghost predicate Files<T>(w: Wheel<T>, t: Timers<T>, k: nat)
    requires w.buckets != []
  {
    BucketAt(w, k) == Select(t.entries, Exactly(t.start + k))
  }

  /** A node with deadline e sits in bucket `(startIdx + e - start) mod size`, in insertion order,
      and in no other bucket. */
  ghost predicate Refines<T>(w: Wheel<T>, t: Timers<T>) {
    && 0 < |w.buckets| < TWO_31
    && 0 <= w.startIdx
    && w.start == t.start
    && Within(t, |w.buckets|)
    && forall k :: 0 <= k < |w.buckets| ==> Files(w, t, k)
  }

  ghost predicate Filed<T>(w: Wheel<T>, x: Entry<T>) {
    exists i :: 0 <= i < |w.buckets| && x in w.buckets[i]
  }

  /** The `int` distance of add_timeout decides as the true distance does. */
  predicate AddInRange(start: nat, expire: nat, now: nat, size: nat) {
    var start := if start == 0 then now else start;
    now < start || expire < now || expire - start < TWO_31 || size <= Int32(expire - start)
  }

  /** An addition the wheel gets right: the distance is in range, and it is not an accepted addition to
      a wheel that takes its own start, a clock reading of 0, for "not started". */
  predicate AddSafe(start: nat, expire: nat, now: nat, size: nat) {
    AddInRange(start, expire, now, size) && !(start == 0 && now == 0 && expire < size)
  }

  /** The `int` count of takeAllTimeout scans as many buckets as the true count does. */
  predicate TickInRange(start: nat, now: nat, size: nat) {
    start == 0 || now < start || now - start + 1 < TWO_31 || size <= Int32(now - start + 1)
  }

  lemma BucketsDistinct(startIdx: int, j: nat, k: nat, size: nat)
    requires j < size && k < size && j != k
    ensures BucketIndex(startIdx, j, size) != BucketIndex(startIdx, k, size)
  {
    ModAhead(startIdx, j, size);
    ModAhead(startIdx, k, size);
  }

  /** A second lap over the ring meets the same buckets. */
  lemma BucketLap(startIdx: nat, k: nat, size: nat)
    requires 0 < size <= k
    ensures BucketIndex(startIdx, k, size) == BucketIndex(startIdx, k - size, size)
  {
  }

  function EmptyWheel<T>(size: nat, start: nat): Wheel<T> {
    Wheel(seq(size, _ => []), start, 0)
  }

  lemma EmptyRefines<T>(size: nat, start: nat)
    requires 0 < size < TWO_31
    ensures Refines(EmptyWheel<T>(size, start), Timers([], start))
  {
  }

  lemma StartedRefines<T>(w: Wheel<T>, t: Timers<T>, now: nat)
    requires Refines(w, t)
    ensures Refines(WheelStarted(w, now), Started(t, now))
  {
    if t.start == 0 {
      var size := |w.buckets|;
      forall i | 0 <= i < size ensures w.buckets[i] == [] {
        var r := Mod(w.startIdx, size);
        var k := if r <= i then i - r else i + size - r;
        ModAhead(w.startIdx, k, size);
        assert Files(w, t, k);
      }
    }
  }

  lemma AddFiles<T>(w: Wheel<T>, t: Timers<T>, x: Entry<T>, d: nat, k: nat)
    requires Refines(w, t) && k < |w.buckets| && d < |w.buckets| && x.expire == w.start + d
    ensures
      var idx := BucketIndex(w.startIdx, d, |w.buckets|);
      Files(w.(buckets := w.buckets[idx := w.buckets[idx] + [x]]), t.(entries := t.entries + [x]), k)
  {
    assert Files(w, t, k);
    SelectSnoc(t.entries, x, Exactly(t.start + k));
    if k != d { BucketsDistinct(w.startIdx, d, k, |w.buckets|); }
  }

  lemma AddAccepted<T>(w: Wheel<T>, t: Timers<T>, x: Entry<T>, d: nat)
    requires Refines(w, t) && 0 < w.start && d < |w.buckets| && x.expire == w.start + d
    ensures
      var idx := BucketIndex(w.startIdx, d, |w.buckets|);
      Refines(w.(buckets := w.buckets[idx := w.buckets[idx] + [x]]), t.(entries := t.entries + [x]))
  {
    var idx := BucketIndex(w.startIdx, d, |w.buckets|);
    var w', t' := w.(buckets := w.buckets[idx := w.buckets[idx] + [x]]), t.(entries := t.entries + [x]);
    forall k | 0 <= k < |w.buckets| ensures Files(w', t', k) {
      AddFiles(w, t, x, d, k);
    }
  }

  /** The `int` distance gives the right verdict exactly when it is in range: outside, the wheel
      accepts a node that lies a lap or more ahead. */
  lemma AddVerdictIff<T>(w: Wheel<T>, t: Timers<T>, expire: nat, now: nat)
    requires w.start == t.start && |w.buckets| < TWO_31
    ensures AddInRange(w.start, expire, now, |w.buckets|) <==>
            WheelAddResult(w, expire, now) == (if Accepts(t, |w.buckets|, expire, now) then 0 else -1)
    ensures AddInRange(w.start, expire, now, |w.buckets|) && WheelAddResult(w, expire, now) == 0 ==>
              var d := expire - WheelStarted(w, now).start; Int32(d) == d
  {
  }

  /** Adding to the wheel is adding to the collection, with the same verdict. */
  lemma AddRefines<T>(w: Wheel<T>, t: Timers<T>, x: Entry<T>, now: nat)
    requires Refines(w, t) && AddSafe(w.start, x.expire, now, |w.buckets|)
    ensures WheelAddResult(w, x.expire, now) == (if Accepts(t, |w.buckets|, x.expire, now) then 0 else -1)
    ensures Refines(WheelAdd(w, x, now), Add(t, |w.buckets|, x, now))
  {
    StartedRefines(w, t, now);
    AddVerdictIff(w, t, x.expire, now);
    if WheelAddResult(w, x.expire, now) == 0 {
      var w0 := WheelStarted(w, now);
      AddAccepted(w0, Started(t, now), x, x.expire - w0.start);
    }
  }

  /** What it means for one addition to the wheel to be an addition to the collection. */
  ghost predicate AddMatches<T>(w: Wheel<T>, t: Timers<T>, x: Entry<T>, now: nat)
    requires w.buckets != []
  {
    && WheelAddResult(w, x.expire, now) == (if Accepts(t, |w.buckets|, x.expire, now) then 0 else -1)
    && Refines(WheelAdd(w, x, now), Add(t, |w.buckets|, x, now))
  }

  /** Exactly the safe additions are right, whatever the wheel holds. */
  lemma AddExactIff<T>(w: Wheel<T>, t: Timers<T>, x: Entry<T>, now: nat)
    requires Refines(w, t)
    ensures AddMatches(w, t, x, now) <==> AddSafe(w.start, x.expire, now, |w.buckets|)
  {
    if AddSafe(w.start, x.expire, now, |w.buckets|) {
      AddRefines(w, t, x, now);
    } else {
      AddVerdictIff(w, t, x.expire, now);
    }
  }

  lemma RemoveRefines<T>(w: Wheel<T>, t: Timers<T>, item: T)
    requires Refines(w, t)
    ensures Refines(WheelRemove(w, item), Remove(t, item))
  {
    var w', t' := WheelRemove(w, item), Remove(t, item);
    RemoveWithin(t, |w.buckets|, item);
    forall k | 0 <= k < |w.buckets| ensures Files(w', t', k) {
      assert Files(w, t, k);
      SelectCommute(t.entries, Exactly(t.start + k), Except(item));
    }
  }

  // ---------------------------------------------------------------- ticks

  lemma {:induction false} EmptiedAt<T>(w: Wheel<T>, n: nat, k: nat)
    requires n <= |w.buckets| && k < |w.buckets|
    ensures Emptied(w, n)[BucketIndex(w.startIdx, k, |w.buckets|)] == if k < n then [] else BucketAt(w, k)
  {
    if n != 0 {
      EmptiedAt(w, n - 1, k);
      if k != n - 1 { BucketsDistinct(w.startIdx, k, n - 1, |w.buckets|); }
    }
  }

  /** One iteration of the scan. */
  lemma ScanStep<T>(w: Wheel<T>, n: nat)
    requires n < |w.buckets|
    ensures
      var idx := BucketIndex(w.startIdx, n, |w.buckets|);
      && 0 <= idx < |w.buckets|
      && Emptied(w, n + 1) == Emptied(w, n)[idx := []]
      && Taken(w, n + 1) == Taken(w, n) + Emptied(w, n)[idx]
  {
    EmptiedAt(w, n, n);
  }

  lemma {:induction false} SelectTie<T>(s: seq<Entry<T>>, e: nat, f: nat)
    ensures e == f ==> Select(Select(s, Exactly(e)), Exactly(f)) == Select(s, Exactly(e))
    ensures e != f ==> Select(Select(s, Exactly(e)), Exactly(f)) == []
  {
    SelectIn(s, Exactly(e));
    if e == f {
      SelectAll(Select(s, Exactly(e)), Exactly(e));
    } else {
      SelectNone(Select(s, Exactly(e)), Exactly(f));
    }
  }

  /** Consecutive deadlines, one bucket each. */
  ghost predicate OnePerBucket<T>(b: seq<seq<Entry<T>>>, s: seq<Entry<T>>, first: nat) {
    forall k :: 0 <= k < |b| ==> b[k] == Select(s, Exactly(first + k))
  }

  lemma SortedAppend<T>(a: seq<Entry<T>>, tie: seq<Entry<T>>, e: nat)
    requires SortedByExpire(a) && forall i :: 0 <= i < |a| ==> a[i].expire < e
    requires forall i :: 0 <= i < |tie| ==> tie[i].expire == e
    ensures SortedByExpire(a + tie)
    ensures forall i :: 0 <= i < |a + tie| ==> (a + tie)[i].expire < e + 1
  {
  }

  /** What a scan picks up: sorted by deadline ... */
  lemma {:induction false} FlattenSorted<T>(b: seq<seq<Entry<T>>>, s: seq<Entry<T>>, first: nat, n: nat)
    requires OnePerBucket(b, s, first) && n <= |b|
    ensures SortedByExpire(Flatten(b, n))
    ensures forall i :: 0 <= i < |Flatten(b, n)| ==> Flatten(b, n)[i].expire < first + n
  {
    if n != 0 {
      var e := first + n - 1;
      FlattenSorted(b, s, first, n - 1);
      SelectIn(s, Exactly(e));
      SortedAppend(Flatten(b, n - 1), Select(s, Exactly(e)), e);
    }
  }

  /** One more bucket adds one more deadline. */
  lemma TieOfOneMore<T>(s: seq<Entry<T>>, older: seq<Entry<T>>, newest: nat, e: nat)
    requires e == newest ==> Select(older, Exactly(e)) == []
    ensures e == newest ==> Select(older + Select(s, Exactly(newest)), Exactly(e)) == Select(s, Exactly(e))
    ensures e != newest ==> Select(older + Select(s, Exactly(newest)), Exactly(e)) == Select(older, Exactly(e))
  {
    SelectAppend(older, Select(s, Exactly(newest)), Exactly(e));
    SelectTie(s, newest, e);
  }

  /** ... and for each deadline in reach exactly the collection's entries, in their order. */
  lemma {:induction false} FlattenTies<T>(b: seq<seq<Entry<T>>>, s: seq<Entry<T>>, first: nat, n: nat, e: nat)
    requires OnePerBucket(b, s, first) && n <= |b|
    ensures first <= e < first + n ==> Select(Flatten(b, n), Exactly(e)) == Select(s, Exactly(e))
    ensures !(first <= e < first + n) ==> Select(Flatten(b, n), Exactly(e)) == []
  {
    if n != 0 {
      FlattenTies(b, s, first, n - 1, e);
      assert Flatten(b, n) == Flatten(b, n - 1) + Select(s, Exactly(first + n - 1));
      TieOfOneMore(s, Flatten(b, n - 1), first + n - 1, e);
    }
  }

  lemma RingIsOrdered<T>(w: Wheel<T>, t: Timers<T>)
    requires Refines(w, t)
    ensures OnePerBucket(Ring(w), t.entries, t.start)
  {
    forall k | 0 <= k < |w.buckets| ensures Ring(w)[k] == Select(t.entries, Exactly(t.start + k)) {
      assert Files(w, t, k);
    }
  }

  /** Selecting one deadline from the due (or the remaining) entries. */
  lemma TieOfDue<T>(s: seq<Entry<T>>, now: nat, e: nat)
    ensures e <= now ==> Select(Select(s, AtMost(now)), Exactly(e)) == Select(s, Exactly(e))
    ensures e <= now ==> Select(Select(s, Beyond(now)), Exactly(e)) == []
    ensures now < e ==> Select(Select(s, Beyond(now)), Exactly(e)) == Select(s, Exactly(e))
    ensures now < e ==> Select(Select(s, AtMost(now)), Exactly(e)) == []
  {
    SelectCommute(s, AtMost(now), Exactly(e));
    SelectCommute(s, Beyond(now), Exactly(e));
    SelectIn(s, Exactly(e));
    if e <= now {
      SelectAll(Select(s, Exactly(e)), AtMost(now));
      SelectNone(Select(s, Exactly(e)), Beyond(now));
    } else {
      SelectAll(Select(s, Exactly(e)), Beyond(now));
      SelectNone(Select(s, Exactly(e)), AtMost(now));
    }
  }

  lemma NoTie<T>(t: Timers<T>, size: nat, e: nat)
    requires Within(t, size) && !(t.start <= e < t.start + size)
    ensures Select(t.entries, Exactly(e)) == []
  {
    SelectNone(t.entries, Exactly(e));
  }

  /** A scan of the right number of buckets yields the due entries in stable deadline order. */
  lemma FlattenIsDue<T>(b: seq<seq<Entry<T>>>, t: Timers<T>, now: nat, n: nat)
    requires OnePerBucket(b, t.entries, t.start) && Within(t, |b|) && t.start <= now
    requires n == if now - t.start + 1 > |b| then |b| else now - t.start + 1
    ensures Flatten(b, n) == StableSort(Select(t.entries, AtMost(now)))
  {
    var due := Select(t.entries, AtMost(now));
    FlattenSorted(b, t.entries, t.start, n);
    StableSortSorts(due);
    forall e: nat ensures Select(Flatten(b, n), Exactly(e)) == Select(StableSort(due), Exactly(e)) {
      FlattenTies(b, t.entries, t.start, n, e);
      StableSortKeepsTies(due, e);
      TieOfDue(t.entries, now, e);
      if !(t.start <= e < t.start + |b|) { NoTie(t, |b|, e); }
    }
    StableOrderUnique(Flatten(b, n), StableSort(due));
  }

  lemma TakenIsDue<T>(w: Wheel<T>, t: Timers<T>, now: nat, cnt: nat)
    requires Refines(w, t) && t.start <= now
    requires cnt == if now - t.start + 1 > |w.buckets| then |w.buckets| else now - t.start + 1
    ensures Taken(w, cnt) == StableSort(Select(t.entries, AtMost(now)))
  {
    RingIsOrdered(w, t);
    FlattenIsDue(Ring(w), t, now, cnt);
  }

  /** The ring after a scan of cnt buckets, read from its new start: the rest of the lap, and then
      the buckets just emptied. */
  lemma EmptiedRing<T>(w: Wheel<T>, now: nat, cnt: nat, k: nat)
    requires 0 <= w.startIdx && 0 < cnt <= |w.buckets| && k < |w.buckets|
    ensures BucketAt(Wheel(Emptied(w, cnt), now, w.startIdx + cnt - 1), k) ==
            if 0 < k && cnt - 1 + k < |w.buckets| then BucketAt(w, cnt - 1 + k) else []
  {
    var size, j := |w.buckets|, cnt - 1 + k;
    assert w.startIdx + j == w.startIdx + cnt - 1 + k;
    if j < size {
      EmptiedAt(w, cnt, j);
    } else {
      BucketLap(w.startIdx, j, size);
      EmptiedAt(w, cnt, j - size);
    }
  }

  /** The entries of one deadline after a tick, one lap at most ahead of it. */
  lemma TieAfterTick<T>(t: Timers<T>, size: nat, now: nat, k: nat)
    requires Within(t, size) && t.start <= now
    ensures 0 < k && now + k < t.start + size ==>
              Select(Select(t.entries, Beyond(now)), Exactly(now + k)) == Select(t.entries, Exactly(now + k))
    ensures !(0 < k && now + k < t.start + size) ==>
              Select(Select(t.entries, Beyond(now)), Exactly(now + k)) == []
  {
    var e := now + k;
    TieOfDue(t.entries, now, e);
    if t.start + size <= e {
      NoTie(t, size, e);
    }
  }

  lemma EmptiedFiles<T>(w: Wheel<T>, t: Timers<T>, now: nat, cnt: nat, k: nat)
    requires Refines(w, t) && t.start <= now && k < |w.buckets|
    requires cnt == if now - t.start + 1 > |w.buckets| then |w.buckets| else now - t.start + 1
    ensures BucketAt(Wheel(Emptied(w, cnt), now, w.startIdx + cnt - 1), k) ==
            Select(Select(t.entries, Beyond(now)), Exactly(now + k))
  {
    EmptiedRing(w, now, cnt, k);
    TieAfterTick(t, |w.buckets|, now, k);
    if 0 < k && now + k < t.start + |w.buckets| {
      assert cnt - 1 + k == now + k - t.start;
      assert Files(w, t, now + k - t.start);
    }
  }

  /** After such a scan the ring, read from its new start, holds exactly the remaining entries. */
  lemma EmptiedRefines<T>(w: Wheel<T>, t: Timers<T>, now: nat, cnt: nat)
    requires Refines(w, t) && t.start <= now
    requires cnt == if now - t.start + 1 > |w.buckets| then |w.buckets| else now - t.start + 1
    ensures Refines(Wheel(Emptied(w, cnt), now, w.startIdx + cnt - 1), Timers(Select(t.entries, Beyond(now)), now))
  {
    TickWithin(t, |w.buckets|, now);
    var w', t' := Wheel(Emptied(w, cnt), now, w.startIdx + cnt - 1), Timers(Select(t.entries, Beyond(now)), now);
    forall k | 0 <= k < |w.buckets| ensures Files(w', t', k) {
      EmptiedFiles(w, t, now, cnt, k);
    }
  }

  /** What it means for one tick of the wheel to be a tick of the collection. */
  ghost predicate TickMatches<T>(w: Wheel<T>, t: Timers<T>, now: nat)
    requires w.buckets != []
  {
    WheelTickOut(w, now) == TickOut(t, now) && Refines(WheelTick(w, now), Tick(t, now))
  }

  /** A tick removes exactly the nodes that are due and returns them sorted and stable, for gaps
      shorter and longer than the ring, for a clock that has run backwards and for one that reads 0. */
  lemma TickRefines<T>(w: Wheel<T>, t: Timers<T>, now: nat)
    requires Refines(w, t)
    requires TickInRange(w.start, now, |w.buckets|)
    ensures TickMatches(w, t, now)
  {
    StartedRefines(w, t, now);
    var w0, t0 := WheelStarted(w, now), Started(t, now);
    if w0.start <= now {
      var cnt := TickCount(w0.start, now, |w.buckets|);
      TickUnfolds(w, now, cnt);
      TakenIsDue(w0, t0, now, cnt);
      EmptiedRefines(w0, t0, now, cnt);
      assert Tick(t, now) == Timers(Select(t0.entries, Beyond(now)), now);
    }
  }

  // ---------------------------------------------------------------- where the range condition is needed

  /** A wheel that holds one node, in bucket `pos`. */
  function OneNodeWheel<T>(x: Entry<T>, pos: nat, size: nat, start: nat): Wheel<T>
    requires pos < size
  {
    Wheel(seq(size, i => if i == pos then [x] else []), start, 0)
  }

  lemma OneNodeRefines<T>(x: Entry<T>, pos: nat, size: nat, start: nat)
    requires 0 < start && pos < size < TWO_31 && x.expire == start + pos
    ensures Refines(OneNodeWheel(x, pos, size, start), Timers([x], start))
  {
    var w := OneNodeWheel(x, pos, size, start);
    forall k | 0 <= k < size ensures Files(w, Timers([x], start), k) {
      ModAhead(0, k, size);
      SelectSnoc([], x, Exactly(start + k));
      assert [] + [x] == [x];
    }
  }

  lemma {:induction false} FlattenOne<T>(b: seq<seq<Entry<T>>>, pos: nat, n: nat)
    requires pos < |b| && n <= |b| && forall k :: 0 <= k < |b| && k != pos ==> b[k] == []
    ensures Flatten(b, n) == if n <= pos then [] else b[pos]
  {
    if n != 0 {
      FlattenOne(b, pos, n - 1);
    }
  }

  /** A scan meets the node exactly when it gets past its bucket. */
  lemma TakenOne<T>(x: Entry<T>, pos: nat, size: nat, start: nat, n: nat)
    requires pos < size && n <= size
    ensures Taken(OneNodeWheel(x, pos, size, start), n) == if n <= pos then [] else [x]
  {
    var b := Ring(OneNodeWheel(x, pos, size, start));
    forall k | 0 <= k < size ensures b[k] == if k == pos then [x] else [] {
      ModAhead(0, k, size);
    }
    FlattenOne(b, pos, n);
  }

  /** With a gap outside the range the tick leaves a long overdue node behind. */
  lemma TickOutOfRange(start: nat, now: nat, size: nat)
    requires 0 < start && 0 < size < TWO_31 && !TickInRange(start, now, size)
    ensures
      var x := Entry(7, start + size - 1);
      !TickMatches(OneNodeWheel(x, size - 1, size, start), Timers([x], start), now)
  {
    var x := Entry(7, start + size - 1);
    var w := OneNodeWheel(x, size - 1, size, start);
    var cnt := TickCount(start, now, size);
    if 0 <= cnt { TakenOne(x, size - 1, size, start, cnt); }
    assert WheelTickOut(w, now) == [];
    SelectAll([x], AtMost(now));
    StableSortSorts([x]);
    assert x in multiset(TickOut(Timers([x], start), now));
  }

  /** The `int` count is right for every content of the wheel exactly when the gap is in range. */
  lemma TickExactIff(start: nat, now: nat, size: nat)
    requires 0 < start && 0 < size < TWO_31
    ensures TickInRange(start, now, size) <==>
            forall w: Wheel<int>, t: Timers<int> ::
              Refines(w, t) && w.start == start && |w.buckets| == size ==> TickMatches(w, t, now)
  {
    if TickInRange(start, now, size) {
      forall w: Wheel<int>, t: Timers<int> | Refines(w, t) && w.start == start && |w.buckets| == size
        ensures TickMatches(w, t, now)
      {
        TickRefines(w, t, now);
      }
    } else {
      OneNodeRefines(Entry(7, start + size - 1), size - 1, size, start);
      TickOutOfRange(start, now, size);
    }
  }

  /** A reading of 0 is taken for "not started", so a node added at time 0 is filed relative to a start
      that the next tick forgets: it comes out as late as that tick was, and not at its deadline. */
  lemma ZeroClockMissesDeadline<T>(x: Entry<T>, size: nat, first: nat, now: nat)
    requires 0 < x.expire < size < TWO_31 && 0 < first <= now < TWO_31
    ensures
      var w := WheelAdd(EmptyWheel<T>(size, 0), x, 0);
      && WheelAddResult(EmptyWheel<T>(size, 0), x.expire, 0) == 0
      && WheelTickOut(w, first) == []
      && WheelTickOut(WheelTick(w, first), now) == if now < x.expire + first then [] else [x]
  {
    var pos := x.expire;
    var w0 := EmptyWheel<T>(size, 0);
    AddUnfolds(w0, x, 0, pos);
    ModAhead(0, pos, size);
    ModAhead(0, 0, size);
    var w := WheelAdd(w0, x, 0);
    assert w0.buckets[pos] + [x] == [x];
    assert w.buckets == OneNodeWheel(x, pos, size, first).buckets;
    TickUnfolds(w, first, 1);
    TakenOne(x, pos, size, first, 1);
    var w1 := WheelTick(w, first);
    assert w1.buckets == OneNodeWheel(x, pos, size, first).buckets;
    var cnt := TickCount(first, now, size);
    TickUnfolds(w1, now, cnt);
    TakenOne(x, pos, size, first, cnt);
  }

  /** A wheel not yet started takes its first reading as start and its first bucket for that time. */
  lemma FirstReadingStarts<T>(w: Wheel<T>, x: Entry<T>, now: nat)
    requires 0 < |w.buckets| < TWO_31 && w.start == 0
    ensures WheelTick(w, now).start == now && WheelTick(w, now).startIdx == 0
    ensures WheelAdd(w, x, now).start == now && WheelAdd(w, x, now).startIdx == 0
    ensures now <= x.expire < now + |w.buckets| ==>
              WheelAdd(w, x, now).buckets == w.buckets[x.expire - now := w.buckets[x.expire - now] + [x]]
  {
  }

  // ---------------------------------------------------------------- whole histories

  datatype Op<T> = AddOp(x: Entry<T>, now: nat) | RemoveOp(item: T) | TickOp(now: nat)

  datatype Seen<T> = Verdict(r: int) | Nothing | Due(out: seq<Entry<T>>)

  function WheelStep<T(==)>(w: Wheel<T>, op: Op<T>): (Wheel<T>, Seen<T>)
    requires w.buckets != []
  {
    match op
    case AddOp(x, now) => (WheelAdd(w, x, now), Verdict(WheelAddResult(w, x.expire, now)))
    case RemoveOp(item) => (WheelRemove(w, item), Nothing)
    case TickOp(now) => (WheelTick(w, now), Due(WheelTickOut(w, now)))
  }

  function SpecStep<T(==)>(t: Timers<T>, size: nat, op: Op<T>): (Timers<T>, Seen<T>) {
    match op
    case AddOp(x, now) => (Add(t, size, x, now), Verdict(if Accepts(t, size, x.expire, now) then 0 else -1))
    case RemoveOp(item) => (Remove(t, item), Nothing)
    case TickOp(now) => (Tick(t, now), Due(TickOut(t, now)))
  }

  /** No addition meets a wheel started at time 0, and the clock never jumps so far that an `int`
      distance misjudges it. */
  predicate SaneClock<T(==)>(t: Timers<T>, size: nat, op: Op<T>) {
    match op
    case AddOp(x, now) => AddSafe(t.start, x.expire, now, size)
    case RemoveOp(item) => true
    case TickOp(now) => TickInRange(t.start, now, size)
  }

  function WheelHistory<T(==)>(w: Wheel<T>, ops: seq<Op<T>>): (seq<Seen<T>>, Wheel<T>)
    requires w.buckets != []
    decreases |ops|
  {
    if ops == [] then ([], w) else
      var (w', seen) := WheelStep(w, ops[0]);
      var (rest, end) := WheelHistory(w', ops[1..]);
      ([seen] + rest, end)
  }

  function SpecHistory<T(==)>(t: Timers<T>, size: nat, ops: seq<Op<T>>): (seq<Seen<T>>, Timers<T>)
    decreases |ops|
  {
    if ops == [] then ([], t) else
      var (t', seen) := SpecStep(t, size, ops[0]);
      var (rest, end) := SpecHistory(t', size, ops[1..]);
      ([seen] + rest, end)
  }

  ghost predicate SaneHistory<T>(t: Timers<T>, size: nat, ops: seq<Op<T>>)
    decreases |ops|
  {
    ops != [] ==>
      SaneClock(t, size, ops[0]) && SaneHistory(SpecStep(t, size, ops[0]).0, size, ops[1..])
  }

  lemma StepRefines<T>(w: Wheel<T>, t: Timers<T>, op: Op<T>)
    requires Refines(w, t) && SaneClock(t, |w.buckets|, op)
    ensures WheelStep(w, op).1 == SpecStep(t, |w.buckets|, op).1
    ensures Refines(WheelStep(w, op).0, SpecStep(t, |w.buckets|, op).0)
    ensures |WheelStep(w, op).0.buckets| == |w.buckets|
  {
    match op {
      case AddOp(x, now) => AddRefines(w, t, x, now);
      case RemoveOp(item) => RemoveRefines(w, t, item);
      case TickOp(now) => TickRefines(w, t, now);
    }
  }

  /** Over any sequence of adds, removes and ticks the wheel is indistinguishable from the
      collection, and at the end it still files every node in the bucket of its deadline. */
  lemma {:induction false} HistoryRefines<T>(w: Wheel<T>, t: Timers<T>, ops: seq<Op<T>>)
    requires Refines(w, t) && SaneHistory(t, |w.buckets|, ops)
    ensures WheelHistory(w, ops).0 == SpecHistory(t, |w.buckets|, ops).0
    ensures Refines(WheelHistory(w, ops).1, SpecHistory(t, |w.buckets|, ops).1)
    decreases |ops|
  {
    if ops != [] {
      StepRefines(w, t, ops[0]);
      HistoryRefines(WheelStep(w, ops[0]).0, SpecStep(t, |w.buckets|, ops[0]).0, ops[1..]);
    }
  }
}
