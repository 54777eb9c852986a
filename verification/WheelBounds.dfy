/**
When the index arithmetic of the timer wheel is defined.  `start_idx` is a `long long` that is reduced
by C's `%` at each use: a sum that leaves the range of `long long`, and a negative remainder used as an
index, are outside the language.  The wheel of `TimerWheel` computes on; the heap wheel of `EpollTimer`
asks for the conditions stated here and for nothing else.  On every sane history they hold.
 */
module WheelBounds {
  import opened CInt
  import opened TimerSpec
  import opened TimerWheel

  /** `(timer->start_idx + k) % timer->size` as C computes it. */
  function RawIndex(startIdx: int, k: int, size: int): int
    requires 0 < size
  {
    Rem(startIdx + k, size)
  }

  /** The sum fits and the remainder is an index. */
  predicate IndexDefined(startIdx: int, k: int, size: int)
    requires 0 < size
  {
    FitsLong(startIdx + k) && 0 <= RawIndex(startIdx, k, size)
  }

  /** Where the index is defined the code's bucket is the model's. */
  lemma RawIndexIsBucket(startIdx: int, k: int, size: int)
    requires 0 < size && IndexDefined(startIdx, k, size)
    ensures RawIndex(startIdx, k, size) == BucketIndex(startIdx, k, size)
  {
    RemIsModIff(startIdx + k, size);
  }

  ghost predicate ScanDefined(startIdx: int, cnt: int, size: int)
    requires 0 < size
  {
    forall i :: 0 <= i < cnt ==> IndexDefined(startIdx, i, size)
  }

  /** add_timeout, if it gets as far as a bucket, finds one. */
  predicate AddDefined<T>(w: Wheel<T>, expire: nat, now: nat)
    requires w.buckets != []
  {
    var w' := WheelStarted(w, now);
    WheelAddResult(w, expire, now) == 0 ==>
      IndexDefined(w'.startIdx, Int32(expire - w'.start), |w.buckets|)
  }

  /** takeAllTimeout, if it scans, scans buckets and can move `start_idx` on. */
  ghost predicate TickDefined<T>(w: Wheel<T>, now: nat)
    requires w.buckets != []
  {
    var w' := WheelStarted(w, now);
    var cnt := TickCount(w'.start, now, |w.buckets|);
    w'.start <= now && 0 <= cnt ==>
      ScanDefined(w'.startIdx, cnt, |w.buckets|) && FitsLong(w'.startIdx + cnt - 1)
  }

  // ---------------------------------------------------------------- exactly when

  /** With a start index that is not negative only the range of `long long` matters ... */
  lemma TickDefinedIff<T>(w: Wheel<T>, now: nat)
    requires w.buckets != [] && 0 <= w.startIdx
    ensures
      var w' := WheelStarted(w, now);
      var cnt := TickCount(w'.start, now, |w.buckets|);
      TickDefined(w, now) <==> (w'.start <= now && 0 <= cnt ==> w'.startIdx + cnt - 1 < TWO_63)
  {
  }

  /** ... and an addition in range is defined exactly while the sum fits. */
  lemma AddDefinedIff<T>(w: Wheel<T>, expire: nat, now: nat)
    requires 0 < |w.buckets| < TWO_31 && 0 <= w.startIdx && AddInRange(w.start, expire, now, |w.buckets|)
    ensures
      var w' := WheelStarted(w, now);
      AddDefined(w, expire, now) <==>
        (WheelAddResult(w, expire, now) == 0 ==> w'.startIdx + (expire - w'.start) < TWO_63)
  {
    AddVerdictIff(w, Timers([], w.start), expire, now);
  }

  /** A tick makes the start index negative exactly when it is 0 and the number of elapsed milliseconds
      is 0 as an `int`: the loop then scans nothing and steps back one bucket. */
  lemma IndexTurnsNegativeIff<T>(w: Wheel<T>, now: nat)
    requires w.buckets != [] && 0 <= w.startIdx
    ensures WheelTick(w, now).startIdx < 0 <==>
            0 < w.start <= now && w.startIdx == 0 && Int32(now - w.start + 1) == 0
  {
  }

  /** From then on a node due at once, and every tick that scans, is filed or looked for before the
      first bucket. */
  lemma NegativeIndexIsOut<T>(w: Wheel<T>, now: nat, later: nat)
    requires 1 < |w.buckets| < TWO_31 && 0 < w.start <= now && w.startIdx == 0
    requires Int32(now - w.start + 1) == 0 && now <= later && 0 < TickCount(now, later, |w.buckets|)
    ensures !AddDefined(WheelTick(w, now), now, now)
    ensures !TickDefined(WheelTick(w, now), later)
  {
    var w' := WheelTick(w, now);
    assert RawIndex(-1, 0, |w.buckets|) == -1;
    assert !IndexDefined(w'.startIdx, 0, |w.buckets|);
  }

  // ---------------------------------------------------------------- whole histories

  ghost predicate OpDefined<T>(w: Wheel<T>, op: Op<T>)
    requires w.buckets != []
  {
    match op
    case AddOp(x, now) => AddDefined(w, x.expire, now)
    case RemoveOp(_) => true
    case TickOp(now) => TickDefined(w, now)
  }

  ghost predicate HistoryDefined<T>(w: Wheel<T>, ops: seq<Op<T>>)
    requires w.buckets != []
    decreases |ops|
  {
    ops != [] ==> OpDefined(w, ops[0]) && HistoryDefined(WheelStep(w, ops[0]).0, ops[1..])
  }

  /** `start_idx` has advanced by no more than the clock has since `born`. */
  ghost predicate Counted<T>(w: Wheel<T>, born: nat) {
    0 < |w.buckets| < TWO_31 && 0 <= w.startIdx <= w.start - born
  }

  lemma EmptyIsCounted<T>(size: nat, start: nat)
    requires 0 < size < TWO_31
    ensures Counted(EmptyWheel<T>(size, start), start)
  {
  }

  lemma StartedIsCounted<T>(w: Wheel<T>, born: nat, now: nat)
    requires Counted(w, born)
    ensures Counted(WheelStarted(w, now), born)
  {
  }

  /** A tick in range moves the index forward, and by no more than the clock moves. */
  lemma TickIsCounted<T>(w: Wheel<T>, born: nat, now: nat)
    requires Counted(w, born) && TickInRange(w.start, now, |w.buckets|)
    ensures Counted(WheelTick(w, now), born)
    ensures now - born < TWO_63 ==> TickDefined(w, now)
  {
    TickDefinedIff(w, now);
  }

  lemma AddIsCounted<T>(w: Wheel<T>, born: nat, x: Entry<T>, now: nat)
    requires Counted(w, born)
    ensures Counted(WheelAdd(w, x, now), born)
  {
  }

  lemma AddIsDefined<T>(w: Wheel<T>, born: nat, expire: nat, now: nat)
    requires Counted(w, born) && AddInRange(w.start, expire, now, |w.buckets|) && expire - born < TWO_63
    ensures AddDefined(w, expire, now)
  {
    AddDefinedIff(w, expire, now);
  }

  /** The times that the operation is about lie less than 2^63 milliseconds after `born`. */
  predicate Soon<T>(born: nat, op: Op<T>) {
    match op
    case AddOp(x, now) => x.expire - born < TWO_63
    case RemoveOp(_) => true
    case TickOp(now) => now - born < TWO_63
  }

  lemma StepIsDefined<T>(w: Wheel<T>, t: Timers<T>, born: nat, op: Op<T>)
    requires Counted(w, born) && w.start == t.start && SaneClock(t, |w.buckets|, op) && Soon(born, op)
    ensures OpDefined(w, op) && Counted(WheelStep(w, op).0, born)
  {
    match op {
      case AddOp(x, now) =>
        AddIsDefined(w, born, x.expire, now);
        AddIsCounted(w, born, x, now);
      case RemoveOp(_) =>
      case TickOp(now) => TickIsCounted(w, born, now);
    }
  }

  /** Over any sane history within 2^63 milliseconds every index the code computes is defined. */
  lemma {:induction false} HistoryIsDefined<T>(w: Wheel<T>, t: Timers<T>, born: nat, ops: seq<Op<T>>)
    requires Refines(w, t) && Counted(w, born) && SaneHistory(t, |w.buckets|, ops)
    requires forall i :: 0 <= i < |ops| ==> Soon(born, ops[i])
    ensures HistoryDefined(w, ops) && Counted(WheelHistory(w, ops).1, born)
    decreases |ops|
  {
    if ops != [] {
      StepRefines(w, t, ops[0]);
      StepIsDefined(w, t, born, ops[0]);
      HistoryIsDefined(WheelStep(w, ops[0]).0, SpecStep(t, |w.buckets|, ops[0]).0, born, ops[1..]);
    }
  }
}
