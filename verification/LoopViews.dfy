/** The event loop's own state as a value, and what each part of an iteration does to it. */
module LoopViews {
  import opened TimerSpec
  import opened TimerWheel

  /** The wheel, the nodes of the two lists, and the clock of the loop. */
  datatype LoopView<T> = LoopView(wheel: Wheel<T>, active: seq<T>, timeouts: seq<T>, now: nat)

  function ItemsOf<T>(s: seq<Entry<T>>): (r: seq<T>)
    ensures |r| == |s| && forall i :: 0 <= i < |s| ==> r[i] == s[i].item
  {
    seq(|s|, i requires 0 <= i < |s| => s[i].item)
  }

  /** The first event of a poll: its node leaves the wheel and becomes active. */
  function AfterWake<T(==)>(v: LoopView<T>, x: T): LoopView<T> {
    v.(wheel := WheelRemove(v.wheel, x), active := v.active + [x])
  }

  /** The clock is read and what is due is taken. */
  function AfterTake<T>(v: LoopView<T>, clock: nat): LoopView<T>
    requires v.wheel.buckets != []
  {
    v.(wheel := WheelTick(v.wheel, clock),
       timeouts := v.timeouts + ItemsOf(WheelTickOut(v.wheel, clock)),
       now := clock)
  }

  /** What was taken is appended to what events have made active. */
  function AfterJoin<T>(v: LoopView<T>): LoopView<T> {
    v.(active := v.active + v.timeouts, timeouts := [])
  }

  /** A poll parks: its node is added to the wheel. */
  function AfterPark<T>(v: LoopView<T>, x: Entry<T>, clock: nat): LoopView<T>
    requires v.wheel.buckets != []
  {
    v.(wheel := WheelAdd(v.wheel, x, clock))
  }
}
