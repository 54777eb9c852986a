/**
The timeout budget of a task (`fix_coroutine_timeout`, src/coroutine_impl.c).  A task may wait for at
most `max` milliseconds in all; each poll subtracts the loop time that has passed since the last one.
 */
module TaskBudget {
  import opened CInt

  const MAX_TIMEOUT_MS: int := 10

  /** `max` is -1 for a task without a limit.  `born` records the loop clock at creation; the code
      keeps no such field, it only appears in what is proved. */
  datatype Budget = Budget(max: int, left: int, last: nat, timedOut: bool, born: nat)

  datatype Fixed = Fixed(budget: Budget, timeout: int, expired: bool)

  function NewBudget(max: int, now: nat): Budget {
    Budget(max, max, now, false, now)
  }

  function Clamp(timeout: int): int {
    if timeout == -1 || timeout > MAX_TIMEOUT_MS then MAX_TIMEOUT_MS else timeout
  }

  /** One call of `fix_coroutine_timeout`; `int` arithmetic wraps. */
  function FixTimeout(b: Budget, now: nat, timeout: int): Fixed {
    if b.max == -1 then Fixed(b, Clamp(timeout), false)
    else if b.timedOut then Fixed(b, 0, true)
    else
      var left := Int32(b.left - Int32(now - b.last));
      var b' := b.(left := left, last := now);
      if left <= 0 then Fixed(b'.(timedOut := true), 0, true)
      else Fixed(b', Clamp(if timeout == -1 || timeout > left then left else timeout), false)
  }

  /** The time already charged is the loop time since creation, and the flag is never set early. */
  ghost predicate Telescoped(b: Budget) {
    b.max != -1 ==>
      && b.left + (b.last - b.born) == b.max
      && (b.timedOut ==> b.max <= b.last - b.born)
  }

  /** What is left of the budget by the loop clock is an `int`. */
  predicate InRange(b: Budget, now: nat) {
    -TWO_31 <= b.max - (now - b.born) < TWO_31
  }

  /** The charge of one poll is what an `int` makes of the true remainder, however long ago the last
      poll was. */
  lemma ChargeIsTruncated(b: Budget, now: nat, timeout: int)
    requires Telescoped(b) && b.max != -1 && !b.timedOut
    ensures FixTimeout(b, now, timeout).budget.left == Int32(b.max - (now - b.born))
  {
    Int32Sub(b.left, now - b.last);
  }

  /** The charge is exact if and only if the true remainder is an `int`. */
  lemma ChargeExactIff(b: Budget, now: nat, timeout: int)
    requires Telescoped(b) && b.max != -1 && !b.timedOut
    ensures FixTimeout(b, now, timeout).budget.left == b.max - (now - b.born) <==> InRange(b, now)
    ensures Telescoped(FixTimeout(b, now, timeout).budget) <==> InRange(b, now)
  {
    ChargeIsTruncated(b, now, timeout);
  }

  /** A poll expires exactly when the flag is already set or the loop time since creation has
      reached the budget; otherwise the wait fits the wheel and what is left of the budget. */
  lemma FixTimeoutExact(b: Budget, now: nat, timeout: int)
    requires Telescoped(b) && b.max != -1 && (b.timedOut || InRange(b, now))
    ensures
      var f := FixTimeout(b, now, timeout);
      && Telescoped(f.budget)
      && f.expired == f.budget.timedOut == (b.timedOut || b.max <= now - b.born)
      && (!f.expired ==> f.budget.left == b.max - (now - b.born))
      && (!f.expired && -1 <= timeout ==> 0 <= f.timeout <= f.budget.left)
  {
    if !b.timedOut { ChargeIsTruncated(b, now, timeout); }
  }

  /** A task started before the event loop is born at loop clock 0.  With a budget of 5 seconds its
      first poll in the loop, at two clock readings of 2023, either raises the budget to more than it
      was or ends it at once. */
  lemma EarlyTaskMischarged()
    ensures
      var raised := FixTimeout(NewBudget(5000, 0), 1_703_000_000_000, -1);
      !raised.expired && raised.budget.left > 5000
    ensures FixTimeout(NewBudget(5000, 0), 1_701_000_000_000, -1).expired
  {
  }

  function Min(a: int, b: int): int {
    if a < b then a else b
  }

  /** The task has a limit and has used it up, in what an `int` makes of the time since its last poll. */
  predicate Spent(b: Budget, now: nat) {
    b.max != -1 && (b.timedOut || Int32(b.left - (now - b.last)) <= 0)
  }

  /** What a poll gets, for every budget, clock and timeout.  It expires exactly when the budget is
      spent.  Otherwise a request below -1 is passed on; any other becomes the shortest of 10
      milliseconds, the request and what is left, where -1 stands for no limit in both. */
  lemma EffectiveWait(b: Budget, now: nat, timeout: int)
    ensures
      var f := FixTimeout(b, now, timeout);
      && (f.expired <==> Spent(b, now))
      && (f.expired ==> f.timeout == 0 && f.budget.timedOut)
      && (!f.expired && timeout < -1 ==> f.timeout == timeout)
      && (!f.expired && -1 <= timeout ==>
            var asked := if timeout == -1 then 10 else timeout;
            f.timeout == Min(10, Min(asked, if b.max == -1 then 10 else f.budget.left)) && 0 <= f.timeout)
      && (!f.expired ==> Clamp(f.timeout) == f.timeout)
  {
    Int32Sub(b.left, now - b.last);
  }

  /** A task without a limit never expires, and polling leaves its budget alone. */
  lemma UnlimitedNeverExpires(b: Budget, now: nat, timeout: int)
    requires b.max == -1
    ensures
      var f := FixTimeout(b, now, timeout);
      !f.expired && f.budget == b && f.timeout == if timeout == -1 || timeout > 10 then 10 else timeout
  {
  }

  // ---------------------------------------------------------------- any number of polls

  datatype Call = Call(now: nat, timeout: int)

  function AfterCalls(b: Budget, calls: seq<Call>): Budget {
    if calls == [] then b
    else FixTimeout(AfterCalls(b, calls[..|calls| - 1]), calls[|calls| - 1].now, calls[|calls| - 1].timeout).budget
  }

  /** Until the flag is set, every poll finds a remainder that is an `int`. */
  ghost predicate CallsInRange(b: Budget, calls: seq<Call>) {
    calls != [] ==>
      var b' := AfterCalls(b, calls[..|calls| - 1]);
      CallsInRange(b, calls[..|calls| - 1]) && (b'.timedOut || InRange(b', calls[|calls| - 1].now))
  }

  ghost predicate AlwaysTelescoped(b: Budget, calls: seq<Call>) {
    Telescoped(AfterCalls(b, calls)) && (calls != [] ==> AlwaysTelescoped(b, calls[..|calls| - 1]))
  }

  /** Over the whole life of a task: the charges telescope, and the flag is set if and only if some
      poll so far found that the loop time since creation had reached the budget. */
  lemma {:induction false} BudgetOverLife(max: int, born: nat, calls: seq<Call>)
    requires max != -1 && CallsInRange(NewBudget(max, born), calls)
    ensures
      var b := AfterCalls(NewBudget(max, born), calls);
      && b.max == max && b.born == born && Telescoped(b)
      && (b.timedOut <==> exists n :: 0 <= n < |calls| && max <= calls[n].now - born)
  {
    if calls != [] {
      var rest, last := calls[..|calls| - 1], calls[|calls| - 1];
      BudgetOverLife(max, born, rest);
      FixTimeoutExact(AfterCalls(NewBudget(max, born), rest), last.now, last.timeout);
      assert calls == rest + [last];
    }
  }

  /** The charges telescope all along if and only if every remainder is an `int` until the flag is set. */
  lemma {:induction false} BudgetExactIff(max: int, born: nat, calls: seq<Call>)
    requires max != -1
    ensures AlwaysTelescoped(NewBudget(max, born), calls) <==> CallsInRange(NewBudget(max, born), calls)
  {
    if calls != [] {
      var rest, last := calls[..|calls| - 1], calls[|calls| - 1];
      BudgetExactIff(max, born, rest);
      if CallsInRange(NewBudget(max, born), rest) {
        BudgetOverLife(max, born, rest);
        var b := AfterCalls(NewBudget(max, born), rest);
        if !b.timedOut { ChargeExactIff(b, last.now, last.timeout); }
      }
    }
  }

  /** A task that has timed out stays so: every later poll returns at once. */
  lemma {:induction false} TimeoutIsSticky(b: Budget, calls: seq<Call>, now: nat, timeout: int)
    requires b.max != -1 && b.timedOut
    ensures AfterCalls(b, calls) == b
    ensures FixTimeout(AfterCalls(b, calls), now, timeout).expired
  {
    if calls != [] {
      TimeoutIsSticky(b, calls[..|calls| - 1], now, timeout);
    }
  }

  /** The fields of `task_t` that the budget uses, updated in place. */
  class TaskClock {
    var max: int
    var leftmsec: int
    var last: nat
    var timeout: bool
    ghost var born: nat

    ghost function View(): Budget
      reads this
    {
      Budget(max, leftmsec, last, timeout, born)
    }

    constructor (max: int, now: nat)
      ensures View() == NewBudget(max, now)
    {
      this.max, leftmsec, last, timeout, born := max, max, now, false, now;
    }

    /** `fix_coroutine_timeout`; `now` is the loop's clock. */
    method Fix(now: nat, wanted: int) returns (wait: int, expired: bool)
      modifies this
      ensures Fixed(View(), wait, expired) == FixTimeout(old(View()), now, wanted)
    {
      wait, expired := wanted, false;
      if max == -1 {
        if wait == -1 || wait > MAX_TIMEOUT_MS {
          wait := MAX_TIMEOUT_MS;
        }
        return;
      }
      if timeout {
        return 0, true;
      }
      var diff := Int32(now - last);
      leftmsec := Int32(leftmsec - diff);
      last := now;
      if leftmsec <= 0 {
        timeout := true;
        return 0, true;
      }
      if wait == -1 {
        wait := leftmsec;
      } else {
        wait := if wait > leftmsec then leftmsec else wait;
      }
      if wait == -1 || wait > MAX_TIMEOUT_MS {
        wait := MAX_TIMEOUT_MS;
      }
    }
  }
}
