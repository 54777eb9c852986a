/**
The call stack of coroutines on top of the context switch: `coroutine_resume` pushes a coroutine and
switches to it, `yield_env` pops one and switches to the coroutine below.  Coroutine c has context c.
 */
module StackRuns {
  import opened ContextRuns
  import opened Scheduler
  import opened SchedulerInvariant

  /** What the running coroutine does next: compute, make a context, resume a coroutine, or yield. */
  datatype Call = Compute | Build(c: nat, fun: int, arg: int) | Push(c: nat) | Pop

  function Last(stack: seq<nat>): nat
    requires stack != []
  {
    stack[|stack| - 1]
  }

  /** The switch, if any, that the call makes. */
  function StepOf(stack: seq<nat>, call: Call): Step {
    match call
    case Compute => Run
    case Build(c, fun, arg) => Make(c, fun, arg)
    case Push(c) => SwitchTo(c)
    case Pop => if |stack| < 2 then Run else SwitchTo(stack[|stack| - 2])
  }

  function StackAfter(stack: seq<nat>, call: Call): seq<nat> {
    match call
    case Push(c) => stack + [c]
    case Pop => if |stack| < 2 then stack else stack[..|stack| - 1]
    case _ => stack
  }

  /** Only a coroutine that is not on the call stack is made or resumed, and the bottom does not yield. */
  ghost predicate Allowed(stack: seq<nat>, call: Call) {
    match call
    case Compute => true
    case Build(c, _, _) => c !in stack
    case Push(c) => c !in stack
    case Pop => 2 <= |stack|
  }

  /** No coroutine is on the call stack twice. */
  ghost predicate Distinct(stack: seq<nat>) {
    stack != [] && forall i, j :: 0 <= i < j < |stack| ==> stack[i] != stack[j]
  }

  ghost predicate Moves(stack: seq<nat>, call: Call, stack': seq<nat>) {
    Allowed(stack, call) && stack' == StackAfter(stack, call)
  }

  /** The call stack before each call and after the last. */
  ghost predicate AllMove(stacks: seq<seq<nat>>, calls: seq<Call>) {
    && |stacks| == |calls| + 1
    && forall k {:trigger calls[k]} :: 0 <= k < |calls| ==> Moves(stacks[k], calls[k], stacks[k + 1])
  }

  ghost predicate Disciplined(stacks: seq<seq<nat>>, calls: seq<Call>) {
    AllMove(stacks, calls) && Distinct(stacks[0])
  }

  lemma AllMoveCons(stack: seq<nat>, call: Call, stacks: seq<seq<nat>>, calls: seq<Call>)
    requires AllMove(stacks, calls) && Moves(stack, call, stacks[0])
    ensures AllMove([stack] + stacks, [call] + calls)
  {
    forall k {:trigger ([call] + calls)[k]} | 0 <= k < |calls| + 1
      ensures Moves(([stack] + stacks)[k], ([call] + calls)[k], ([stack] + stacks)[k + 1])
    {
      if k != 0 {
        var call' := calls[k - 1];
      }
    }
  }

  // ---------------------------------------------------------------- the scheduler's call stack

  /** What a step of the scheduler does to the call stack. */
  ghost function CallOf(s: State, l: Label): Call
    requires Enabled(s, l)
  {
    if |Apply(s, l).stack| < |s.stack| then Pop
    else if |s.stack| < |Apply(s, l).stack| then Push(Last(Apply(s, l).stack))
    else Compute
  }

  /** A free or parked coroutine is not on the call stack. */
  lemma AwayIsOffStack(s: State, co: Co)
    requires StackOk(s) && PlacesOk(s) && (co in s.free || co in Parked(s.polls))
    ensures co !in s.stack
  {
    OnePlace(s, co);
    assert co in multiset(s.free) + multiset(Parked(s.polls));
    forall i | 0 <= i < |s.stack| ensures s.stack[i] != co {
      if i > 0 { StackIsPool(s, i); }
    }
  }

  lemma CallIsAllowed(s: State, l: Label)
    requires StackOk(s) && PlacesOk(s) && NodesOk(s) && Enabled(s, l)
    ensures Moves(s.stack, CallOf(s, l), Apply(s, l).stack)
  {
    match l {
      case NewTask(_) =>
        if s.free != [] { AwayIsOffStack(s, s.free[0]); }
      case PollCall(fds, timeout, accepts, fallback, clock) =>
        TaskAboveMain(s);
        PollEffect(s, fds, timeout, accepts, fallback, clock);
      case Finish => TaskAboveMain(s);
      case Resume =>
        LinkedIsLive(s, s.active[0]);
        assert s.polls[s.active[0].item.poll].co in Parked(s.polls);
        AwayIsOffStack(s, s.active[0].item.co);
      case _ =>
    }
  }

  ghost function StacksAlong(s: State, run: seq<Label>): (r: seq<seq<Co>>)
    requires ValidRun(s, run)
    ensures |r| == |run| + 1 && r[0] == s.stack
    decreases |run|
  {
    [s.stack] + if run == [] then [] else StacksAlong(Apply(s, run[0]), run[1..])
  }

  ghost function CallsAlong(s: State, run: seq<Label>): (r: seq<Call>)
    requires ValidRun(s, run)
    ensures |r| == |run|
    decreases |run|
  {
    if run == [] then [] else [CallOf(s, run[0])] + CallsAlong(Apply(s, run[0]), run[1..])
  }

  lemma {:induction false} CallsMove(s: State, run: seq<Label>)
    requires Inv(s) && ValidRun(s, run)
    ensures AllMove(StacksAlong(s, run), CallsAlong(s, run))
    decreases |run|
  {
    if run != [] {
      var s', rest := Apply(s, run[0]), run[1..];
      CallIsAllowed(s, run[0]);
      InvKept(s, run[0]);
      CallsMove(s', rest);
      AllMoveCons(s.stack, CallOf(s, run[0]), StacksAlong(s', rest), CallsAlong(s', rest));
    }
  }

  /** The call stack of every run of the scheduler is one of well-paired resumes and yields. */
  lemma SchedulerIsDisciplined(size: nat, clock: nat, run: seq<Label>)
    requires ValidRun(Init(size, clock), run)
    ensures Disciplined(StacksAlong(Init(size, clock), run), CallsAlong(Init(size, clock), run))
  {
    InvInit(size, clock);
    CallsMove(Init(size, clock), run);
  }

  // ---------------------------------------------------------------- resumes and yields pair up

  /** From i to j the call stack is deeper than n. */
  ghost predicate Deeper(stacks: seq<seq<nat>>, n: nat, i: nat, j: nat)
    requires i <= j < |stacks|
  {
    forall k :: i <= k <= j ==> n < |stacks[k]|
  }

  /** Position i resumes, position j yields, and in between the stack is deeper than at i. */
  ghost predicate Paired(stacks: seq<seq<nat>>, calls: seq<Call>, i: nat, j: nat)
    requires |stacks| == |calls| + 1
  {
    && i < j < |calls| && calls[i].Push? && calls[j] == Pop
    && Deeper(stacks, |stacks[i]|, i + 1, j) && |stacks[j]| == |stacks[i]| + 1
  }

  /** Every yield that goes back to a depth the run has had belongs to a resume. */
  lemma {:induction false} PushOf(stacks: seq<seq<nat>>, calls: seq<Call>, k: nat, j: nat) returns (i: nat)
    requires Disciplined(stacks, calls) && k <= j < |calls| && calls[j] == Pop
    requires |stacks[0]| < |stacks[j]| && Deeper(stacks, |stacks[j]| - 1, k, j)
    ensures Paired(stacks, calls, i, j)
    decreases k
  {
    assert |stacks[j]| - 1 < |stacks[k]|;
    var call := calls[k - 1];
    if |stacks[k - 1]| < |stacks[j]| {
      i := k - 1;
    } else {
      i := PushOf(stacks, calls, k - 1, j);
    }
  }

  lemma {:induction false} StaysDistinct(stacks: seq<seq<nat>>, calls: seq<Call>, k: nat)
    requires Disciplined(stacks, calls) && k <= |calls|
    ensures Distinct(stacks[k])
  {
    if k != 0 {
      StaysDistinct(stacks, calls, k - 1);
      var call := calls[k - 1];
    }
  }

  /** As long as the stack stays deeper its lower part does not change. */
  lemma {:induction false} LowerPartStays(stacks: seq<seq<nat>>, calls: seq<Call>, n: nat, i: nat, j: nat)
    requires Disciplined(stacks, calls) && i <= j <= |calls| && Deeper(stacks, n, i, j)
    ensures n < |stacks[i]| && n < |stacks[j]| && stacks[j][..n] == stacks[i][..n]
    decreases j
  {
    if i < j {
      LowerPartStays(stacks, calls, n, i, j - 1);
      var call := calls[j - 1];
      assert n < |stacks[j - 1]| && n < |stacks[j]|;
    }
  }

  // ---------------------------------------------------------------- on the machine

  /** The machine runs the top of the call stack, and the calls drive its switches. */
  ghost predicate Drives(l: Layout, stacks: seq<seq<nat>>, calls: seq<Call>, states: seq<System>, steps: seq<Step>)
    requires Separate(l)
  {
    && Disciplined(stacks, calls) && IsRun(l, states, steps) && |steps| == |calls|
    && states[0].cur == Last(stacks[0])
    && forall k {:trigger steps[k]} :: 0 <= k < |calls| ==> steps[k] == StepOf(stacks[k], calls[k])
  }

  lemma {:induction false} TopRuns(l: Layout, stacks: seq<seq<nat>>, calls: seq<Call>, states: seq<System>,
                                   steps: seq<Step>, k: nat)
    requires Separate(l) && Drives(l, stacks, calls, states, steps) && k <= |calls|
    ensures stacks[k] != [] && states[k].cur == Last(stacks[k])
  {
    if k != 0 {
      TopRuns(l, stacks, calls, states, steps, k - 1);
      var call, step := calls[k - 1], steps[k - 1];
      assert Next(l, states[k - 1], step, states[k]);
    }
  }

  /** A coroutine below the top is neither switched to nor made anew while the stack stays deeper. */
  lemma BelowIsUntouched(l: Layout, stacks: seq<seq<nat>>, calls: seq<Call>, states: seq<System>,
                         steps: seq<Step>, n: nat, i: nat, j: nat)
    requires Separate(l) && Drives(l, stacks, calls, states, steps) && i <= j <= |calls| && 0 < n
    requires Deeper(stacks, n, i, j)
    ensures n < |stacks[i]| && Untouched(steps, stacks[i][n - 1], i, j)
  {
    assert n < |stacks[i]|;
    var c := stacks[i][n - 1];
    forall k | i <= k < j
      ensures !(steps[k].SwitchTo? && steps[k].c == c) && !(steps[k].Make? && steps[k].c == c)
    {
      LowerPartStays(stacks, calls, n, i, k);
      StaysDistinct(stacks, calls, k);
      assert n < |stacks[k]| && n < |stacks[k + 1]|;
      assert stacks[k][n - 1] == stacks[k][..n][n - 1] == stacks[i][..n][n - 1] == c;
      var call, step := calls[k], steps[k];
    }
  }

  /** A yield hands control back to the coroutine whose resume it pairs with: the call stack is as it
      was, and that coroutine continues behind its call with its registers and its stack. */
  lemma ResumerContinues(l: Layout, stacks: seq<seq<nat>>, calls: seq<Call>, states: seq<System>,
                         steps: seq<Step>, i: nat, j: nat)
    requires Separate(l) && Drives(l, stacks, calls, states, steps) && Paired(stacks, calls, i, j)
    ensures stacks[j + 1] == stacks[i] != []
    ensures Last(stacks[i]) < |l.base| && Continues(l, Last(stacks[i]), states[i], states[j + 1])
  {
    var n := |stacks[i]|;
    TopRuns(l, stacks, calls, states, steps, i);
    LowerPartStays(stacks, calls, n, i + 1, j);
    BelowIsUntouched(l, stacks, calls, states, steps, n, i + 1, j);
    var up, down, first, last := calls[i], calls[j], steps[i], steps[j];
    assert stacks[i + 1][..n] == stacks[i];
    assert stacks[j][..n][n - 1] == stacks[j][n - 1];
    ContinuesAsSuspended(l, states, steps, Last(stacks[i]), i, j);
  }

  /** Off the call stack until it is resumed again. */
  lemma {:induction false} StaysOff(stacks: seq<seq<nat>>, calls: seq<Call>, c: nat, i: nat, j: nat)
    requires Disciplined(stacks, calls) && i <= j <= |calls| && c !in stacks[i]
    requires forall k :: i <= k < j ==> calls[k] != Push(c)
    ensures c !in stacks[j]
    decreases j
  {
    if i < j {
      StaysOff(stacks, calls, c, i, j - 1);
      var call := calls[j - 1];
    }
  }

  /** A coroutine that yields at i and is next resumed at j continues behind its yield. */
  lemma YielderContinues(l: Layout, stacks: seq<seq<nat>>, calls: seq<Call>, states: seq<System>,
                         steps: seq<Step>, i: nat, j: nat)
    requires Separate(l) && Drives(l, stacks, calls, states, steps) && i < j < |calls|
    requires calls[i] == Pop && stacks[i] != [] && calls[j] == Push(Last(stacks[i]))
    requires forall k :: i < k < j ==>
               calls[k] != Push(Last(stacks[i])) && !(calls[k].Build? && calls[k].c == Last(stacks[i]))
    ensures Last(stacks[i]) < |l.base| && Continues(l, Last(stacks[i]), states[i], states[j + 1])
  {
    var c := Last(stacks[i]);
    TopRuns(l, stacks, calls, states, steps, i);
    StaysDistinct(stacks, calls, i);
    var down, up, first, last := calls[i], calls[j], steps[i], steps[j];
    forall k | i + 1 <= k < j
      ensures !(steps[k].SwitchTo? && steps[k].c == c) && !(steps[k].Make? && steps[k].c == c)
    {
      StaysOff(stacks, calls, c, i + 1, k);
      var call, step := calls[k], steps[k];
    }
    ContinuesAsSuspended(l, states, steps, c, i, j);
  }
}
