/**
Any interleaving of switches among any number of contexts.  A coroutine lends out words of its stack:
the poll context and the timer node of `poll_inner` are locals, and the event loop links, counts and
unlinks them while their owner is away.
 */
module ContextRuns {
  import opened ContextSwitch

  /** The register block and the stack area of each context. */
  datatype Layout = Layout(base: seq<int>, lo: seq<int>, hi: seq<int>)

  predicate InStack(l: Layout, c: nat, a: int)
    requires c < |l.base| == |l.lo| == |l.hi|
  {
    l.lo[c] <= a < l.hi[c]
  }

  predicate Apart(l: Layout, c: nat, d: nat)
    requires c < |l.base| && d < |l.base|
  {
    l.base[c] + BLOCK_BYTES <= l.base[d] || l.base[d] + BLOCK_BYTES <= l.base[c]
  }

  /** Blocks are aligned; blocks and stacks of different contexts, and stacks and blocks, are disjoint. */
  ghost predicate Separate(l: Layout) {
    && |l.base| == |l.lo| == |l.hi|
    && (forall c :: 0 <= c < |l.base| ==> Aligned(l.base[c]))
    && (forall c, d :: 0 <= c < |l.base| && 0 <= d < |l.base| && c != d ==> Apart(l, c, d))
    && (forall c, d, a :: 0 <= c < |l.base| && 0 <= d < |l.base| && InStack(l, c, a) ==> !InBlock(l.base[d], a))
    && (forall c, d, a :: 0 <= c < |l.base| && 0 <= d < |l.base| && c != d && InStack(l, c, a) ==> !InStack(l, d, a))
  }

  /** `cur` is running; the contexts in `ready` have been made or suspended; the words in `lent` are
      open to everybody. */
  datatype System = System(m: Machine, cur: nat, ready: set<nat>, lent: set<int>)

  datatype Step = Run | SwitchTo(c: nat) | Make(c: nat, fun: int, arg: int)

  ghost predicate Next(l: Layout, s: System, step: Step, s': System)
    requires Separate(l)
  {
    match step
    case Run =>
      // code of a coroutine or of the event loop: any registers, any memory but register blocks and
      // what other contexts have on their stacks and not lent out; it lends and takes back its own words
      && s'.cur == s.cur && s'.ready == s.ready
      && (forall c, a :: 0 <= c < |l.base| && c != s.cur && InStack(l, c, a) ==> (a in s'.lent <==> a in s.lent))
      && (forall c, a :: 0 <= c < |l.base| && InBlock(l.base[c], a) ==> Read(s'.m.mem, a) == Read(s.m.mem, a))
      && (forall c, a :: 0 <= c < |l.base| && c != s.cur && InStack(l, c, a) && a !in s.lent ==>
            Read(s'.m.mem, a) == Read(s.m.mem, a))
    case SwitchTo(c) =>
      // a call of context_swap from the running context's stack
      && c in s.ready && s.cur < |l.base| && c < |l.base|
      && s.m.regs.rdi == l.base[s.cur] && s.m.regs.rsi == l.base[c]
      && InStack(l, s.cur, s.m.regs.rsp) && Aligned(s.m.regs.rsp)
      && Swapped(s.m, s'.m)
      && s'.cur == c && s'.ready == s.ready - {c} + {s.cur} && s'.lent == s.lent
    case Make(c, fun, arg) =>
      && c != s.cur && c < |l.base| && 32 <= l.hi[c] - l.lo[c]
      && s'.m.regs == s.m.regs
      && Load(s'.m.mem, l.base[c]) == Made(l.lo[c], l.hi[c] - l.lo[c], fun, arg)
      && (forall a :: !InBlock(l.base[c], a) ==> Read(s'.m.mem, a) == Read(s.m.mem, a))
      && s'.cur == s.cur && s'.ready == s.ready + {c} && s'.lent == s.lent
  }

  predicate SlotOk(l: Layout, c: nat, slot: int)
    requires c < |l.base| == |l.lo| == |l.hi|
  {
    InStack(l, c, slot) && Aligned(slot)
  }

  /** Every context that can be switched to will find its return slot in its own stack. */
  ghost predicate Sound(l: Layout, s: System)
    requires Separate(l)
  {
    && s.cur < |l.base| && s.cur !in s.ready
    && forall c :: c in s.ready ==> c < |l.base| && SlotOk(l, c, Load(s.m.mem, l.base[c]).rsp - 8)
  }

  /** Writing a word that a parked context has lent out, as the event loop does when it links, counts or
      unlinks the context's poll, is an ordinary step. */
  lemma WakeIsOrdinary(l: Layout, s: System, c: nat, a: int, v: int)
    requires Separate(l) && c < |l.base| && InStack(l, c, a) && a in s.lent
    ensures Next(l, s, Run, s.(m := s.m.(mem := s.m.mem[a := v])))
  {
  }

  /** In a sound system every switch meets the precondition of `context_swap`. */
  lemma SwitchIsSafe(l: Layout, s: System, c: nat)
    requires Separate(l) && Sound(l, s) && c in s.ready
    requires s.m.regs.rdi == l.base[s.cur] && s.m.regs.rsi == l.base[c]
    requires InStack(l, s.cur, s.m.regs.rsp) && Aligned(s.m.regs.rsp)
    ensures Swappable(s.m)
  {
    assert SlotOk(l, c, Load(s.m.mem, l.base[c]).rsp - 8);
    assert Apart(l, s.cur, c);
  }

  /** A step that neither resumes nor re-makes a suspended context changes no word of its block, and none
      of its stack but those that it has lent out; and it lends out no other. */
  lemma StepLeavesAlone(l: Layout, s: System, step: Step, s': System, c: nat, a: int)
    requires Separate(l) && Sound(l, s) && Next(l, s, step, s') && c < |l.base| && c != s.cur
    requires !(step.SwitchTo? && step.c == c) && !(step.Make? && step.c == c)
    requires InBlock(l.base[c], a) || InStack(l, c, a)
    ensures InBlock(l.base[c], a) || a !in s.lent ==> Read(s'.m.mem, a) == Read(s.m.mem, a)
    ensures InStack(l, c, a) ==> (a in s'.lent <==> a in s.lent)
  {
    match step {
      case Run =>
      case SwitchTo(d) =>
        assert SlotOk(l, d, Load(s.m.mem, l.base[d]).rsp - 8);
        assert Apart(l, s.cur, c);
      case Make(d, _, _) =>
        assert Apart(l, d, c);
    }
  }

  lemma BlockLeftAlone(l: Layout, s: System, step: Step, s': System, c: nat)
    requires Separate(l) && Sound(l, s) && Next(l, s, step, s') && c < |l.base| && c != s.cur
    requires !(step.SwitchTo? && step.c == c) && !(step.Make? && step.c == c)
    ensures Load(s'.m.mem, l.base[c]) == Load(s.m.mem, l.base[c])
  {
    forall a | InBlock(l.base[c], a) ensures Read(s'.m.mem, a) == Read(s.m.mem, a) {
      StepLeavesAlone(l, s, step, s', c, a);
    }
  }

  lemma MadeSlot(l: Layout, c: nat, fun: int, arg: int)
    requires c < |l.base| == |l.lo| == |l.hi| && 32 <= l.hi[c] - l.lo[c]
    ensures SlotOk(l, c, Made(l.lo[c], l.hi[c] - l.lo[c], fun, arg).rsp - 8)
  {
    MadeStackAligned(l.lo[c], l.hi[c] - l.lo[c], fun, arg);
  }

  lemma SlotKept(l: Layout, s: System, step: Step, s': System, c: nat)
    requires Separate(l) && Sound(l, s) && Next(l, s, step, s') && c in s'.ready
    ensures c < |l.base| && SlotOk(l, c, Load(s'.m.mem, l.base[c]).rsp - 8)
  {
    if step.Make? && step.c == c {
      MadeSlot(l, c, step.fun, step.arg);
    } else if step.SwitchTo? && c == s.cur {
      assert Load(s'.m.mem, l.base[c]).rsp - 8 == s.m.regs.rsp;
    } else {
      assert SlotOk(l, c, Load(s.m.mem, l.base[c]).rsp - 8);
      BlockLeftAlone(l, s, step, s', c);
    }
  }

  lemma SoundKept(l: Layout, s: System, step: Step, s': System)
    requires Separate(l) && Sound(l, s) && Next(l, s, step, s')
    ensures Sound(l, s')
  {
    forall c | c in s'.ready ensures c < |l.base| && SlotOk(l, c, Load(s'.m.mem, l.base[c]).rsp - 8) {
      SlotKept(l, s, step, s', c);
    }
  }

  // ---------------------------------------------------------------- runs

  ghost predicate IsRun(l: Layout, states: seq<System>, steps: seq<Step>)
    requires Separate(l)
  {
    && |states| == |steps| + 1
    && Sound(l, states[0])
    && forall i :: 0 <= i < |steps| ==> Next(l, states[i], steps[i], states[i + 1])
  }

  lemma {:induction false} SoundAlong(l: Layout, states: seq<System>, steps: seq<Step>, k: nat)
    requires Separate(l) && IsRun(l, states, steps) && k <= |steps|
    ensures Sound(l, states[k])
  {
    if k != 0 {
      SoundAlong(l, states, steps, k - 1);
      SoundKept(l, states[k - 1], steps[k - 1], states[k]);
    }
  }

  /** Between steps i and j context c is neither resumed nor made anew. */
  ghost predicate Untouched(steps: seq<Step>, c: nat, i: nat, j: nat)
    requires i <= j <= |steps|
  {
    forall k :: i <= k < j ==> !(steps[k].SwitchTo? && steps[k].c == c) && !(steps[k].Make? && steps[k].c == c)
  }

  /** A context that is not running keeps its block, and its stack but for what it has lent out,
      whatever the others do. */
  lemma {:induction false} KeptWhileAway(l: Layout, states: seq<System>, steps: seq<Step>, c: nat, i: nat, j: nat)
    requires Separate(l) && IsRun(l, states, steps) && i <= j <= |steps|
    requires c < |l.base| && states[i].cur != c && Untouched(steps, c, i, j)
    ensures states[j].cur != c
    ensures Load(states[j].m.mem, l.base[c]) == Load(states[i].m.mem, l.base[c])
    ensures forall a :: InStack(l, c, a) ==> (a in states[j].lent <==> a in states[i].lent)
    ensures forall a :: InStack(l, c, a) && a !in states[i].lent ==>
              Read(states[j].m.mem, a) == Read(states[i].m.mem, a)
    decreases j
  {
    if i < j {
      KeptWhileAway(l, states, steps, c, i, j - 1);
      SoundAlong(l, states, steps, j - 1);
      BlockLeftAlone(l, states[j - 1], steps[j - 1], states[j], c);
      forall a | InStack(l, c, a)
        ensures a in states[j].lent <==> a in states[j - 1].lent
        ensures a !in states[j - 1].lent ==> Read(states[j].m.mem, a) == Read(states[j - 1].m.mem, a)
      {
        StepLeavesAlone(l, states[j - 1], steps[j - 1], states[j], c, a);
      }
    }
  }

  /** Context c continues at its own return address, with the stack pointer of a completed call, its
      registers but for rax, which is 0, and its stack from there on as it left it but for the words lent out. */
  ghost predicate Continues(l: Layout, c: nat, before: System, after: System)
    requires c < |l.base| == |l.lo| == |l.hi|
  {
    var m, m' := before.m, after.m;
    && m'.regs.rip == Read(m.mem, m.regs.rsp)
    && m'.regs.rsp == m.regs.rsp + 8
    && m'.regs.rbx == m.regs.rbx && m'.regs.rbp == m.regs.rbp
    && m'.regs.r12 == m.regs.r12 && m'.regs.r13 == m.regs.r13
    && m'.regs.r14 == m.regs.r14 && m'.regs.r15 == m.regs.r15
    && m'.regs.rdi == m.regs.rdi && m'.regs.rsi == m.regs.rsi && m'.regs.rdx == m.regs.rdx
    && m'.regs.rcx == m.regs.rcx && m'.regs.r8 == m.regs.r8 && m'.regs.r9 == m.regs.r9 && m'.regs.rax == 0
    && (forall a :: InStack(l, c, a) ==> (a in after.lent <==> a in before.lent))
    && (forall a :: InStack(l, c, a) && m.regs.rsp <= a && a !in before.lent ==> Read(m'.mem, a) == Read(m.mem, a))
  }

  /** Switching back: a context that is suspended by a switch at step i and next resumed at step j. */
  lemma ContinuesAsSuspended(l: Layout, states: seq<System>, steps: seq<Step>, c: nat, i: nat, j: nat)
    requires Separate(l) && IsRun(l, states, steps) && i < j < |steps|
    requires steps[i].SwitchTo? && states[i].cur == c && steps[j] == SwitchTo(c)
    requires Untouched(steps, c, i + 1, j)
    ensures c < |l.base| && Continues(l, c, states[i], states[j + 1])
  {
    SoundAlong(l, states, steps, i);
    SoundAlong(l, states, steps, j);
    assert Next(l, states[i], steps[i], states[i + 1]) && Next(l, states[j], steps[j], states[j + 1]);
    var before, next := states[i].m, steps[i].c;
    assert SlotOk(l, next, Load(before.mem, l.base[next]).rsp - 8);
    KeptWhileAway(l, states, steps, c, i + 1, j);
    assert Load(states[j].m.mem, l.base[c]) == Suspended(before);
    forall a | InStack(l, c, a) && before.regs.rsp <= a && a !in states[i].lent
      ensures Read(states[j + 1].m.mem, a) == Read(before.mem, a)
    {
      assert Read(states[i + 1].m.mem, a) == Read(before.mem, a);
      assert Read(states[j].m.mem, a) == Read(states[i + 1].m.mem, a);
    }
  }

  /** Starting: a context that was made at step i and is first switched to at step j begins at its
      function, with its argument in rdi and an aligned stack pointer at the high end of its stack, so
      that its whole stack lies below. */
  lemma StartsAsMade(l: Layout, states: seq<System>, steps: seq<Step>, c: nat, fun: int, arg: int, i: nat, j: nat)
    requires Separate(l) && IsRun(l, states, steps) && i < j < |steps|
    requires steps[i] == Make(c, fun, arg) && steps[j] == SwitchTo(c) && Untouched(steps, c, i + 1, j)
    ensures
      var r := states[j + 1].m.regs;
      && r.rip == fun && r.rdi == arg
      && (r.rsp + 8) % 16 == 0 && InStack(l, c, r.rsp) && l.hi[c] - 24 < r.rsp <= l.hi[c] - 8
  {
    assert Next(l, states[i], steps[i], states[i + 1]) && Next(l, states[j], steps[j], states[j + 1]);
    MadeStackAligned(l.lo[c], l.hi[c] - l.lo[c], fun, arg);
    KeptWhileAway(l, states, steps, c, i + 1, j);
  }
}
