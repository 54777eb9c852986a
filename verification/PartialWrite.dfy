/**
The transfer loop that the hooked `write` and `send` share (src/hook_sys_call.c).  What the system
call and the wait for readiness return is a script; a run may end before the script lets it return.
 */
module PartialWrite {
  type Byte = bv8

  /** What one system call does: accept some bytes, fail with EAGAIN or EWOULDBLOCK, or fail otherwise. */
  datatype Reply = Accepts(n: nat) | WouldBlock | Fails

  /** One turn of the loop: whether `wait_io_ready` reports readiness, and the reply that follows. */
  datatype Turn = Turn(ready: bool, reply: Reply)

  /** The return value of a system call that is offered `count` bytes; it never accepts more. */
  function Result(reply: Reply, count: nat): int {
    match reply
    case Accepts(n) => if n <= count then n else count
    case WouldBlock => -1
    case Fails => -1
  }

  /** A turn that makes the loop give up. */
  predicate Stops(t: Turn) {
    !t.ready || t.reply == Fails || t.reply == Accepts(0)
  }

  function TurnResult(t: Turn, count: nat): int {
    if t.ready then Result(t.reply, count) else -1
  }

  /** The bytes accepted by the first call and the first n turns, each turn being offered the rest. */
  function Accepted(count: nat, first: Reply, script: seq<Turn>, n: nat): (r: nat)
    requires n <= |script|
    ensures r <= count
  {
    if n == 0 then
      if Result(first, count) > 0 then Result(first, count) else 0
    else
      var so := Accepted(count, first, script, n - 1);
      var more := TurnResult(script[n - 1], count - so);
      if more > 0 then so + more else so
  }

  /** What the first call and the first n turns are willing to accept, if the buffer is long enough. */
  function Willing(first: Reply, script: seq<Turn>, n: nat): nat
    requires n <= |script|
  {
    if n == 0 then
      if first.Accepts? then first.n else 0
    else
      var t := script[n - 1];
      Willing(first, script, n - 1) + if t.ready && t.reply.Accepts? then t.reply.n else 0
  }

  /** All that is offered and taken: the sum of what the kernel is willing to accept, up to the buffer. */
  lemma {:induction false} AcceptedIsSum(count: nat, first: Reply, script: seq<Turn>, n: nat)
    requires n <= |script|
    ensures
      var sum := Willing(first, script, n);
      Accepted(count, first, script, n) == if sum <= count then sum else count
  {
    if n != 0 {
      AcceptedIsSum(count, first, script, n - 1);
    }
  }

  /** No reply that ends a transfer: the wait is over, and some bytes are accepted or the call would
      block. */
  predicate KeepsGoing(t: Turn) {
    t.ready && (t.reply == WouldBlock || (t.reply.Accepts? && 0 < t.reply.n))
  }

  lemma Extend(buf: seq<Byte>, n: nat, k: nat)
    requires n + k <= |buf|
    ensures buf[..n] + buf[n..n + k] == buf[..n + k]
  {
  }

  /** `kernel` is what the kernel has accepted, in the order in which it accepted it; `used` counts
      the turns taken.  At any time the kernel holds exactly the first bytes of the buffer.  A call
      that returns reports their number if there are any, and otherwise a value that is not positive;
      it returns short of the whole buffer only when the first call accepted 0 bytes or the last turn
      stopped it. */
  ghost predicate Transferred(buf: seq<Byte>, first: Reply, script: seq<Turn>,
                              returned: bool, ret: int, kernel: seq<Byte>, used: nat) {
    && kernel <= buf
    && used <= |script| && |kernel| == Accepted(|buf|, first, script, used)
    && (returned && ret > 0 ==> ret == |kernel|)
    && (returned && ret <= 0 ==>
          kernel == [] && ret == if used == 0 then Result(first, |buf|) else TurnResult(script[used - 1], |buf|))
    && (returned && ret < |buf| ==>
          Result(first, |buf|) == 0 || (0 < used && Stops(script[used - 1])) || (buf == [] && ret == -1))
    && (forall k :: 0 <= k < used - 1 ==> !Stops(script[k]))
    && (!returned ==> used == |script| && |kernel| < |buf| && forall k :: 0 <= k < used ==> !Stops(script[k]))
  }

  /** The state of the loop after n bytes and some turns: `ret` is what the last system call returned. */
  ghost predicate UnderWay(buf: seq<Byte>, first: Reply, script: seq<Turn>, n: nat, ret: int, used: nat) {
    && used <= |script| && n == Accepted(|buf|, first, script, used)
    && (n == 0 ==> ret <= 0 && ret == if used == 0 then Result(first, |buf|) else TurnResult(script[used - 1], |buf|))
  }

  /** One turn of the loop. */
  lemma TurnTaken(buf: seq<Byte>, first: Reply, script: seq<Turn>, n: nat, ret: int, used: nat, ret': int)
    requires UnderWay(buf, first, script, n, ret, used) && used < |script| && n < |buf|
    requires ret' == TurnResult(script[used], |buf| - n)
    ensures UnderWay(buf, first, script, if ret' > 0 then n + ret' else n, ret', used + 1)
    ensures ret' <= |buf| - n
    ensures Stops(script[used]) <==> ret' == 0 || (ret' < 0 && !(script[used].ready && script[used].reply == WouldBlock))
  {
  }

  method Transfer(buf: seq<Byte>, first: Reply, script: seq<Turn>)
    returns (returned: bool, ret: int, kernel: seq<Byte>, used: nat)
    ensures Transferred(buf, first, script, returned, ret, kernel, used)
  {
    var n := 0;
    kernel, used := [], 0;
    ret := Result(first, |buf|);
    if ret == 0 {
      returned := true;
      return;
    }
    if ret > 0 {
      kernel := kernel + buf[..ret];
      n := n + ret;
    }
    while n < |buf|
      invariant 0 <= n <= |buf| && kernel == buf[..n]
      invariant UnderWay(buf, first, script, n, ret, used)
      invariant forall k :: 0 <= k < used ==> !Stops(script[k])
      invariant buf == [] ==> ret == -1
      decreases |script| - used
    {
      if used == |script| {
        returned := false;
        return;
      }
      var turn := script[used];
      TurnTaken(buf, first, script, n, ret, used, TurnResult(turn, |buf| - n));
      used := used + 1;
      ret := if turn.ready then 1 else -1;
      if ret <= 0 {
        break;
      }
      ret := Result(turn.reply, |buf| - n);
      if ret < 0 {
        if turn.reply != WouldBlock {
          break;
        }
        continue;
      } else if ret == 0 {
        break;
      }
      Extend(buf, n, ret);
      kernel := kernel + buf[n..n + ret];
      n := n + ret;
    }
    returned := true;
    if ret <= 0 && n == 0 {
      return;
    }
    ret := n;
  }

  lemma {:induction false} WillingGrows(first: Reply, script: seq<Turn>, m: nat, n: nat)
    requires m <= n <= |script|
    ensures Willing(first, script, m) <= Willing(first, script, n)
    decreases n
  {
    if m < n {
      WillingGrows(first, script, m, n - 1);
    }
  }

  /** As long as the kernel keeps accepting or would block, the transfer goes on: it returns the length
      of the buffer as soon as the kernel has been willing to accept that much, and not before. */
  lemma TransferCompletes(buf: seq<Byte>, first: Reply, script: seq<Turn>,
                          returned: bool, ret: int, kernel: seq<Byte>, used: nat)
    requires Transferred(buf, first, script, returned, ret, kernel, used)
    requires buf != [] && first != Accepts(0) && forall k :: 0 <= k < |script| ==> KeepsGoing(script[k])
    ensures returned <==> |buf| <= Willing(first, script, |script|)
    ensures returned ==> ret == |buf| && kernel == buf
    ensures !returned ==> |kernel| == Willing(first, script, |script|)
  {
    AcceptedIsSum(|buf|, first, script, used);
    WillingGrows(first, script, used, |script|);
  }

  /** An error that is not a would-block ends it at once: with the bytes accepted so far, or, without
      any, with the error. */
  lemma TransferStops(buf: seq<Byte>, first: Reply, script: seq<Turn>,
                      returned: bool, ret: int, kernel: seq<Byte>, used: nat, k: nat)
    requires Transferred(buf, first, script, returned, ret, kernel, used) && k < |script|
    requires buf != [] && first != Accepts(0) && forall j :: 0 <= j < k ==> KeepsGoing(script[j])
    requires !script[k].ready || script[k].reply == Fails
    requires Willing(first, script, k) < |buf|
    ensures returned && used == k + 1 && |kernel| == Willing(first, script, k)
    ensures ret == if kernel == [] then -1 else |kernel|
  {
    AcceptedIsSum(|buf|, first, script, used);
    if used <= k {
      WillingGrows(first, script, used, k);
    } else {
      assert Stops(script[k]);
    }
  }
}
