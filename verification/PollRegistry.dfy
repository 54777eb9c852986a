/**
The epoll registrations that `poll_inner` makes and removes.  The kernel keeps one registration per
descriptor; a registration points at one entry of one poll.
 */
module PollRegistry {
  datatype PollFd = PollFd(fd: int, events: bv16)

  /** What `ev->data.ptr` points at. */
  datatype Reg = Reg(poll: nat, index: nat)

  type Registry = map<int, Reg>

  /** Registration of the first n entries.  An ADD succeeds only for a descriptor that is not yet
      registered, and only where the kernel accepts it; failures are ignored. */
  function AddAll(regs: Registry, fds: seq<PollFd>, accepts: seq<bool>, poll: nat, n: nat): Registry
    requires n <= |fds| == |accepts|
  {
    if n == 0 then regs else
      var r := AddAll(regs, fds, accepts, poll, n - 1);
      var fd := fds[n - 1].fd;
      if fd > -1 && accepts[n - 1] && fd !in r then r[fd := Reg(poll, n - 1)] else r
  }

  /** Removal for the first n entries; a DEL of an unregistered descriptor has no effect, and a DEL
      takes away the registration of that descriptor whoever made it. */
  function DelAll(regs: Registry, fds: seq<PollFd>, n: nat): Registry
    requires n <= |fds|
  {
    if n == 0 then regs else
      var r := DelAll(regs, fds, n - 1);
      if fds[n - 1].fd > -1 then r - {fds[n - 1].fd} else r
  }

  ghost predicate Mentions(fds: seq<PollFd>, n: nat, fd: int)
    requires n <= |fds|
  {
    exists i :: 0 <= i < n && fds[i].fd == fd
  }

  /** The registration points at the first entry of the poll for its descriptor that the kernel accepts. */
  ghost predicate FirstEntry(fds: seq<PollFd>, accepts: seq<bool>, n: nat, fd: int, i: nat)
    requires n <= |fds| == |accepts|
  {
    && i < n && fds[i].fd == fd && accepts[i]
    && forall j :: 0 <= j < i && fds[j].fd == fd ==> !accepts[j]
  }

  /** Old registrations stay; every new one points at the first entry of this poll for its descriptor
      that the kernel accepts; and an accepted descriptor is registered, by this poll or by another. */
  lemma {:induction false} AddAllSound(regs: Registry, fds: seq<PollFd>, accepts: seq<bool>, poll: nat, n: nat)
    requires n <= |fds| == |accepts|
    ensures
      var r := AddAll(regs, fds, accepts, poll, n);
      && (forall fd :: fd in regs ==> fd in r && r[fd] == regs[fd])
      && (forall fd :: fd in r && fd !in regs ==>
            fd > -1 && r[fd].poll == poll && FirstEntry(fds, accepts, n, fd, r[fd].index))
      && (forall i :: 0 <= i < n && fds[i].fd > -1 && accepts[i] ==> fds[i].fd in r)
  {
    if n != 0 {
      AddAllSound(regs, fds, accepts, poll, n - 1);
      var r, x := AddAll(regs, fds, accepts, poll, n - 1), fds[n - 1].fd;
      forall fd | fd in r && fd !in regs ensures FirstEntry(fds, accepts, n, fd, r[fd].index) {
        assert FirstEntry(fds, accepts, n - 1, fd, r[fd].index);
      }
      if x > -1 && accepts[n - 1] && x !in r {
        assert FirstEntry(fds, accepts, n, x, n - 1);
      }
    }
  }

  /** Exactly the registrations of the mentioned descriptors are gone. */
  lemma {:induction false} DelAllExact(regs: Registry, fds: seq<PollFd>, n: nat)
    requires n <= |fds| && forall fd :: fd in regs ==> fd > -1
    ensures forall fd :: fd in DelAll(regs, fds, n) <==> fd in regs && !Mentions(fds, n, fd)
    ensures forall fd :: fd in DelAll(regs, fds, n) ==> DelAll(regs, fds, n)[fd] == regs[fd]
  {
    if n != 0 {
      DelAllExact(regs, fds, n - 1);
      forall fd ensures Mentions(fds, n, fd) <==> Mentions(fds, n - 1, fd) || fd == fds[n - 1].fd {
        if fd == fds[n - 1].fd { assert Mentions(fds, n, fd); }
      }
    }
  }

  /** Registering and then removing leaves nothing of this poll behind.  It also takes away what other
      polls have registered for the same descriptors, and only that. */
  lemma AddThenDel(regs: Registry, fds: seq<PollFd>, accepts: seq<bool>, poll: nat)
    requires |fds| == |accepts| && forall fd :: fd in regs ==> fd > -1 && regs[fd].poll != poll
    ensures
      var r := DelAll(AddAll(regs, fds, accepts, poll, |fds|), fds, |fds|);
      && (forall fd :: fd in r <==> fd in regs && !Mentions(fds, |fds|, fd))
      && (forall fd :: fd in r ==> r[fd] == regs[fd])
  {
    AddAllSound(regs, fds, accepts, poll, |fds|);
    var mid := AddAll(regs, fds, accepts, poll, |fds|);
    DelAllExact(mid, fds, |fds|);
    forall fd | fd in mid && fd !in regs ensures Mentions(fds, |fds|, fd) {
      assert fds[mid[fd].index].fd == fd;
    }
  }

  /** The kernel's side of one epoll descriptor. */
  class Epoll {
    var regs: Registry

    constructor ()
      ensures regs == map[]
    {
      regs := map[];
    }

    /** `EPOLL_CTL_ADD`; `accept` is the kernel's own verdict on the descriptor. */
    method CtlAdd(fd: int, reg: Reg, accept: bool) returns (ret: int)
      modifies this
      ensures ret == if accept && fd !in old(regs) then 0 else -1
      ensures regs == if ret == 0 then old(regs)[fd := reg] else old(regs)
    {
      if accept && fd !in regs {
        regs := regs[fd := reg];
        return 0;
      }
      return -1;
    }

    /** `EPOLL_CTL_DEL` */
    method CtlDel(fd: int)
      modifies this
      ensures regs == old(regs) - {fd}
    {
      regs := regs - {fd};
    }

    /** Step 2 of `poll_inner`. */
    method RegisterAll(fds: seq<PollFd>, accepts: seq<bool>, poll: nat)
      requires |fds| == |accepts|
      modifies this
      ensures regs == AddAll(old(regs), fds, accepts, poll, |fds|)
    {
      for i := 0 to |fds|
        invariant regs == AddAll(old(regs), fds, accepts, poll, i)
      {
        if fds[i].fd > -1 {
          var ret := CtlAdd(fds[i].fd, Reg(poll, i), accepts[i]);
        }
      }
    }

    /** The removal loops of `poll_inner`, after a wake-up and after a refused timer. */
    method RemoveAll(fds: seq<PollFd>)
      modifies this
      ensures regs == DelAll(old(regs), fds, |fds|)
    {
      for i := 0 to |fds|
        invariant regs == DelAll(old(regs), fds, i)
      {
        if fds[i].fd > -1 {
          CtlDel(fds[i].fd);
        }
      }
    }
  }
}
