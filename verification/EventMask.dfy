/** The two event-mask conversions of src/coroutine_impl.c, on the Linux bit values. */
module EventMask {
  const POLLIN: bv16 := 0x1
  const POLLOUT: bv16 := 0x4
  const POLLERR: bv16 := 0x8
  const POLLHUP: bv16 := 0x10
  const POLL_MASK: bv16 := 0x1D

  const EPOLLIN: bv32 := 0x1
  const EPOLLOUT: bv32 := 0x4
  const EPOLLERR: bv32 := 0x8
  const EPOLLHUP: bv32 := 0x10

  function PollToEpoll(events: bv16): bv32 {
    (if events & POLLIN != 0 then EPOLLIN else 0)
    | (if events & POLLOUT != 0 then EPOLLOUT else 0)
    | (if events & POLLHUP != 0 then EPOLLHUP else 0)
    | (if events & POLLERR != 0 then EPOLLERR else 0)
  }

  function EpollToPoll(events: bv32): bv16 {
    (if events & EPOLLIN != 0 then POLLIN else 0)
    | (if events & EPOLLOUT != 0 then POLLOUT else 0)
    | (if events & EPOLLHUP != 0 then POLLHUP else 0)
    | (if events & EPOLLERR != 0 then POLLERR else 0)
  }

  /** The kernel is asked for exactly the handled bits that the caller asks for. */
  lemma PollToEpollBits(events: bv16)
    ensures PollToEpoll(events) == (events & 0x1D) as bv32
  {
  }

  /** The caller sees of a report exactly its handled bits: in, out, error and hang-up, each as itself. */
  predicate Shows(events: bv32, revents: bv16) {
    && (revents & 0x1 != 0 <==> events & 0x1 != 0)
    && (revents & 0x4 != 0 <==> events & 0x4 != 0)
    && (revents & 0x8 != 0 <==> events & 0x8 != 0)
    && (revents & 0x10 != 0 <==> events & 0x10 != 0)
    && revents & !0x1D == 0
  }

  /** The conversion of a report shows it, and nothing else does. */
  lemma EpollToPollShows(events: bv32, revents: bv16)
    ensures Shows(events, revents) <==> revents == EpollToPoll(events)
  {
  }

  /** What the kernel may report for a registration: something, and nothing beyond the requested
      events except error and hang-up, which it always reports. */
  predicate MayReport(requested: bv16, events: bv32) {
    events != 0 && events & !(PollToEpoll(requested) | EPOLLERR | EPOLLHUP) == 0
  }

  /** Both conversions lose nothing but the bits that `poll` does not wait for. */
  lemma MaskRoundTrip(events: bv16)
    ensures EpollToPoll(PollToEpoll(events)) == events & POLL_MASK
  {
  }

  /** Every reported event is visible to the caller, and only requested bits, error and hang-up are. */
  lemma ReportIsVisible(requested: bv16, events: bv32)
    requires MayReport(requested, events)
    ensures EpollToPoll(events) != 0
    ensures EpollToPoll(events) & !(requested | POLLERR | POLLHUP) == 0
  {
  }
}
