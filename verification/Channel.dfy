/** A channel: one descriptor's event mask, and the slot in which a poller keeps its
    registration (net/channel.h). */
module Channel {

  const NONE_EVENT: bv16 := 0
  const READ_EVENT: bv16 := 3      // POLLIN | POLLPRI
  const WRITE_EVENT: bv16 := 4     // POLLOUT

  class Channel {
    const fd: nat
    var events: bv16
    var currEvents: int
    var index: int

    constructor (fd: nat)
      ensures this.fd == fd && events == NONE_EVENT && currEvents == 0 && index == -1
    {
      this.fd := fd;
      events, currEvents, index := NONE_EVENT, 0, -1;
    }

    predicate IsWriting()
      reads this
    {
      events & WRITE_EVENT != 0
    }

    predicate IsReading()
      reads this
    {
      events & READ_EVENT != 0
    }

    predicate IsNoneEvent()
      reads this
    {
      events == NONE_EVENT
    }

    method EnableRead()
      modifies this`events
      ensures IsReading() && IsWriting() == old(IsWriting())
    {
      events := events | READ_EVENT;
    }

    method EnableWrite()
      modifies this`events
      ensures IsWriting() && IsReading() == old(IsReading())
    {
      events := events | WRITE_EVENT;
    }

    method DisableRead()
      modifies this`events
      ensures !IsReading() && IsWriting() == old(IsWriting())
    {
      events := events & !READ_EVENT;
    }

    method DisableWrite()
      modifies this`events
      ensures !IsWriting() && IsReading() == old(IsReading())
    {
      events := events & !WRITE_EVENT;
    }

    method DisableAll()
      modifies this`events
      ensures IsNoneEvent() && !IsReading() && !IsWriting()
    {
      events := NONE_EVENT;
    }
  }
}
