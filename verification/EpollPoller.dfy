/** The epoll poller (net/poller/epollPoller.cpp): a three-state mark in each channel's
    index, and the kernel's own table of registrations. */
module EpollPoller {
  import opened Channel

  const NEW: int := -1
  const ADDED: int := 1
  const DELETED: int := 2

  /** What the kernel holds of a descriptor: `event.events` and `event.data.ptr`. */
  datatype Event = Event(events: bv16, channel: Channel)

  datatype Ctl = Add(fd: int, event: Event) | Mod(fd: int, event: Event) | Del(fd: int)

  type Kernel = map<int, Event>

  /** epoll_ctl(2) fails with EEXIST or ENOENT on the others. */
  predicate CtlLegal(kernel: Kernel, op: Ctl) {
    op.Add? <==> op.fd !in kernel
  }

  function AfterCtl(kernel: Kernel, op: Ctl): Kernel {
    match op
    case Del(fd) => kernel - {fd}
    case _ => kernel[op.fd := op.event]
  }

  datatype State = State(
    chans: map<int, Channel>,      // m_channelMap
    index: map<Channel, int>,      // each channel's m_index
    events: map<Channel, bv16>,    // each channel's m_events
    kernel: Kernel)

  function IndexOf(s: State, c: Channel): int {
    if c in s.index then s.index[c] else NEW
  }

  function MaskOf(s: State, c: Channel): bv16 {
    if c in s.events then s.events[c] else NONE_EVENT
  }

  function EventOf(s: State, c: Channel): Event {
    Event(MaskOf(s, c), c)
  }

  /** The assertions of `updateChannel`. */
  predicate UpdateAsserts(s: State, c: Channel) {
    if IndexOf(s, c) == NEW then c.fd !in s.chans
    else c.fd in s.chans && s.chans[c.fd] == c && IndexOf(s, c) in {ADDED, DELETED}
  }

  /** The call of epoll_ctl(2) that `updateChannel` makes. */
  function UpdateCtl(s: State, c: Channel): Ctl {
    if IndexOf(s, c) != ADDED then Add(c.fd, EventOf(s, c))
    else if MaskOf(s, c) == NONE_EVENT then Del(c.fd)
    else Mod(c.fd, EventOf(s, c))
  }

  function AfterUpdate(s: State, c: Channel): State
    requires UpdateAsserts(s, c)
  {
    var s1 := s.(kernel := AfterCtl(s.kernel, UpdateCtl(s, c)));
    if IndexOf(s, c) != ADDED then s1.(index := s.index[c := ADDED], chans := s.chans[c.fd := c])
    else if MaskOf(s, c) == NONE_EVENT then s1.(index := s.index[c := DELETED])
    else s1
  }

  /** The assertions of `removeChannel`. */
  predicate RemoveAsserts(s: State, c: Channel) {
    && c.fd in s.chans && s.chans[c.fd] == c && MaskOf(s, c) == NONE_EVENT
    && IndexOf(s, c) in {ADDED, DELETED}
  }

  function AfterRemove(s: State, c: Channel): State
    requires RemoveAsserts(s, c)
  {
    s.(chans := s.chans - {c.fd}, index := s.index[c := NEW],
       kernel := if IndexOf(s, c) == ADDED then AfterCtl(s.kernel, Del(c.fd)) else s.kernel)
  }

  /** A registered channel is marked added, and the kernel has it with its current mask,
      or deleted, its mask being empty, and the kernel does not have it. */
  predicate Mirrored(s: State, fd: int)
    requires fd in s.chans
  {
    var c := s.chans[fd];
    && c.fd == fd && IndexOf(s, c) in {ADDED, DELETED}
    && if IndexOf(s, c) == ADDED then fd in s.kernel && s.kernel[fd] == EventOf(s, c)
       else fd !in s.kernel && MaskOf(s, c) == NONE_EVENT
  }

  predicate Held(s: State, c: Channel) {
    c.fd in s.chans && s.chans[c.fd] == c
  }

  /** The kernel's table is exactly the channels marked added, with their current masks,
      and only channels in the map are marked. */
  predicate Mirror(s: State) {
    && (forall fd :: fd in s.chans ==> Mirrored(s, fd))
    && s.kernel.Keys <= s.chans.Keys
    && (forall c :: c in s.index && s.index[c] != NEW ==> Held(s, c))
  }

  function WithMask(s: State, c: Channel, mask: bv16): State {
    s.(events := s.events[c := mask])
  }

  /** Every update is one the kernel accepts. */
  lemma UpdateIsLegal(s: State, c: Channel, mask: bv16)
    requires Mirror(s)
    ensures UpdateAsserts(WithMask(s, c, mask), c) <==> (IndexOf(s, c) == NEW ==> c.fd !in s.chans)
    ensures UpdateAsserts(WithMask(s, c, mask), c) ==> CtlLegal(s.kernel, UpdateCtl(WithMask(s, c, mask), c))
  {
    assert IndexOf(s, c) != NEW ==> Held(s, c);
    if c.fd in s.chans { assert Mirrored(s, c.fd); }
  }

  lemma UpdateMirrors(s: State, c: Channel, mask: bv16)
    requires Mirror(s) && UpdateAsserts(WithMask(s, c, mask), c)
    ensures Mirror(AfterUpdate(WithMask(s, c, mask), c))
  {
    var e := AfterUpdate(WithMask(s, c, mask), c);
    assert e.kernel.Keys <= e.chans.Keys;
    forall fd | fd in e.chans ensures Mirrored(e, fd) {
      if fd in s.chans { assert Mirrored(s, fd); }
    }
    forall d | d in e.index && e.index[d] != NEW ensures Held(e, d) {
      if IndexOf(s, d) != NEW { assert Held(s, d); }
    }
  }

  /** So is every removal. */
  lemma RemoveIsLegal(s: State, c: Channel)
    requires Mirror(s)
    ensures RemoveAsserts(s, c) <==> IndexOf(s, c) != NEW && MaskOf(s, c) == NONE_EVENT
    ensures RemoveAsserts(s, c) && IndexOf(s, c) == ADDED ==> CtlLegal(s.kernel, Del(c.fd))
  {
    assert IndexOf(s, c) != NEW ==> Held(s, c);
    if c.fd in s.chans { assert Mirrored(s, c.fd); }
  }

  lemma RemoveMirrors(s: State, c: Channel)
    requires Mirror(s) && RemoveAsserts(s, c)
    ensures Mirror(AfterRemove(s, c))
  {
    var e := AfterRemove(s, c);
    assert Mirrored(s, c.fd);
    forall fd | fd in e.chans ensures Mirrored(e, fd) {
      assert Mirrored(s, fd);
    }
    forall d | d in e.index && e.index[d] != NEW ensures Held(e, d) {
      assert Held(s, d);
    }
  }

  /** The descriptors registered, each with its channel's mask. */
  function Masks(s: State): map<int, bv16> {
    map fd | fd in s.chans :: MaskOf(s, s.chans[fd])
  }

  /** The kernel watches exactly the registered descriptors whose mask is not empty, for
      their masks, and will name their channels. */
  lemma WatchedExactly(s: State, fd: int, mask: bv16)
    requires Mirror(s) && mask != NONE_EVENT
    ensures fd in s.kernel && s.kernel[fd].events == mask <==> fd in Masks(s) && Masks(s)[fd] == mask
    ensures fd in s.kernel ==> s.kernel[fd].channel.fd == fd
  {
    if fd in s.chans { assert Mirrored(s, fd); }
  }

  lemma UpdateChannels(s: State, c: Channel, mask: bv16)
    requires Mirror(s) && UpdateAsserts(WithMask(s, c, mask), c)
    ensures var e := AfterUpdate(WithMask(s, c, mask), c);
            e.chans == s.chans[c.fd := c] && e.events == s.events[c := mask]
  {
    hide AfterCtl, UpdateCtl, Mirror;
    assert IndexOf(s, c) == ADDED ==> s.chans[c.fd := c] == s.chans;
  }

  lemma UpdateSetsMask(s: State, c: Channel, mask: bv16)
    requires Mirror(s) && UpdateAsserts(WithMask(s, c, mask), c)
    ensures Masks(AfterUpdate(WithMask(s, c, mask), c)) == Masks(s)[c.fd := mask]
  {
    hide AfterUpdate;
    var e := AfterUpdate(WithMask(s, c, mask), c);
    UpdateChannels(s, c, mask);
    assert Masks(e).Keys == Masks(s)[c.fd := mask].Keys;
    forall fd | fd in e.chans ensures Masks(e)[fd] == Masks(s)[c.fd := mask][fd] {
      if fd in s.chans { assert Mirrored(s, fd); }
    }
  }

  lemma RemoveDropsMask(s: State, c: Channel)
    requires Mirror(s) && RemoveAsserts(s, c)
    ensures Masks(AfterRemove(s, c)) == Masks(s) - {c.fd}
  {
    var e := AfterRemove(s, c);
    assert e.events == s.events && e.chans == s.chans - {c.fd};
    assert Masks(e).Keys == (Masks(s) - {c.fd}).Keys;
    assert forall fd :: fd in Masks(e) ==> Masks(e)[fd] == (Masks(s) - {c.fd})[fd];
  }

  class EpollPoller {
    var channelMap: map<int, Channel>
    ghost var kernel: Kernel             // behind m_epollFd
    ghost const known: set<Channel>

    ghost function View(): State
      reads this, known
    {
      State(channelMap, map c | c in known :: c.index, map c | c in known :: c.events, kernel)
    }

    constructor (ghost known: set<Channel>)
      ensures this.known == known && View() == View().(chans := map[], kernel := map[])
    {
      this.known := known;
      channelMap, kernel := map[], map[];
    }

    /** `update`; only a call that epoll_ctl(2) accepts changes the kernel's table. */
    method Update(op: Ctl)
      requires CtlLegal(kernel, op)
      modifies `kernel
      ensures kernel == AfterCtl(old(kernel), op)
    {
      kernel := AfterCtl(kernel, op);
    }

    method UpdateChannel(channel: Channel)
      requires channel in known && UpdateAsserts(View(), channel)
      requires CtlLegal(kernel, UpdateCtl(View(), channel))
      modifies this, channel`index
      ensures View() == AfterUpdate(old(View()), channel)
    {
      hide CtlLegal, AfterCtl;
      var index := channel.index;
      if index == NEW || index == DELETED {
        var fd := channel.fd;
        if index == NEW {
          assert fd !in channelMap;
          channelMap := channelMap[fd := channel];
        } else {
          assert fd in channelMap && channelMap[fd] == channel;
        }
        channel.index := ADDED;
        Update(Add(fd, Event(channel.events, channel)));
      } else {
        var fd := channel.fd;
        assert fd in channelMap && channelMap[fd] == channel && index == ADDED;
        if channel.IsNoneEvent() {
          Update(Del(fd));
          channel.index := DELETED;
        } else {
          Update(Mod(fd, Event(channel.events, channel)));
        }
      }
    }

    method RemoveChannel(channel: Channel)
      requires channel in known && RemoveAsserts(View(), channel)
      requires channel.index == ADDED ==> CtlLegal(kernel, Del(channel.fd))
      modifies this, channel`index
      ensures View() == AfterRemove(old(View()), channel)
    {
      var fd := channel.fd;
      assert fd in channelMap && channelMap[fd] == channel && channel.IsNoneEvent();
      var index := channel.index;
      assert index == ADDED || index == DELETED;
      channelMap := channelMap - {fd};
      if index == ADDED {
        Update(Del(fd));
      }
      channel.index := NEW;
    }
  }
}
