/** The poll(2) poller (net/poller/pollPoller.cpp): an array of descriptors with holes
    filled by swapping, and back indices kept in the channels. */
module PollPoller {
  import opened Channel

  datatype Pollfd = Pollfd(fd: int, events: bv16, revents: int)

  /** The poller and what it reads and writes of the loop's channels. */
  datatype State = State(
    slots: seq<Pollfd>,            // m_pollFdList
    chans: map<int, Channel>,      // m_channelMap
    index: map<Channel, int>,      // each channel's m_index
    events: map<Channel, bv16>)    // each channel's m_events

  function IndexOf(s: State, c: Channel): int {
    if c in s.index then s.index[c] else -1
  }

  function MaskOf(s: State, c: Channel): bv16 {
    if c in s.events then s.events[c] else NONE_EVENT
  }

  /** A slot that ignores its descriptor keeps it as a negative number. */
  function Ignore(fd: int): int {
    -fd - 1
  }

  function Decode(fd: int): int {
    if fd < 0 then Ignore(fd) else fd
  }

  /** The assertions of `updateChannel`. */
  predicate UpdateAsserts(s: State, c: Channel) {
    if IndexOf(s, c) < 0 then c.fd !in s.chans
    else
      && c.fd in s.chans && s.chans[c.fd] == c && IndexOf(s, c) < |s.slots|
      && (s.slots[IndexOf(s, c)].fd == c.fd || s.slots[IndexOf(s, c)].fd == -1)
  }

  function AfterUpdate(s: State, c: Channel): State
    requires UpdateAsserts(s, c)
  {
    var mask := MaskOf(s, c);
    if IndexOf(s, c) < 0 then
      s.(slots := s.slots + [Pollfd(if mask == NONE_EVENT then -1 else c.fd, mask, 0)],
         index := s.index[c := |s.slots|], chans := s.chans[c.fd := c])
    else
      var slot := s.slots[IndexOf(s, c)];
      var fd := if mask == NONE_EVENT then Ignore(c.fd) else slot.fd;
      s.(slots := s.slots[IndexOf(s, c) := Pollfd(fd, mask, 0)])
  }

  /** The assertions of `removeChannel`. */
  predicate RemoveAsserts(s: State, c: Channel) {
    && c.fd in s.chans && s.chans[c.fd] == c && MaskOf(s, c) == NONE_EVENT
    && 0 <= IndexOf(s, c) < |s.slots|
    && s.slots[IndexOf(s, c)].fd == Ignore(c.fd) && s.slots[IndexOf(s, c)].events == MaskOf(s, c)
  }

  /** The channel whose index `removeChannel` rewrites, looked up in the map, is there:
      if not, the source follows a null pointer. */
  predicate RemoveFinds(s: State, c: Channel)
    requires RemoveAsserts(s, c)
  {
    IndexOf(s, c) == |s.slots| - 1 || Decode(s.slots[|s.slots| - 1].fd) in s.chans - {c.fd}
  }

  function AfterRemove(s: State, c: Channel): State
    requires RemoveAsserts(s, c) && RemoveFinds(s, c)
  {
    var last := |s.slots| - 1;
    var chans := s.chans - {c.fd};
    if IndexOf(s, c) == last then s.(slots := s.slots[..last], chans := chans)
    else
      s.(slots := s.slots[IndexOf(s, c) := s.slots[last]][..last],
         index := s.index[chans[Decode(s.slots[last].fd)] := IndexOf(s, c)], chans := chans)
  }

  // -------------------------------------------------------- array and map agree

  predicate Registered(s: State, fd: int)
    requires fd in s.chans
  {
    var c := s.chans[fd];
    c.fd == fd && 0 <= IndexOf(s, c) < |s.slots| && Decode(s.slots[IndexOf(s, c)].fd) == fd
  }

  /** Slot `i` belongs to the channel it decodes to, has its mask, and is one that
      poll(2) looks at exactly if that mask is not empty. */
  predicate OwnedSlot(s: State, i: int)
    requires 0 <= i < |s.slots|
  {
    var slot := s.slots[i];
    && Decode(slot.fd) in s.chans && IndexOf(s, s.chans[Decode(slot.fd)]) == i
    && MaskOf(s, s.chans[Decode(slot.fd)]) == slot.events
    && (slot.fd >= 0 <==> slot.events != NONE_EVENT)
  }

  /** Map entries and slots are in bijection through the channels' indices. */
  predicate Agreement(s: State) {
    && (forall fd :: fd in s.chans ==> Registered(s, fd))
    && (forall i :: 0 <= i < |s.slots| ==> OwnedSlot(s, i))
  }

  /** A channel changes its mask, then tells the poller. */
  function WithMask(s: State, c: Channel, mask: bv16): State {
    s.(events := s.events[c := mask])
  }

  /** Which updates `updateChannel` lets through: of a channel it has, only those whose
      mask was not empty, but for descriptor 0. */
  lemma UpdateAssertsExactly(s: State, c: Channel, mask: bv16)
    requires Agreement(s)
    ensures UpdateAsserts(WithMask(s, c, mask), c) <==>
      if IndexOf(s, c) < 0 then c.fd !in s.chans
      else c.fd in s.chans && s.chans[c.fd] == c && (MaskOf(s, c) != NONE_EVENT || c.fd == 0)
  {
    if c.fd in s.chans && s.chans[c.fd] == c {
      assert Registered(s, c.fd) && OwnedSlot(s, IndexOf(s, c));
    }
  }

  /** And which removals `removeChannel` does: of the channels it has whose mask is empty. */
  lemma RemoveAssertsExactly(s: State, c: Channel)
    requires Agreement(s)
    ensures RemoveAsserts(s, c) <==> c.fd in s.chans && s.chans[c.fd] == c && MaskOf(s, c) == NONE_EVENT
  {
    if c.fd in s.chans && s.chans[c.fd] == c {
      assert Registered(s, c.fd) && OwnedSlot(s, IndexOf(s, c));
    }
  }

  /** Not the addition of a channel with an empty mask, whose slot would name no descriptor
      (its -1 happens to be what descriptor 0 is ignored with). */
  predicate KeepsSlots(s: State, c: Channel, mask: bv16) {
    c.fd == 0 || IndexOf(s, c) >= 0 || mask != NONE_EVENT
  }

  /** Not the enabling of a channel again, whose slot would stay one that poll(2) ignores. */
  predicate KeepsWatch(s: State, c: Channel, mask: bv16) {
    IndexOf(s, c) >= 0 && MaskOf(s, c) == NONE_EVENT ==> mask == NONE_EVENT
  }

  /** Every other update, and none of these two, keeps the agreement. */
  lemma UpdateKeepsAgreementExactly(s: State, c: Channel, mask: bv16)
    requires Agreement(s) && UpdateAsserts(WithMask(s, c, mask), c)
    ensures Agreement(AfterUpdate(WithMask(s, c, mask), c)) <==> KeepsSlots(s, c, mask) && KeepsWatch(s, c, mask)
  {
    var e := AfterUpdate(WithMask(s, c, mask), c);
    var at := IndexOf(e, c);
    if KeepsSlots(s, c, mask) && KeepsWatch(s, c, mask) {
      forall fd | fd in e.chans ensures Registered(e, fd) {
        if fd in s.chans { assert Registered(s, fd); }
      }
      forall i | 0 <= i < |e.slots| ensures OwnedSlot(e, i) {
        if i < |s.slots| { assert OwnedSlot(s, i); }
      }
    } else {
      if 0 in s.chans { assert Registered(s, 0); }
      if c.fd in s.chans { assert Registered(s, c.fd) && OwnedSlot(s, IndexOf(s, s.chans[c.fd])); }
      assert !OwnedSlot(e, at);
    }
  }

  /** A legal removal always finds the channel it moves, and keeps the agreement. */
  lemma RemoveKeepsAgreement(s: State, c: Channel)
    requires Agreement(s) && RemoveAsserts(s, c)
    ensures RemoveFinds(s, c) && Agreement(AfterRemove(s, c))
  {
    var last := |s.slots| - 1;
    assert OwnedSlot(s, last) && Registered(s, c.fd) && OwnedSlot(s, IndexOf(s, c));
    var e := AfterRemove(s, c);
    forall fd | fd in e.chans ensures Registered(e, fd) {
      assert Registered(s, fd);
    }
    forall i | 0 <= i < |e.slots| ensures OwnedSlot(e, i) {
      assert OwnedSlot(s, i);
    }
  }

  /** The descriptors registered, each with its channel's mask. */
  function Masks(s: State): map<int, bv16> {
    map fd | fd in s.chans :: MaskOf(s, s.chans[fd])
  }

  /** What poll(2) watches. */
  predicate Polled(s: State, fd: int, mask: bv16) {
    fd >= 0 && exists i :: 0 <= i < |s.slots| && s.slots[i].fd == fd && s.slots[i].events == mask
  }

  /** In agreement, poll(2) watches exactly the registered descriptors whose mask is not
      empty, for their masks. */
  lemma PolledExactly(s: State, fd: int, mask: bv16)
    requires Agreement(s)
    ensures Polled(s, fd, mask) <==> mask != NONE_EVENT && fd in Masks(s) && Masks(s)[fd] == mask
  {
    if Polled(s, fd, mask) {
      var i :| 0 <= i < |s.slots| && s.slots[i].fd == fd && s.slots[i].events == mask;
      assert OwnedSlot(s, i);
    }
    if fd in Masks(s) {
      assert Registered(s, fd) && OwnedSlot(s, IndexOf(s, s.chans[fd]));
    }
  }

  /** Updates and removals act on the masks as on a plain map. */
  lemma UpdateSetsMask(s: State, c: Channel, mask: bv16)
    requires Agreement(s) && UpdateAsserts(WithMask(s, c, mask), c)
    ensures Masks(AfterUpdate(WithMask(s, c, mask), c)) == Masks(s)[c.fd := mask]
  {
    var e := AfterUpdate(WithMask(s, c, mask), c);
    forall fd | fd in e.chans ensures Masks(e)[fd] == Masks(s)[c.fd := mask][fd] {
      if fd in s.chans { assert Registered(s, fd); }
    }
    assert Masks(e).Keys == Masks(s)[c.fd := mask].Keys;
  }

  lemma RemoveDropsMask(s: State, c: Channel)
    requires Agreement(s) && RemoveAsserts(s, c) && RemoveFinds(s, c)
    ensures Masks(AfterRemove(s, c)) == Masks(s) - {c.fd}
  {
    var e := AfterRemove(s, c);
    assert e.events == s.events && e.chans == s.chans - {c.fd};
    assert Masks(e).Keys == (Masks(s) - {c.fd}).Keys;
    assert forall fd :: fd in Masks(e) ==> Masks(e)[fd] == (Masks(s) - {c.fd})[fd];
  }

  // ------------------------------------------------------- what the guards prevent

  /** Adding a channel with an empty mask breaks the next removal of another: the source
      then follows a null pointer, or gives descriptor 0's channel the moved slot. */
  lemma EmptyAddBreaksNextRemoval(s: State, c: Channel, d: Channel)
    requires Agreement(s) && UpdateAsserts(WithMask(s, c, NONE_EVENT), c) && !KeepsSlots(s, c, NONE_EVENT)
    requires RemoveAsserts(AfterUpdate(WithMask(s, c, NONE_EVENT), c), d)
    ensures var e := AfterUpdate(WithMask(s, c, NONE_EVENT), c);
            if RemoveFinds(e, d)
            then 0 in e.chans && c.fd in AfterRemove(e, d).chans && !Registered(AfterRemove(e, d), c.fd)
            else 0 !in e.chans - {d.fd}
  {
    var e := AfterUpdate(WithMask(s, c, NONE_EVENT), c);
    if d == c {
      assert false;
    }
    if d.fd in s.chans { assert Registered(s, d.fd); }
  }

  /** Once added with an empty mask, a channel passes every assertion when it is enabled,
      and poll(2) still does not watch it. */
  lemma EmptyAddIsNeverWatched(s: State, c: Channel, mask: bv16, m: bv16)
    requires Agreement(s) && UpdateAsserts(WithMask(s, c, NONE_EVENT), c) && !KeepsSlots(s, c, NONE_EVENT)
    ensures var e := AfterUpdate(WithMask(s, c, NONE_EVENT), c);
            && UpdateAsserts(WithMask(e, c, mask), c)
            && !Polled(AfterUpdate(WithMask(e, c, mask), c), c.fd, m)
  {
    forall i | 0 <= i < |s.slots| ensures s.slots[i].fd != c.fd {
      assert OwnedSlot(s, i);
    }
  }

  /** Nor does it watch descriptor 0 again, the only one that can be re-enabled. */
  lemma ReenabledIsNotWatched(s: State, c: Channel, mask: bv16, m: bv16)
    requires Agreement(s) && UpdateAsserts(WithMask(s, c, mask), c) && !KeepsWatch(s, c, mask)
    ensures c.fd == 0 && !Polled(AfterUpdate(WithMask(s, c, mask), c), c.fd, m)
  {
    assert Registered(s, c.fd) && OwnedSlot(s, IndexOf(s, c));
    forall i | 0 <= i < |s.slots| ensures s.slots[i].fd != c.fd {
      assert OwnedSlot(s, i);
    }
  }

  /** A channel that has an index but is not the one in the map. */
  predicate Retired(s: State, c: Channel) {
    IndexOf(s, c) >= 0 && !(c.fd in s.chans && s.chans[c.fd] == c)
  }

  /** `removeChannel` leaves the channel its index, so that it can never be added again,
      nor removed, whatever the others do. */
  lemma RemovedStaysOut(s: State, c: Channel)
    requires Agreement(s) && RemoveAsserts(s, c) && RemoveFinds(s, c)
    ensures Retired(AfterRemove(s, c), c)
  {
    assert Registered(s, c.fd) && OwnedSlot(s, |s.slots| - 1);
  }

  lemma RetiredForGood(s: State, c: Channel, mask: bv16, d: Channel)
    requires Agreement(s) && Retired(s, c)
    ensures !UpdateAsserts(WithMask(s, c, mask), c) && !RemoveAsserts(s, c)
    ensures UpdateAsserts(WithMask(s, d, mask), d) ==> Retired(AfterUpdate(WithMask(s, d, mask), d), c)
    ensures RemoveAsserts(s, d) && RemoveFinds(s, d) ==> Retired(AfterRemove(s, d), c)
  {
    if RemoveAsserts(s, d) {
      assert OwnedSlot(s, |s.slots| - 1) && Registered(s, d.fd);
    }
  }

  // ------------------------------------------------------------- reporting events

  /** The positions of the slots poll(2) found something for, from `i` on. */
  function ReadyAt(slots: seq<Pollfd>, i: nat): seq<nat>
    decreases |slots| - i
  {
    if i >= |slots| then [] else (if slots[i].revents > 0 then [i] else []) + ReadyAt(slots, i + 1)
  }

  /** `fillActiveChannels` from slot `i`, with `n` ready descriptors still to report. */
  function Active(slots: seq<Pollfd>, chans: map<int, Channel>, i: nat, n: int): seq<Channel>
    decreases |slots| - i
  {
    if n <= 0 || i >= |slots| then []
    else if slots[i].revents > 0 then
      (if slots[i].fd in chans then [chans[slots[i].fd]] else []) + Active(slots, chans, i + 1, n - 1)
    else Active(slots, chans, i + 1, n)
  }

  lemma {:induction false} ReadyAtExactly(slots: seq<Pollfd>, i: nat)
    ensures forall k :: 0 <= k < |ReadyAt(slots, i)| ==> i <= ReadyAt(slots, i)[k] < |slots|
    ensures forall j, k :: 0 <= j < k < |ReadyAt(slots, i)| ==> ReadyAt(slots, i)[j] < ReadyAt(slots, i)[k]
    ensures forall j :: i <= j < |slots| ==> (j in ReadyAt(slots, i) <==> slots[j].revents > 0)
    decreases |slots| - i
  {
    if i < |slots| {
      ReadyAtExactly(slots, i + 1);
    }
  }

  /** Poll(2) finds nothing in a slot with a negative descriptor. */
  predicate IgnoresHoles(s: State) {
    forall i :: 0 <= i < |s.slots| && s.slots[i].revents > 0 ==> s.slots[i].fd >= 0
  }

  lemma {:induction false} ActiveFollowsReady(s: State, i: nat)
    requires Agreement(s) && IgnoresHoles(s)
    ensures var at, active := ReadyAt(s.slots, i), Active(s.slots, s.chans, i, |ReadyAt(s.slots, i)|);
            && |active| == |at|
            && (forall k :: 0 <= k < |at| && at[k] < |s.slots| ==>
                  s.slots[at[k]].fd in s.chans && active[k] == s.chans[s.slots[at[k]].fd])
    decreases |s.slots| - i
  {
    if i < |s.slots| {
      assert OwnedSlot(s, i);
      ActiveFollowsReady(s, i + 1);
      if s.slots[i].revents > 0 {
        var at, rest := ReadyAt(s.slots, i), ReadyAt(s.slots, i + 1);
        assert at == [i] + rest && |at| - 1 == |rest|;
      }
    }
  }

  predicate IsReady(s: State, fd: int)
    requires fd in s.chans
  {
    Registered(s, fd) && s.slots[IndexOf(s, s.chans[fd])].revents > 0
  }

  /** Stopping early loses nothing: the channels reported are exactly those whose slot is
      ready, each once, in the order of the slots. */
  lemma ReportsExactlyTheReady(s: State)
    requires Agreement(s) && IgnoresHoles(s)
    ensures var active := Active(s.slots, s.chans, 0, |ReadyAt(s.slots, 0)|);
            && (forall fd :: fd in s.chans ==> (s.chans[fd] in active <==> IsReady(s, fd)))
            && (forall c :: c in active ==> c.fd in s.chans && s.chans[c.fd] == c)
            && (forall j, k :: 0 <= j < k < |active| ==> IndexOf(s, active[j]) < IndexOf(s, active[k]))
  {
    var at, active := ReadyAt(s.slots, 0), Active(s.slots, s.chans, 0, |ReadyAt(s.slots, 0)|);
    ReadyAtExactly(s.slots, 0);
    ActiveFollowsReady(s, 0);
    forall k | 0 <= k < |at|
      ensures IndexOf(s, active[k]) == at[k] && active[k].fd in s.chans && s.chans[active[k].fd] == active[k]
    {
      assert OwnedSlot(s, at[k]) && s.slots[at[k]].revents > 0;
      assert Registered(s, s.slots[at[k]].fd);
    }
    forall fd | fd in s.chans && IsReady(s, fd) ensures s.chans[fd] in active {
      assert Registered(s, fd) && OwnedSlot(s, IndexOf(s, s.chans[fd]));
      var k :| 0 <= k < |at| && at[k] == IndexOf(s, s.chans[fd]);
      assert active[k] == s.chans[fd];
    }
  }

  /** An update forgets what poll(2) found for the channel, and for no other. */
  lemma UpdateForgetsEvents(s: State, c: Channel, mask: bv16, fd: int)
    requires Agreement(s) && UpdateAsserts(WithMask(s, c, mask), c) && KeepsSlots(s, c, mask)
    requires fd in AfterUpdate(WithMask(s, c, mask), c).chans
    ensures IsReady(AfterUpdate(WithMask(s, c, mask), c), fd) <==> fd != c.fd && IsReady(s, fd)
  {
    var e := AfterUpdate(WithMask(s, c, mask), c);
    if fd != c.fd {
      assert Registered(s, fd) && OwnedSlot(s, IndexOf(s, s.chans[fd]));
      assert IndexOf(e, e.chans[fd]) == IndexOf(s, s.chans[fd]);
    } else if IndexOf(s, c) >= 0 {
      assert Registered(s, fd) && OwnedSlot(s, IndexOf(s, c));
    }
  }

  /** A removal takes it along with the slot it moves. */
  lemma RemoveMovesEvents(s: State, c: Channel, fd: int)
    requires Agreement(s) && RemoveAsserts(s, c) && fd in s.chans && fd != c.fd
    ensures RemoveFinds(s, c) && (IsReady(AfterRemove(s, c), fd) <==> IsReady(s, fd))
  {
    RemoveKeepsAgreement(s, c);
    var e := AfterRemove(s, c);
    assert Registered(s, fd) && Registered(s, c.fd) && Registered(e, fd);
    assert OwnedSlot(s, IndexOf(s, s.chans[fd])) && OwnedSlot(s, |s.slots| - 1);
  }

  lemma FoundInItsSlot(s: State, i: nat)
    requires i < |s.slots| && s.slots[i].fd in s.chans
    ensures Agreement(s) ==> IndexOf(s, s.chans[s.slots[i].fd]) == i
  {
    if Agreement(s) {
      assert OwnedSlot(s, i) && Registered(s, s.slots[i].fd);
    }
  }

  class PollPoller {
    var pollFds: seq<Pollfd>
    var channelMap: map<int, Channel>
    ghost const known: set<Channel>      // the channels of the loop

    ghost function View(): State
      reads this, known
    {
      State(pollFds, channelMap, map c | c in known :: c.index, map c | c in known :: c.events)
    }

    constructor (ghost known: set<Channel>)
      ensures this.known == known && View() == View().(slots := [], chans := map[])
    {
      this.known := known;
      pollFds, channelMap := [], map[];
    }

    method UpdateChannel(channel: Channel)
      requires channel in known && UpdateAsserts(View(), channel)
      modifies `pollFds, `channelMap, channel`index
      ensures View() == AfterUpdate(old(View()), channel)
    {
      if channel.index < 0 {
        assert channel.fd !in channelMap;
        var fd := if channel.IsNoneEvent() then -1 else channel.fd;
        pollFds := pollFds + [Pollfd(fd, channel.events, 0)];
        channel.index := |pollFds| - 1;
        channelMap := channelMap[channel.fd := channel];
      } else {
        assert channel.fd in channelMap && channel == channelMap[channel.fd];
        var index := channel.index;
        assert index >= 0 && index < |pollFds|;
        assert channel.fd == pollFds[index].fd || pollFds[index].fd == -1;
        if channel.IsNoneEvent() {
          pollFds := pollFds[index := pollFds[index].(fd := Ignore(channel.fd))];
        }
        pollFds := pollFds[index := pollFds[index].(events := channel.events, revents := 0)];
      }
    }

    method RemoveChannel(channel: Channel)
      requires channel in known && channelMap.Values <= known
      requires RemoveAsserts(View(), channel) && RemoveFinds(View(), channel)
      modifies `pollFds, `channelMap, known`index
      ensures View() == AfterRemove(old(View()), channel)
    {
      assert channel.fd in channelMap && channelMap[channel.fd] == channel && channel.IsNoneEvent();
      var index := channel.index;
      assert index >= 0 && index < |pollFds|;
      assert pollFds[index].fd == Ignore(channel.fd) && pollFds[index].events == channel.events;
      channelMap := channelMap - {channel.fd};
      if index == |pollFds| - 1 {
        pollFds := pollFds[..|pollFds| - 1];
      } else {
        var fdOfLastEle := pollFds[|pollFds| - 1].fd;
        pollFds := pollFds[index := pollFds[|pollFds| - 1]][|pollFds| - 1 := pollFds[index]];
        if fdOfLastEle < 0 {
          fdOfLastEle := Ignore(fdOfLastEle);
        }
        var moved := channelMap[fdOfLastEle];
        moved.index := index;
        pollFds := pollFds[..|pollFds| - 1];
      }
    }

    method FillActiveChannels(numEvents: int) returns (active: seq<Channel>)
      requires channelMap.Values <= known
      modifies known`currEvents
      ensures active == Active(pollFds, channelMap, 0, numEvents)
      ensures forall c :: c in known && c !in active ==> c.currEvents == old(c.currEvents)
      ensures Agreement(View()) ==>
                forall c :: c in active ==> 0 <= c.index < |pollFds| && c.currEvents == pollFds[c.index].revents
    {
      hide Agreement;
      active := [];
      var n, it := numEvents, 0;
      while n > 0 && it < |pollFds|
        invariant 0 <= it <= |pollFds| && View() == old(View())
        invariant active + Active(pollFds, channelMap, it, n) == Active(pollFds, channelMap, 0, numEvents)
        invariant forall c :: c in known && c !in active ==> c.currEvents == old(c.currEvents)
        invariant Agreement(View()) ==>
          forall c :: c in active ==> 0 <= c.index < it && c.currEvents == pollFds[c.index].revents
        decreases |pollFds| - it
      {
        if pollFds[it].revents > 0 {
          n := n - 1;
          if pollFds[it].fd in channelMap {
            var channel := channelMap[pollFds[it].fd];
            FoundInItsSlot(View(), it);
            channel.currEvents := pollFds[it].revents;
            active := active + [channel];
          }
        }
        it := it + 1;
      }
    }
  }
}
