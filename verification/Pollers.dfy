/** The two pollers under the same client: both refine one map from descriptors to
    masks, and the kernel watches the same descriptors through either. */
module Pollers {
  import opened Channel
  import P = PollPoller
  import E = EpollPoller

  /** A channel changes its mask and calls `updateChannel`, or is removed. */
  datatype Op = Update(c: Channel, mask: bv16) | Remove(c: Channel)

  function PlainNext(masks: map<int, bv16>, op: Op): map<int, bv16> {
    match op
    case Update(c, mask) => masks[c.fd := mask]
    case Remove(c) => masks - {c.fd}
  }

  function PlainRun(masks: map<int, bv16>, run: seq<Op>): map<int, bv16>
    decreases |run|
  {
    if run == [] then masks else PlainRun(PlainNext(masks, run[0]), run[1..])
  }

  predicate PollLegal(s: P.State, op: Op) {
    match op
    case Update(c, mask) => P.UpdateAsserts(P.WithMask(s, c, mask), c)
    case Remove(c) => P.RemoveAsserts(s, c)
  }

  /** In agreement a removal always finds the channel it moves: see
      `PollPoller.RemoveKeepsAgreement`. */
  function PollNext(s: P.State, op: Op): P.State
    requires PollLegal(s, op)
  {
    match op
    case Update(c, mask) => P.AfterUpdate(P.WithMask(s, c, mask), c)
    case Remove(c) => if P.RemoveFinds(s, c) then P.AfterRemove(s, c) else s
  }

  /** No channel is added with an empty mask, and none is enabled again. */
  predicate Careful(s: P.State, op: Op) {
    op.Update? ==> P.KeepsSlots(s, op.c, op.mask) && P.KeepsWatch(s, op.c, op.mask)
  }

  predicate PollRuns(s: P.State, run: seq<Op>)
    decreases |run|
  {
    run == [] || (PollLegal(s, run[0]) && Careful(s, run[0]) && PollRuns(PollNext(s, run[0]), run[1..]))
  }

  function PollAfter(s: P.State, run: seq<Op>): P.State
    requires PollRuns(s, run)
    decreases |run|
  {
    if run == [] then s else PollAfter(PollNext(s, run[0]), run[1..])
  }

  predicate EpollLegal(s: E.State, op: Op) {
    match op
    case Update(c, mask) => E.UpdateAsserts(E.WithMask(s, c, mask), c)
    case Remove(c) => E.RemoveAsserts(s, c)
  }

  function EpollNext(s: E.State, op: Op): E.State
    requires EpollLegal(s, op)
  {
    match op
    case Update(c, mask) => E.AfterUpdate(E.WithMask(s, c, mask), c)
    case Remove(c) => E.AfterRemove(s, c)
  }

  predicate EpollRuns(s: E.State, run: seq<Op>)
    decreases |run|
  {
    run == [] || (EpollLegal(s, run[0]) && EpollRuns(EpollNext(s, run[0]), run[1..]))
  }

  function EpollAfter(s: E.State, run: seq<Op>): E.State
    requires EpollRuns(s, run)
    decreases |run|
  {
    if run == [] then s else EpollAfter(EpollNext(s, run[0]), run[1..])
  }

  /** The kernel accepts the call of epoll_ctl(2) that the step makes, if any. */
  predicate Accepted(s: E.State, op: Op) {
    match op
    case Update(c, mask) => E.CtlLegal(s.kernel, E.UpdateCtl(E.WithMask(s, c, mask), c))
    case Remove(c) => E.IndexOf(s, c) == E.ADDED ==> E.CtlLegal(s.kernel, E.Del(c.fd))
  }

  predicate AllAccepted(s: E.State, run: seq<Op>)
    requires EpollRuns(s, run)
    decreases |run|
  {
    run == [] || (Accepted(s, run[0]) && AllAccepted(EpollNext(s, run[0]), run[1..]))
  }

  /** One step of the poll poller, if careful, refines the map's step. */
  lemma PollStepRefines(s: P.State, op: Op)
    requires P.Agreement(s) && PollLegal(s, op)
    ensures P.Agreement(PollNext(s, op)) <==> Careful(s, op)
    ensures P.Masks(PollNext(s, op)) == PlainNext(P.Masks(s), op)
  {
    hide P.Agreement, P.AfterUpdate, P.AfterRemove, P.Masks, P.UpdateAsserts, P.RemoveAsserts;
    match op
    case Update(c, mask) =>
      P.UpdateKeepsAgreementExactly(s, c, mask);
      P.UpdateSetsMask(s, c, mask);
    case Remove(c) =>
      P.RemoveKeepsAgreement(s, c);
      P.RemoveDropsMask(s, c);
  }

  lemma EpollStepRefines(s: E.State, op: Op)
    requires E.Mirror(s) && EpollLegal(s, op)
    ensures Accepted(s, op) && E.Mirror(EpollNext(s, op))
    ensures E.Masks(EpollNext(s, op)) == PlainNext(E.Masks(s), op)
  {
    hide E.Mirror, E.AfterUpdate, E.AfterRemove, E.Masks, E.UpdateAsserts, E.RemoveAsserts, E.CtlLegal;
    match op
    case Update(c, mask) =>
      E.UpdateIsLegal(s, c, mask);
      E.UpdateMirrors(s, c, mask);
      E.UpdateSetsMask(s, c, mask);
    case Remove(c) =>
      E.RemoveIsLegal(s, c);
      E.RemoveMirrors(s, c);
      E.RemoveDropsMask(s, c);
  }

  /** Over every run the epoll poller's assertions let through, every call of epoll_ctl(2)
      is one the kernel accepts, and poller and kernel refine the map. */
  lemma {:induction false} EpollRunRefines(s: E.State, run: seq<Op>)
    requires E.Mirror(s) && EpollRuns(s, run)
    ensures AllAccepted(s, run) && E.Mirror(EpollAfter(s, run))
    ensures E.Masks(EpollAfter(s, run)) == PlainRun(E.Masks(s), run)
    decreases |run|
  {
    hide E.Mirror, E.Masks, EpollLegal, EpollNext, Accepted;
    if run != [] {
      EpollStepRefines(s, run[0]);
      EpollRunRefines(EpollNext(s, run[0]), run[1..]);
    }
  }

  lemma {:induction false} PollRunRefines(s: P.State, run: seq<Op>)
    requires P.Agreement(s) && PollRuns(s, run)
    ensures P.Agreement(PollAfter(s, run))
    ensures P.Masks(PollAfter(s, run)) == PlainRun(P.Masks(s), run)
    decreases |run|
  {
    hide P.Agreement, P.Masks, PollLegal, PollNext, Careful;
    if run != [] {
      PollStepRefines(s, run[0]);
      PollRunRefines(PollNext(s, run[0]), run[1..]);
    }
  }

  /** The two pollers hold the same channels with the same masks. */
  ghost predicate InStep(p: P.State, e: E.State) {
    P.Agreement(p) && E.Mirror(e) && p.chans == e.chans && p.events == e.events
  }

  /** What the poll poller's assertions let through, the epoll poller's do. */
  lemma PollLegalIsEpollLegal(p: P.State, e: E.State, op: Op)
    requires InStep(p, e) && PollLegal(p, op)
    ensures EpollLegal(e, op)
  {
    match op
    case Update(c, mask) =>
      P.UpdateAssertsExactly(p, c, mask);
      E.UpdateIsLegal(e, c, mask);
      if c.fd in e.chans { assert E.Mirrored(e, c.fd); }
    case Remove(c) =>
      E.RemoveIsLegal(e, c);
      assert E.Mirrored(e, c.fd);
  }

  lemma StepStaysInStep(p: P.State, e: E.State, op: Op)
    requires InStep(p, e) && PollLegal(p, op) && Careful(p, op)
    ensures EpollLegal(e, op) && InStep(PollNext(p, op), EpollNext(e, op))
  {
    PollLegalIsEpollLegal(p, e, op);
    PollStepRefines(p, op);
    EpollStepRefines(e, op);
    SameChannels(p, e, op);
  }

  lemma SameChannels(p: P.State, e: E.State, op: Op)
    requires InStep(p, e) && PollLegal(p, op) && EpollLegal(e, op)
    ensures PollNext(p, op).chans == EpollNext(e, op).chans
    ensures PollNext(p, op).events == EpollNext(e, op).events
  {
    if op.Remove? {
      P.RemoveKeepsAgreement(p, op.c);
    }
    if op.Update? && op.c.fd in p.chans {
      assert P.Registered(p, op.c.fd) && E.Mirrored(e, op.c.fd);
      assert e.chans[op.c.fd := e.chans[op.c.fd]] == e.chans;
    }
  }

  lemma {:induction false} RunsStayInStep(p: P.State, e: E.State, run: seq<Op>)
    requires InStep(p, e) && PollRuns(p, run)
    ensures EpollRuns(e, run) && InStep(PollAfter(p, run), EpollAfter(e, run))
    decreases |run|
  {
    hide InStep, PollLegal, PollNext, EpollLegal, EpollNext, Careful;
    if run != [] {
      StepStaysInStep(p, e, run[0]);
      RunsStayInStep(PollNext(p, run[0]), EpollNext(e, run[0]), run[1..]);
    }
  }

  /** The pollers are interchangeable: a client whose run is legal and careful under the
      poll poller is legal under the epoll poller, and afterwards the kernel watches the
      same descriptors for the same masks through either. */
  lemma PollersWatchTheSame(p: P.State, e: E.State, run: seq<Op>, fd: int, mask: bv16)
    requires p.slots == [] && p.chans == map[] && e.chans == map[] && e.index == map[] && e.kernel == map[]
    requires p.events == e.events && PollRuns(p, run) && mask != NONE_EVENT
    ensures EpollRuns(e, run)
    ensures var watched := PlainRun(map[], run);
            && (P.Polled(PollAfter(p, run), fd, mask) <==> fd in watched && watched[fd] == mask)
            && (fd in EpollAfter(e, run).kernel && EpollAfter(e, run).kernel[fd].events == mask <==>
                  fd in watched && watched[fd] == mask)
  {
    RunsStayInStep(p, e, run);
    PollRunRefines(p, run);
    EpollRunRefines(e, run);
    P.PolledExactly(PollAfter(p, run), fd, mask);
    E.WatchedExactly(EpollAfter(e, run), fd, mask);
    assert P.Masks(p) == map[] && E.Masks(e) == map[];
  }
}
