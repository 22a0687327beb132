/** The sending side of a connection (net/tcpConnection.cpp).  Each event-loop
    callback is one step; a write's outcome is the kernel's choice; what the steps post
    is recorded.  `Callbacks` runs it. */
module SendPath {
  import opened Bytes

  datatype ConnState = CONNECTING | CONNECTED | DISCONNECTING | DISCONNECTED

  /** What a write call comes back with; `Fault` is EPIPE or ECONNRESET. */
  datatype WriteResult = Wrote(n: nat) | WouldBlock | OtherError | Fault

  /** What a step posts to the loop. */
  datatype Posted = WriteComplete | HighWaterMark(n: nat) | ShutdownTask

  const HIGH_WATER_MARK: nat := 64 * 1024 * 1024

  datatype Conn = Conn(
    state: ConnState,
    reading: bool,
    writing: bool,
    sendBuf: seq<byte>,
    notifies: bool,                // a write-complete callback is set
    posted: seq<Posted>,
    shutdowns: nat,                // how often shutdownWrite has been issued
    due: nat,                      // shutdown tasks posted that have not run
    established: bool,             // connectionEstablished has been called
    cutOff: bool,                  // it has been over bytes given and not yet written
    faulted: bool,                 // some send met a fault
    given: seq<byte>,              // every byte sendInLoop took on, in order
    accepted: seq<byte>)           // every byte the kernel took, in order

  datatype Action =
    | Send(message: seq<byte>, result: WriteResult)
    | HandleWrite(result: WriteResult)
    | Shutdown
    | ShutdownInLoop               // a posted shutdown task runs
    | ForceClose
    | HandleClose
    | Establish
    | Destroy
    | StartRead
    | StopRead

  predicate Enabled(c: Conn, a: Action) {
    match a
    case Send(message, result) => result.Wrote? ==> result.n <= |message|
    case HandleWrite(result) => result.Wrote? ==> result.n <= |c.sendBuf|
    case HandleClose => c.state.CONNECTED? || c.state.DISCONNECTED?
    case ShutdownInLoop => c.due > 0
    // the server calls it once, on the connection it has just made
    case Establish => c.state.CONNECTING? && !c.established
    // removing the channel asserts that it has no events left
    case Destroy => c.state.CONNECTED? || (!c.reading && !c.writing)
    case _ => true
  }

  /** Nothing is waiting, so `sendInLoop` may write directly. */
  predicate MayWriteDirectly(c: Conn) {
    !c.writing && c.sendBuf == []
  }

  function SentDirectly(c: Conn, result: WriteResult): nat {
    if MayWriteDirectly(c) && result.Wrote? then result.n else 0
  }

  predicate Completes(c: Conn, message: seq<byte>, result: WriteResult) {
    MayWriteDirectly(c) && result == Wrote(|message|)
  }

  /** The first half of `sendInLoop`: the bytes are taken on and written directly if possible. */
  function AfterDirectWrite(c: Conn, message: seq<byte>, result: WriteResult): Conn
    requires Enabled(c, Send(message, result))
  {
    var sent := SentDirectly(c, result);
    c.(given := c.given + message, accepted := c.accepted + message[..sent],
       faulted := c.faulted || (MayWriteDirectly(c) && result.Fault?),
       posted := if Completes(c, message, result) && c.notifies then c.posted + [WriteComplete] else c.posted)
  }

  /** `sendInLoop` gets as far as buffering a remainder. */
  predicate Remains(c: Conn, message: seq<byte>, result: WriteResult)
    requires Enabled(c, Send(message, result))
  {
    !c.state.DISCONNECTED? && !(MayWriteDirectly(c) && result.Fault?) && SentDirectly(c, result) < |message|
  }

  /** The length the buffer will have with the remainder. */
  function LengthAhead(c: Conn, message: seq<byte>, result: WriteResult): int {
    |c.sendBuf| + |message| - SentDirectly(c, result)
  }

  /** That takes the buffer across the mark. */
  predicate MarkReached(c: Conn, message: seq<byte>, result: WriteResult)
    requires Enabled(c, Send(message, result))
  {
    Remains(c, message, result) && |c.sendBuf| < HIGH_WATER_MARK <= LengthAhead(c, message, result)
  }

  /** `sendInLoop` up to the high-water callback. */
  function Prologue(c: Conn, message: seq<byte>, result: WriteResult): Conn
    requires Enabled(c, Send(message, result))
  {
    var c1 := AfterDirectWrite(c, message, result);
    if MarkReached(c, message, result)
    then c1.(posted := c1.posted + [HighWaterMark(LengthAhead(c, message, result))]) else c1
  }

  /** Its end: what remains is buffered and the write bit turned on. */
  function Epilogue(c: Conn, remainder: seq<byte>): Conn {
    c.(sendBuf := c.sendBuf + remainder, writing := true)
  }

  function AfterSend(c: Conn, message: seq<byte>, result: WriteResult): Conn
    requires Enabled(c, Send(message, result))
  {
    if c.state.DISCONNECTED? then c
    else if Remains(c, message, result) then
      Epilogue(Prologue(c, message, result), message[SentDirectly(c, result)..])
    else Prologue(c, message, result)
  }

  /** `shutdownInLoop`.  Whether it cuts something off shows in the lengths of what was
      given and what was written, in whatever order. */
  function AfterShutdownInLoop(c: Conn): Conn {
    if !c.writing
    then c.(shutdowns := c.shutdowns + 1, cutOff := c.cutOff || (!c.faulted && |c.accepted| < |c.given|))
    else c
  }

  predicate Drains(c: Conn, result: WriteResult) {
    c.writing && c.sendBuf != [] && result == Wrote(|c.sendBuf|)
  }

  /** `handleWrite` up to the write-complete callback, when it drains the buffer. */
  function Drained(c: Conn): Conn {
    c.(accepted := c.accepted + c.sendBuf, sendBuf := [], writing := false,
       posted := if c.notifies then c.posted + [WriteComplete] else c.posted)
  }

  function AfterHandleWrite(c: Conn, result: WriteResult): Conn
    requires Enabled(c, HandleWrite(result))
  {
    if !c.writing || !result.Wrote? || result.n == 0 then c
    else if !Drains(c, result) then
      c.(accepted := c.accepted + c.sendBuf[..result.n], sendBuf := c.sendBuf[result.n..])
    else if c.state.DISCONNECTING? then AfterShutdownInLoop(Drained(c))
    else Drained(c)
  }

  function Next(c: Conn, a: Action): Conn
    requires Enabled(c, a)
  {
    match a
    case Send(message, result) => AfterSend(c, message, result)
    case HandleWrite(result) => AfterHandleWrite(c, result)
    // from another thread; the source stores CONNECTING here, not DISCONNECTING
    case Shutdown =>
      if c.state.CONNECTED?
      then c.(state := CONNECTING, posted := c.posted + [ShutdownTask], due := c.due + 1) else c
    case ShutdownInLoop => AfterShutdownInLoop(c.(due := c.due - 1))
    case ForceClose => if c.state.CONNECTED? || c.state.DISCONNECTING? then c.(state := DISCONNECTING) else c
    case HandleClose => c.(state := DISCONNECTED, reading := false, writing := false)
    case Establish => c.(state := CONNECTED, reading := true, established := true)
    case Destroy =>
      if c.state.CONNECTED? then c.(state := DISCONNECTED, reading := false, writing := false) else c
    case StartRead => c.(reading := true)
    case StopRead => c.(reading := false)
  }

  predicate Init(c: Conn) {
    && c.state.CONNECTING? && !c.reading && !c.writing && c.sendBuf == [] && c.posted == []
    && c.shutdowns == 0 && c.due == 0 && !c.established && !c.cutOff
    && !c.faulted && c.given == [] && c.accepted == []
  }

  predicate Legal(c: Conn, run: seq<Action>)
    decreases |run|
  {
    run == [] || (Enabled(c, run[0]) && Legal(Next(c, run[0]), run[1..]))
  }

  function After(c: Conn, run: seq<Action>): Conn
    requires Legal(c, run)
    decreases |run|
  {
    if run == [] then c else After(Next(c, run[0]), run[1..])
  }

  // -------------------------------------------------------------- conservation

  /** Until a fault, the bytes given are those the kernel took followed by those
      still buffered; and until the connection is down the write bit is on exactly
      while some are. */
  predicate Inv(c: Conn) {
    && (!c.faulted ==> c.given == c.accepted + c.sendBuf)
    && (!c.state.DISCONNECTED? ==> (c.writing <==> c.sendBuf != []))
    && (c.state.DISCONNECTED? ==> !c.writing)
  }

  /** What the first part of a send changes, but for what it posts. */
  lemma PrologueFields(c: Conn, message: seq<byte>, result: WriteResult)
    requires Enabled(c, Send(message, result))
    ensures var c1, sent := Prologue(c, message, result), SentDirectly(c, result);
            && sent <= |message| && (sent > 0 ==> c.sendBuf == [])
            && c1 == c.(given := c.given + message, accepted := c.accepted + message[..sent],
                        faulted := c.faulted || (MayWriteDirectly(c) && result.Fault?), posted := c1.posted)
  {
    hide MarkReached, Completes, Enabled, LengthAhead, SentDirectly, MayWriteDirectly;
    SentFits(c, message, result);
  }

  lemma SentFits(c: Conn, message: seq<byte>, result: WriteResult)
    requires Enabled(c, Send(message, result))
    ensures SentDirectly(c, result) <= |message| && (SentDirectly(c, result) > 0 ==> c.sendBuf == [])
  {
  }

  lemma ProloguePosts(c: Conn, message: seq<byte>, result: WriteResult)
    requires Enabled(c, Send(message, result))
    ensures Prologue(c, message, result).posted
         == if MarkReached(c, message, result) then c.posted + [HighWaterMark(LengthAhead(c, message, result))]
            else if Completes(c, message, result) && c.notifies then c.posted + [WriteComplete]
            else c.posted
  {
    hide LengthAhead;
  }

  /** What is not written and meets no fault is buffered. */
  lemma SendFields(c: Conn, message: seq<byte>, result: WriteResult)
    requires Enabled(c, Send(message, result)) && !c.state.DISCONNECTED?
    ensures var e, c1, sent := AfterSend(c, message, result), Prologue(c, message, result), SentDirectly(c, result);
            && sent <= |message|
            && e == if Remains(c, message, result)
                    then c1.(sendBuf := c.sendBuf + message[sent..], writing := true) else c1
    ensures Remains(c, message, result)
       <==> !(MayWriteDirectly(c) && result.Fault?) && SentDirectly(c, result) < |message|
  {
    PrologueFields(c, message, result);
    hide Prologue;
  }

  lemma SendKeepsInv(c: Conn, message: seq<byte>, result: WriteResult)
    requires Inv(c) && Enabled(c, Send(message, result))
    ensures Inv(AfterSend(c, message, result))
  {
    hide AfterSend, Prologue, Remains, Enabled;
    if c.state.DISCONNECTED? {
      DisconnectedSend(c, message, result);
    } else {
      var sent := SentDirectly(c, result);
      SendFields(c, message, result);
      PrologueFields(c, message, result);
      SplitGiven(c.accepted, c.sendBuf, message, sent);
      assert sent == |message| ==> c.sendBuf + message[sent..] == c.sendBuf;
    }
  }

  lemma DisconnectedSend(c: Conn, message: seq<byte>, result: WriteResult)
    requires Enabled(c, Send(message, result)) && c.state.DISCONNECTED?
    ensures AfterSend(c, message, result) == c
  {
  }

  /** Sending some bytes past a buffer is only sound when the buffer is empty. */
  lemma SplitGiven(accepted: seq<byte>, buffered: seq<byte>, message: seq<byte>, sent: nat)
    requires sent <= |message| && (sent == 0 || buffered == [])
    ensures accepted + buffered + message == accepted + message[..sent] + (buffered + message[sent..])
  {
  }

  lemma WriteKeepsInv(c: Conn, result: WriteResult)
    requires Inv(c) && Enabled(c, HandleWrite(result))
    ensures Inv(AfterHandleWrite(c, result))
  {
    if c.writing && result.Wrote? {
      assert c.accepted + c.sendBuf == c.accepted + c.sendBuf[..result.n] + c.sendBuf[result.n..];
    }
  }

  lemma StepKeepsInv(c: Conn, a: Action)
    requires Inv(c) && Enabled(c, a)
    ensures Inv(Next(c, a))
  {
    hide AfterSend, AfterHandleWrite;
    match a
    case Send(message, result) => SendKeepsInv(c, message, result);
    case HandleWrite(result) => WriteKeepsInv(c, result);
    case _ =>
  }

  lemma {:induction false} RunKeepsInv(c: Conn, run: seq<Action>)
    requires Inv(c) && Legal(c, run)
    ensures Inv(After(c, run))
    decreases |run|
  {
    if run != [] {
      StepKeepsInv(c, run[0]);
      RunKeepsInv(Next(c, run[0]), run[1..]);
    }
  }

  /** No byte is lost, repeated or reordered over any run of callbacks and any
      outcomes of the writes: until a fault the kernel has a prefix of what was given,
      and the rest is buffered with the write bit on. */
  lemma SendPathConserves(c: Conn, run: seq<Action>)
    requires Init(c) && Legal(c, run) && !After(c, run).faulted
    ensures var e := After(c, run);
            && e.accepted <= e.given && e.sendBuf == e.given[|e.accepted|..]
            && (!e.state.DISCONNECTED? ==> (e.writing <==> e.accepted != e.given))
  {
    assert c.accepted + c.sendBuf == [];
    RunKeepsInv(c, run);
  }

  // ------------------------------------------------------------------- the ledger

  /** What a run's actions alone say of the connection, by counting: the bytes given, how
      many the kernel took and how many still wait for it, and what is posted and issued. */
  datatype Ledger = Ledger(
    notifies: bool, state: ConnState, reading: bool, given: seq<byte>, taken: nat, owed: nat,
    posts: seq<Posted>, tasks: nat, shutdowns: nat, faulted: bool)

  /** Of a message, all but `n` bytes wait from now on. */
  function Waits(l: Ledger, message: seq<byte>, n: nat): Ledger
    requires n <= |message|
  {
    var owed := l.owed + |message| - n;
    l.(given := l.given + message, taken := l.taken + n, owed := owed,
       posts := if l.owed < HIGH_WATER_MARK <= owed then l.posts + [HighWaterMark(owed)] else l.posts)
  }

  /** Bytes are written at once if none wait. */
  function Book(l: Ledger, message: seq<byte>, result: WriteResult): Ledger {
    if l.state.DISCONNECTED? then l
    else if l.owed > 0 then Waits(l, message, 0)
    else
      match result
      case Wrote(n) =>
        if n < |message| then Waits(l, message, n)
        else l.(given := l.given + message, taken := l.taken + |message|,
                posts := if l.notifies then l.posts + [WriteComplete] else l.posts)
      case Fault => l.(given := l.given + message, faulted := true)
      case _ => Waits(l, message, 0)
  }

  /** Bytes that waited are written; with none left, a connection that is being closed is
      shut down. */
  function Write(l: Ledger, n: nat): Ledger {
    if l.state.DISCONNECTED? || n > l.owed then l
    else if 0 < n == l.owed then
      l.(taken := l.taken + n, owed := 0,
         posts := if l.notifies then l.posts + [WriteComplete] else l.posts,
         shutdowns := l.shutdowns + if l.state.DISCONNECTING? then 1 else 0)
    else l.(taken := l.taken + n, owed := l.owed - n)
  }

  function Entered(l: Ledger, a: Action): Ledger {
    match a
    case Send(message, result) => Book(l, message, result)
    case HandleWrite(Wrote(n)) => Write(l, n)
    case HandleWrite(_) => l
    case Shutdown =>
      if l.state.CONNECTED? then l.(state := CONNECTING, posts := l.posts + [ShutdownTask], tasks := l.tasks + 1)
      else l
    case ShutdownInLoop =>
      l.(tasks := if l.tasks > 0 then l.tasks - 1 else 0,
         shutdowns := l.shutdowns + if l.state.DISCONNECTED? || l.owed == 0 then 1 else 0)
    case ForceClose => if l.state.CONNECTED? then l.(state := DISCONNECTING) else l
    case HandleClose => l.(state := DISCONNECTED, reading := false)
    case Establish => l.(state := CONNECTED, reading := true)
    case Destroy => if l.state.CONNECTED? then l.(state := DISCONNECTED, reading := false) else l
    case StartRead => l.(reading := true)
    case StopRead => l.(reading := false)
  }

  function Booked(l: Ledger, run: seq<Action>): Ledger
    decreases |run|
  {
    if run == [] then l else Booked(Entered(l, run[0]), run[1..])
  }

  predicate Tallies(c: Conn, l: Ledger) {
    && c.notifies == l.notifies && c.state == l.state && c.reading == l.reading && c.given == l.given
    && |c.accepted| == l.taken && |c.sendBuf| == l.owed && c.faulted == l.faulted
    && c.posted == l.posts && c.due == l.tasks && c.shutdowns == l.shutdowns
  }

  lemma SendTallies(c: Conn, l: Ledger, message: seq<byte>, result: WriteResult)
    requires Inv(c) && Tallies(c, l) && Enabled(c, Send(message, result))
    ensures Tallies(AfterSend(c, message, result), Book(l, message, result))
  {
    hide AfterSend, Prologue, Remains;
    if c.state.DISCONNECTED? {
      DisconnectedSend(c, message, result);
    } else {
      SendFields(c, message, result);
      PrologueFields(c, message, result);
      ProloguePosts(c, message, result);
      SendPosts(c, message, result);
    }
  }

  lemma WriteTallies(c: Conn, l: Ledger, result: WriteResult)
    requires Inv(c) && Tallies(c, l) && Enabled(c, HandleWrite(result))
    ensures Tallies(AfterHandleWrite(c, result), Entered(l, HandleWrite(result)))
  {
    if Drains(c, result) {
      assert AfterHandleWrite(c, result) ==
        if c.state.DISCONNECTING? then AfterShutdownInLoop(Drained(c)) else Drained(c);
    } else {
      hide Drained, AfterShutdownInLoop;
    }
  }

  lemma StepTallies(c: Conn, l: Ledger, a: Action)
    requires Inv(c) && Tallies(c, l) && Enabled(c, a)
    ensures Tallies(Next(c, a), Entered(l, a))
  {
    hide AfterSend, Book, Write, AfterHandleWrite;
    match a
    case Send(message, result) => SendTallies(c, l, message, result);
    case HandleWrite(result) => WriteTallies(c, l, result);
    case _ =>
  }

  lemma {:induction false} RunTallies(c: Conn, l: Ledger, run: seq<Action>)
    requires Inv(c) && Tallies(c, l) && Legal(c, run)
    ensures Tallies(After(c, run), Booked(l, run)) && Inv(After(c, run))
    decreases |run|
  {
    hide Inv, Tallies, Enabled, Next, Entered;
    if run != [] {
      StepKeepsInv(c, run[0]);
      StepTallies(c, l, run[0]);
      RunTallies(Next(c, run[0]), Entered(l, run[0]), run[1..]);
    }
  }

  function Opened(notifies: bool): Ledger {
    Ledger(notifies, CONNECTING, false, [], 0, 0, [], 0, 0, false)
  }

  /** Over every run the connection is what its ledger says: in the ledger's state, reading
      exactly if it says so, given its bytes and holding as many as it has waiting, with
      the write bit on exactly while some wait; and it has posted and issued what the
      ledger says, in that order. */
  lemma ConnectionTallies(c: Conn, run: seq<Action>)
    requires Init(c) && Legal(c, run)
    ensures var e, l := After(c, run), Booked(Opened(c.notifies), run);
            && e.state == l.state && e.reading == l.reading && e.given == l.given && e.faulted == l.faulted
            && |e.accepted| == l.taken && |e.sendBuf| == l.owed
            && e.posted == l.posts && e.due == l.tasks && e.shutdowns == l.shutdowns
            && (e.writing <==> !l.state.DISCONNECTED? && l.owed > 0)
  {
    hide Legal, After, Booked;
    RunTallies(c, Opened(c.notifies), run);
  }

  /** A send posts at most one callback. */
  lemma SendPosts(c: Conn, message: seq<byte>, result: WriteResult)
    requires Enabled(c, Send(message, result))
    ensures AfterSend(c, message, result).posted
         == if c.state.DISCONNECTED? then c.posted else Prologue(c, message, result).posted
  {
    hide Prologue;
  }

  lemma SendCompletesDirectly(c: Conn, message: seq<byte>, result: WriteResult)
    requires Inv(c) && Enabled(c, Send(message, result))
    requires AfterSend(c, message, result).posted == c.posted + [WriteComplete]
    ensures AfterSend(c, message, result).sendBuf == []
  {
    hide AfterSend, Prologue, Remains, Enabled, LengthAhead;
    SendPosts(c, message, result);
    ProloguePosts(c, message, result);
    assert AfterSend(c, message, result).posted[|c.posted|] == WriteComplete;
    SendFields(c, message, result);
    PrologueFields(c, message, result);
  }

  /** A write-complete callback is posted only with nothing left to send. */
  lemma WriteCompleteMeansAllSent(c: Conn, a: Action)
    requires Inv(c) && Enabled(c, a) && c.notifies
    requires Next(c, a).posted == c.posted + [WriteComplete]
    ensures Next(c, a).sendBuf == []
    ensures !Next(c, a).faulted ==> Next(c, a).accepted == Next(c, a).given
  {
    hide AfterSend;
    StepKeepsInv(c, a);
    if a.Send? {
      SendCompletesDirectly(c, a.message, a.result);
    } else {
      assert Next(c, a).posted[|c.posted|] == WriteComplete;
    }
    assert Next(c, a).accepted + [] == Next(c, a).accepted;
  }

  /** The step takes the buffer across the mark. */
  predicate Crosses(c: Conn, a: Action)
    requires Enabled(c, a)
  {
    |c.sendBuf| < HIGH_WATER_MARK <= |Next(c, a).sendBuf|
  }

  lemma SendPostsHighWaterOnCrossing(c: Conn, message: seq<byte>, result: WriteResult, n: nat)
    requires Inv(c) && Enabled(c, Send(message, result))
    ensures var e := AfterSend(c, message, result);
            e.posted == c.posted + [HighWaterMark(n)]
            <==> |c.sendBuf| < HIGH_WATER_MARK <= |e.sendBuf| && n == |e.sendBuf|
  {
    hide AfterSend, Prologue, Enabled;
    var e := AfterSend(c, message, result);
    SendPosts(c, message, result);
    ProloguePosts(c, message, result);
    if c.state.DISCONNECTED? {
      DisconnectedSend(c, message, result);
    } else {
      SendFields(c, message, result);
      PrologueFields(c, message, result);
    }
    if e.posted == c.posted + [HighWaterMark(n)] {
      assert e.posted[|c.posted|] == HighWaterMark(n);
    }
  }

  /** The high-water callback is posted exactly by the step that takes the buffer
      across the mark, with the new length. */
  lemma HighWaterMarkOnCrossing(c: Conn, a: Action, n: nat)
    requires Inv(c) && Enabled(c, a)
    ensures Next(c, a).posted == c.posted + [HighWaterMark(n)]
       <==> Crosses(c, a) && n == |Next(c, a).sendBuf|
  {
    hide AfterSend;
    if a.Send? {
      SendPostsHighWaterOnCrossing(c, a.message, a.result, n);
    } else if Next(c, a).posted != c.posted {
      assert Next(c, a).posted[|c.posted|] != HighWaterMark(n);
    }
  }
}
