/** Callbacks that run in place (net/tcpConnection.cpp).  A callback posted on the loop
    thread runs at once, in the middle of the send or the write that posts it, and may
    send, shut down or close the connection, and so be called again. */
module Callbacks {
  import opened Bytes
  import opened Options
  import opened SendPath

  /** What a callback does to the connection: `send_mt`, `shutdown_mt`, `forceClose` and
      the reading switch, one after the other. */
  datatype Script =
    | Done
    | SendThen(message: seq<byte>, result: WriteResult, calls: Calls, rest: Script)
    | ShutdownThen(rest: Script)
    | ForceCloseThen(rest: Script)
    | ReadThen(on: bool, rest: Script)

  /** What the callbacks of one send do, should it call them. */
  datatype Calls = Calls(onComplete: Script, onHighWater: Script)

  /** No write takes more than it is given. */
  predicate Fits(s: Script) {
    match s
    case Done => true
    case SendThen(message, result, calls, rest) =>
      (result.Wrote? ==> result.n <= |message|) && Fits(calls.onComplete) && Fits(calls.onHighWater) && Fits(rest)
    case ShutdownThen(rest) => Fits(rest)
    case ForceCloseThen(rest) => Fits(rest)
    case ReadThen(_, rest) => Fits(rest)
  }

  predicate CallsFit(calls: Calls) {
    Fits(calls.onComplete) && Fits(calls.onHighWater)
  }

  /** `shutdown_mt` on the loop thread: its task runs at once. */
  function ShutDownInPlace(c: Conn): Conn {
    if c.state.CONNECTED?
    then AfterShutdownInLoop(c.(state := CONNECTING, posted := c.posted + [ShutdownTask])) else c
  }

  /** A callback runs; `send_mt` does nothing unless connected. */
  function RunScript(c: Conn, s: Script): Conn
    requires Fits(s)
    decreases s, 0
  {
    match s
    case Done => c
    case SendThen(message, result, calls, rest) =>
      RunScript(if c.state.CONNECTED? then AfterSendCalling(c, message, result, calls) else c, rest)
    case ShutdownThen(rest) => RunScript(ShutDownInPlace(c), rest)
    case ForceCloseThen(rest) => RunScript(Next(c, ForceClose), rest)
    case ReadThen(on, rest) => RunScript(c.(reading := on), rest)
  }

  /** `sendInLoop` as it is when the callback comes back. */
  function Called(c: Conn, message: seq<byte>, result: WriteResult, calls: Calls): Conn
    requires Enabled(c, Send(message, result)) && CallsFit(calls)
    decreases calls, 0
  {
    var c1 := Prologue(c, message, result);
    if MarkReached(c, message, result) then RunScript(c1, calls.onHighWater)
    else if Completes(c, message, result) && c.notifies then RunScript(c1, calls.onComplete)
    else c1
  }

  /** `sendInLoop` with its callbacks. */
  function AfterSendCalling(c: Conn, message: seq<byte>, result: WriteResult, calls: Calls): Conn
    requires Enabled(c, Send(message, result)) && CallsFit(calls)
    decreases calls, 1
  {
    if c.state.DISCONNECTED? then c
    else if Remains(c, message, result) then
      Epilogue(Called(c, message, result, calls), message[SentDirectly(c, result)..])
    else Called(c, message, result, calls)
  }

  /** `handleWrite` with its callback, which comes before the test of the state. */
  function AfterWriteCalling(c: Conn, result: WriteResult, onComplete: Script): Conn
    requires Enabled(c, HandleWrite(result)) && Fits(onComplete)
  {
    if !Drains(c, result) then AfterHandleWrite(c, result)
    else
      var c2 := AfterDrainCalling(c, onComplete);
      if c2.state.DISCONNECTING? then AfterShutdownInLoop(c2) else c2
  }

  function AfterDrainCalling(c: Conn, onComplete: Script): Conn
    requires Fits(onComplete)
  {
    if c.notifies then RunScript(Drained(c), onComplete) else Drained(c)
  }

  /** Sends and writes with their callbacks, any other callback of the loop thread, which
      nothing follows in the code that calls it, and the other steps. */
  datatype Event =
    | Sends(message: seq<byte>, result: WriteResult, calls: Calls)
    | Writes(result: WriteResult, onComplete: Script)
    | Runs(script: Script)
    | Plain(a: Action)

  predicate EventEnabled(c: Conn, e: Event) {
    match e
    case Sends(message, result, calls) => Enabled(c, Send(message, result)) && CallsFit(calls)
    case Writes(result, onComplete) => Enabled(c, HandleWrite(result)) && Fits(onComplete)
    case Runs(script) => Fits(script)
    case Plain(a) => !a.Send? && !a.HandleWrite? && Enabled(c, a)
  }

  function EventNext(c: Conn, e: Event): Conn
    requires EventEnabled(c, e)
  {
    match e
    case Sends(message, result, calls) => AfterSendCalling(c, message, result, calls)
    case Writes(result, onComplete) => AfterWriteCalling(c, result, onComplete)
    case Runs(script) => RunScript(c, script)
    case Plain(a) => Next(c, a)
  }

  predicate EventsLegal(c: Conn, run: seq<Event>)
    decreases |run|
  {
    run == [] || (EventEnabled(c, run[0]) && EventsLegal(EventNext(c, run[0]), run[1..]))
  }

  function AfterEvents(c: Conn, run: seq<Event>): Conn
    requires EventsLegal(c, run)
    decreases |run|
  {
    if run == [] then c else AfterEvents(EventNext(c, run[0]), run[1..])
  }

  // ------------------------------------------------- what callbacks cannot change

  /** In any state but CONNECTED a callback only switches reading. */
  lemma {:induction false} OnlyConnectedActs(c: Conn, s: Script)
    requires Fits(s) && !c.state.CONNECTED?
    ensures RunScript(c, s) == c.(reading := RunScript(c, s).reading)
    decreases s
  {
    hide AfterSendCalling, AfterSend, AfterHandleWrite;
    match s
    case Done =>
    case SendThen(_, _, _, rest) => OnlyConnectedActs(c, rest);
    case ShutdownThen(rest) => OnlyConnectedActs(c, rest);
    case ForceCloseThen(rest) => OnlyConnectedActs(Next(c, ForceClose), rest);
    case ReadThen(on, rest) => OnlyConnectedActs(c.(reading := on), rest);
  }

  /** Callbacks take bytes on, meet faults and leave CONNECTED for CONNECTING or
      DISCONNECTING, and never back. */
  predicate Follows(c: Conn, e: Conn) {
    && c.given <= e.given && (c.faulted ==> e.faulted)
    && e.due == c.due && e.established == c.established && e.notifies == c.notifies
    && (e.state == c.state || (c.state.CONNECTED? && (e.state.CONNECTING? || e.state.DISCONNECTING?)))
  }

  /** Between two statements of a send, with `owed` bytes of enclosing sends taken on and
      neither written nor buffered: the write bit and the lengths are right. */
  predicate Mid(c: Conn, owed: nat) {
    && (!c.state.DISCONNECTED? ==> (c.writing <==> c.sendBuf != []))
    && (c.state.DISCONNECTED? ==> !c.writing)
    && (!c.faulted ==> |c.given| == |c.accepted| + |c.sendBuf| + owed)
  }

  /** The bytes a send has taken on and not yet buffered as it calls back. */
  function Owes(c: Conn, message: seq<byte>, result: WriteResult): nat
    requires Enabled(c, Send(message, result))
  {
    if Remains(c, message, result) then |message| - SentDirectly(c, result) else 0
  }

  lemma PrologueKeeps(c: Conn, message: seq<byte>, result: WriteResult, owed: nat)
    requires Mid(c, owed) && Enabled(c, Send(message, result)) && !c.state.DISCONNECTED?
    ensures var c1 := Prologue(c, message, result);
            Mid(c1, owed + Owes(c, message, result)) && Follows(c, c1) && c1.state == c.state
  {
    hide Prologue, Enabled;
    PrologueFields(c, message, result);
  }

  lemma {:induction false} ScriptKeeps(c: Conn, s: Script, owed: nat)
    requires Mid(c, owed) && Fits(s)
    ensures Mid(RunScript(c, s), owed) && Follows(c, RunScript(c, s))
    decreases s, 0
  {
    match s
    case Done =>
    case SendThen(message, result, calls, rest) =>
      if c.state.CONNECTED? {
        SendKeeps(c, message, result, calls, owed);
        ScriptKeeps(AfterSendCalling(c, message, result, calls), rest, owed);
      } else {
        ScriptKeeps(c, rest, owed);
      }
    case ShutdownThen(rest) => ScriptKeeps(ShutDownInPlace(c), rest, owed);
    case ForceCloseThen(rest) => ScriptKeeps(Next(c, ForceClose), rest, owed);
    case ReadThen(on, rest) => ScriptKeeps(c.(reading := on), rest, owed);
  }

  lemma {:induction false} CalledKeeps(c: Conn, message: seq<byte>, result: WriteResult, calls: Calls, owed: nat)
    requires Mid(c, owed) && Enabled(c, Send(message, result)) && CallsFit(calls) && !c.state.DISCONNECTED?
    ensures var c2 := Called(c, message, result, calls);
            Mid(c2, owed + Owes(c, message, result)) && Follows(c, c2)
    decreases calls, 0
  {
    hide Prologue, RunScript;
    var c1 := Prologue(c, message, result);
    PrologueKeeps(c, message, result, owed);
    if MarkReached(c, message, result) {
      ScriptKeeps(c1, calls.onHighWater, owed + Owes(c, message, result));
    } else if Completes(c, message, result) && c.notifies {
      ScriptKeeps(c1, calls.onComplete, owed + Owes(c, message, result));
    }
  }

  lemma {:induction false} SendKeeps(c: Conn, message: seq<byte>, result: WriteResult, calls: Calls, owed: nat)
    requires Mid(c, owed) && Enabled(c, Send(message, result)) && CallsFit(calls)
    ensures var e := AfterSendCalling(c, message, result, calls);
            Mid(e, owed) && Follows(c, e)
    decreases calls, 1
  {
    hide Called;
    if !c.state.DISCONNECTED? {
      CalledKeeps(c, message, result, calls, owed);
    }
  }

  // ------------------------------------------------------- shutting down in place

  /** The state in which a `shutdown_mt` of the script takes effect, if one does, and the
      bytes then owed by the sends it is called from. */
  function Moment(c: Conn, s: Script, owed: nat): Option<(Conn, nat)>
    requires Fits(s)
    decreases s, 0
  {
    match s
    case Done => None
    case SendThen(message, result, calls, rest) =>
      if !c.state.CONNECTED? then None
      else
        var inner := SendMoment(c, message, result, calls, owed);
        if inner.Some? then inner else Moment(AfterSendCalling(c, message, result, calls), rest, owed)
    case ShutdownThen(_) => if c.state.CONNECTED? then Some((c, owed)) else None
    case ForceCloseThen(_) => None
    case ReadThen(on, rest) => Moment(c.(reading := on), rest, owed)
  }

  function SendMoment(c: Conn, message: seq<byte>, result: WriteResult, calls: Calls, owed: nat): Option<(Conn, nat)>
    requires Enabled(c, Send(message, result)) && CallsFit(calls)
    decreases calls, 0
  {
    var c1 := Prologue(c, message, result);
    if MarkReached(c, message, result) then Moment(c1, calls.onHighWater, owed + Owes(c, message, result))
    else if Completes(c, message, result) && c.notifies && !c.state.DISCONNECTED? then
      Moment(c1, calls.onComplete, owed)
    else None
  }

  /** There and then `shutdownWrite` is issued exactly if nothing is buffered. */
  predicate IssuesAt(m: Option<(Conn, nat)>) {
    m.Some? && m.value.0.sendBuf == []
  }

  /** And over unsent bytes exactly if a send it is called from still owes some. */
  predicate CutsAt(m: Option<(Conn, nat)>) {
    IssuesAt(m) && m.value.1 > 0 && !m.value.0.faulted
  }

  /** What a moment does to the connection: at most one is issued, and state CONNECTING
      is reached. */
  predicate Takes(c: Conn, e: Conn, m: Option<(Conn, nat)>) {
    && e.shutdowns == c.shutdowns + (if IssuesAt(m) then 1 else 0)
    && (e.cutOff <==> c.cutOff || CutsAt(m))
    && (m.Some? ==> e.state.CONNECTING?)
  }

  lemma {:induction false} ScriptTakes(c: Conn, s: Script, owed: nat)
    requires Mid(c, owed) && Fits(s)
    ensures Takes(c, RunScript(c, s), Moment(c, s, owed))
    decreases s, 0
  {
    hide Mid, AfterSendCalling, SendMoment;
    if !c.state.CONNECTED? {
      OnlyConnectedActs(c, s);
      NoMoment(c, s, owed);
    } else {
      match s
      case Done =>
      case SendThen(message, result, calls, rest) =>
        var e := AfterSendCalling(c, message, result, calls);
        SendKeeps(c, message, result, calls, owed);
        SendTakes(c, message, result, calls, owed);
        ScriptTakes(e, rest, owed);
        if e.state.CONNECTING? {
          OnlyConnectedActs(e, rest);
          NoMoment(e, rest, owed);
        }
      case ShutdownThen(rest) =>
        ShutDownTakes(c, owed);
        OnlyConnectedActs(ShutDownInPlace(c), rest);
      case ForceCloseThen(rest) => OnlyConnectedActs(Next(c, ForceClose), rest);
      case ReadThen(on, rest) =>
        ReadingKeepsMid(c, on, owed);
        ScriptTakes(c.(reading := on), rest, owed);
    }
  }

  lemma ReadingKeepsMid(c: Conn, on: bool, owed: nat)
    requires Mid(c, owed)
    ensures Mid(c.(reading := on), owed)
  {
  }

  lemma ShutDownTakes(c: Conn, owed: nat)
    requires Mid(c, owed) && c.state.CONNECTED?
    ensures Takes(c, ShutDownInPlace(c), Some((c, owed)))
  {
  }

  lemma {:induction false} NoMoment(c: Conn, s: Script, owed: nat)
    requires Fits(s) && !c.state.CONNECTED?
    ensures Moment(c, s, owed).None?
    decreases s
  {
    match s
    case ReadThen(on, rest) => NoMoment(c.(reading := on), rest, owed);
    case _ =>
  }

  lemma {:induction false} SendTakes(c: Conn, message: seq<byte>, result: WriteResult, calls: Calls, owed: nat)
    requires Mid(c, owed) && Enabled(c, Send(message, result)) && CallsFit(calls)
    ensures Takes(c, AfterSendCalling(c, message, result, calls), SendMoment(c, message, result, calls, owed))
    decreases calls, 0
  {
    hide Moment, RunScript, Mid, Prologue, Enabled;
    var c1 := Prologue(c, message, result);
    PrologueFields(c, message, result);
    if !c.state.DISCONNECTED? {
      PrologueKeeps(c, message, result, owed);
      if MarkReached(c, message, result) {
        ScriptTakes(c1, calls.onHighWater, owed + Owes(c, message, result));
      } else if Completes(c, message, result) && c.notifies {
        ScriptTakes(c1, calls.onComplete, owed);
      }
    }
  }

  /** The moment in an event at which a callback's `shutdown_mt` takes effect. */
  function EventMoment(c: Conn, e: Event): Option<(Conn, nat)>
    requires EventEnabled(c, e)
  {
    match e
    case Sends(message, result, calls) => SendMoment(c, message, result, calls, 0)
    case Writes(result, onComplete) =>
      if Drains(c, result) && c.notifies then Moment(Drained(c), onComplete, 0) else None
    case Runs(script) => Moment(c, script, 0)
    case Plain(_) => None
  }

  /** The events that issue `shutdownWrite`: a callback's moment with nothing buffered, the
      task with nothing buffered, and a drain after whose callback the connection is
      DISCONNECTING and nothing is buffered. */
  predicate Issues(c: Conn, e: Event)
    requires EventEnabled(c, e)
  {
    || IssuesAt(EventMoment(c, e))
    || (e == Plain(ShutdownInLoop) && c.sendBuf == [])
    || (e.Writes? && Drains(c, e.result)
        && var c2 := AfterDrainCalling(c, e.onComplete); c2.state.DISCONNECTING? && c2.sendBuf == [])
  }

  lemma DrainTakes(c: Conn, onComplete: Script)
    requires Mid(c, 0) && c.sendBuf != [] && Fits(onComplete) && c.writing
    ensures var c2 := AfterDrainCalling(c, onComplete);
            && Mid(c2, 0) && Follows(c, c2)
            && Takes(c, c2, if c.notifies then Moment(Drained(c), onComplete, 0) else None)
  {
    hide Moment, RunScript;
    assert Mid(Drained(c), 0);
    if c.notifies {
      ScriptKeeps(Drained(c), onComplete, 0);
      ScriptTakes(Drained(c), onComplete, 0);
    }
  }

  lemma WriteKeepsMid(c: Conn, result: WriteResult, onComplete: Script)
    requires Mid(c, 0) && Enabled(c, HandleWrite(result)) && Fits(onComplete)
    ensures Mid(AfterWriteCalling(c, result, onComplete), 0)
  {
    hide RunScript, Moment;
    if Drains(c, result) {
      DrainTakes(c, onComplete);
    }
  }

  lemma PlainKeepsMid(c: Conn, a: Action)
    requires Mid(c, 0) && Enabled(c, a) && !a.Send? && !a.HandleWrite?
    ensures Mid(Next(c, a), 0)
  {
    hide AfterSend, AfterHandleWrite;
  }

  lemma EventKeepsMid(c: Conn, e: Event)
    requires Mid(c, 0) && EventEnabled(c, e)
    ensures Mid(EventNext(c, e), 0)
  {
    hide RunScript, AfterSendCalling, AfterWriteCalling, Next, Mid, Follows;
    match e
    case Sends(message, result, calls) => SendKeeps(c, message, result, calls, 0);
    case Writes(result, onComplete) => WriteKeepsMid(c, result, onComplete);
    case Runs(script) => ScriptKeeps(c, script, 0);
    case Plain(a) => PlainKeepsMid(c, a);
  }

  /** A shutdown task is due only in state CONNECTING, where `shutdown_mt` has put an
      established connection, and only one is. */
  predicate Scheduled(c: Conn) {
    && (c.due > 0 ==> c.due == 1 && c.state.CONNECTING? && c.established)
    && (!c.state.CONNECTING? ==> c.established)
  }

  lemma PlainKeepsScheduled(c: Conn, a: Action)
    requires Scheduled(c) && Enabled(c, a) && !a.Send? && !a.HandleWrite?
    ensures Scheduled(Next(c, a))
  {
    hide AfterSend, AfterHandleWrite;
  }

  lemma WriteFollows(c: Conn, result: WriteResult, onComplete: Script)
    requires Mid(c, 0) && Enabled(c, HandleWrite(result)) && Fits(onComplete)
    ensures Follows(c, AfterWriteCalling(c, result, onComplete))
  {
    hide RunScript, Moment, AfterDrainCalling, Mid;
    if Drains(c, result) {
      DrainIsSound(c, result);
      DrainTakes(c, onComplete);
    }
  }

  lemma FollowerScheduled(c: Conn, e: Conn)
    requires Scheduled(c) && Follows(c, e)
    ensures Scheduled(e)
  {
  }

  lemma EventKeepsScheduled(c: Conn, e: Event)
    requires Mid(c, 0) && Scheduled(c) && EventEnabled(c, e)
    ensures Scheduled(EventNext(c, e))
  {
    hide RunScript, AfterSendCalling, AfterWriteCalling, Next, Mid, Follows, Scheduled;
    match e
    case Sends(message, result, calls) =>
      SendKeeps(c, message, result, calls, 0);
      FollowerScheduled(c, AfterSendCalling(c, message, result, calls));
    case Writes(result, onComplete) =>
      WriteFollows(c, result, onComplete);
      FollowerScheduled(c, AfterWriteCalling(c, result, onComplete));
    case Runs(script) =>
      ScriptKeeps(c, script, 0);
      FollowerScheduled(c, RunScript(c, script));
    case Plain(a) => PlainKeepsScheduled(c, a);
  }

  lemma DrainIsSound(c: Conn, result: WriteResult)
    requires Drains(c, result)
    ensures c.sendBuf != [] && c.writing
  {
  }

  lemma PlainIssues(c: Conn, a: Action)
    requires Mid(c, 0) && Scheduled(c) && Enabled(c, a) && !a.Send? && !a.HandleWrite?
    ensures Next(c, a).shutdowns == c.shutdowns + if a.ShutdownInLoop? && c.sendBuf == [] then 1 else 0
    ensures Next(c, a).cutOff == c.cutOff
  {
    hide AfterSend, AfterHandleWrite;
  }

  lemma WriteIssues(c: Conn, result: WriteResult, onComplete: Script)
    requires Mid(c, 0) && Enabled(c, HandleWrite(result)) && Fits(onComplete)
    ensures var e, w := AfterWriteCalling(c, result, onComplete), Writes(result, onComplete);
            && e.shutdowns == c.shutdowns + (if Issues(c, w) then 1 else 0)
            && (e.cutOff <==> c.cutOff || CutsAt(EventMoment(c, w)))
  {
    hide RunScript, Moment, AfterDrainCalling;
    if Drains(c, result) {
      DrainTakes(c, onComplete);
    }
  }

  /** Which events issue `shutdownWrite`, and which of them over unsent bytes. */
  lemma IssuedExactly(c: Conn, e: Event)
    requires Mid(c, 0) && Scheduled(c) && EventEnabled(c, e)
    ensures EventNext(c, e).shutdowns == c.shutdowns + if Issues(c, e) then 1 else 0
    ensures EventNext(c, e).cutOff <==> c.cutOff || CutsAt(EventMoment(c, e))
  {
    hide RunScript, AfterSendCalling, AfterWriteCalling, SendMoment, Moment, Next, Mid, Scheduled;
    match e
    case Sends(message, result, calls) => SendTakes(c, message, result, calls, 0);
    case Writes(result, onComplete) => WriteIssues(c, result, onComplete);
    case Runs(script) => ScriptTakes(c, script, 0);
    case Plain(a) => PlainIssues(c, a);
  }

  lemma {:induction false} EventsKeepMid(c: Conn, run: seq<Event>)
    requires Mid(c, 0) && Scheduled(c) && EventsLegal(c, run)
    ensures Mid(AfterEvents(c, run), 0) && Scheduled(AfterEvents(c, run))
    decreases |run|
  {
    hide Mid, Scheduled, EventEnabled, EventNext;
    if run != [] {
      EventKeepsMid(c, run[0]);
      EventKeepsScheduled(c, run[0]);
      EventsKeepMid(EventNext(c, run[0]), run[1..]);
    }
  }

  lemma InitIsMid(c: Conn)
    requires Init(c)
    ensures Mid(c, 0) && Scheduled(c)
  {
  }

  /** `shutdownWrite` is issued over bytes given and unsent, after any run, exactly by the
      event in which a callback shuts down with nothing buffered while a send it is called
      from still owes a remainder. */
  lemma ShutdownOverUnsentExactly(c: Conn, run: seq<Event>, e: Event)
    requires Init(c) && EventsLegal(c, run) && EventEnabled(AfterEvents(c, run), e)
    ensures var b := AfterEvents(c, run);
            && EventNext(b, e).shutdowns == b.shutdowns + (if Issues(b, e) then 1 else 0)
            && (EventNext(b, e).cutOff <==> b.cutOff || CutsAt(EventMoment(b, e)))
  {
    hide Init, EventsLegal, AfterEvents, Mid, Scheduled, EventNext;
    InitIsMid(c);
    EventsKeepMid(c, run);
    IssuedExactly(AfterEvents(c, run), e);
  }

  predicate NeverShutsDown(s: Script) {
    match s
    case Done => true
    case SendThen(_, _, calls, rest) =>
      NeverShutsDown(calls.onComplete) && NeverShutsDown(calls.onHighWater) && NeverShutsDown(rest)
    case ShutdownThen(_) => false
    case ForceCloseThen(rest) => NeverShutsDown(rest)
    case ReadThen(_, rest) => NeverShutsDown(rest)
  }

  /** No high-water callback shuts down; others may. */
  predicate Gentle(s: Script) {
    match s
    case Done => true
    case SendThen(_, _, calls, rest) => CallsGentle(calls) && Gentle(rest)
    case ShutdownThen(rest) => Gentle(rest)
    case ForceCloseThen(rest) => Gentle(rest)
    case ReadThen(_, rest) => Gentle(rest)
  }

  predicate CallsGentle(calls: Calls) {
    Gentle(calls.onComplete) && NeverShutsDown(calls.onHighWater)
  }

  predicate EventGentle(e: Event) {
    match e
    case Sends(_, _, calls) => CallsGentle(calls)
    case Writes(_, onComplete) => Gentle(onComplete)
    case Runs(script) => Gentle(script)
    case Plain(_) => true
  }

  lemma {:induction false} NeverMoment(c: Conn, s: Script, owed: nat)
    requires Fits(s) && NeverShutsDown(s)
    ensures Moment(c, s, owed).None?
    decreases s, 0
  {
    match s
    case SendThen(message, result, calls, rest) =>
      if c.state.CONNECTED? {
        var c1 := Prologue(c, message, result);
        if MarkReached(c, message, result) {
          NeverMoment(c1, calls.onHighWater, owed + Owes(c, message, result));
        } else if Completes(c, message, result) && c.notifies {
          NeverMoment(c1, calls.onComplete, owed);
        }
        NeverMoment(AfterSendCalling(c, message, result, calls), rest, owed);
      }
    case ReadThen(on, rest) => NeverMoment(c.(reading := on), rest, owed);
    case _ =>
  }

  lemma {:induction false} GentleMoment(c: Conn, s: Script)
    requires Fits(s) && Gentle(s)
    ensures Moment(c, s, 0).Some? ==> Moment(c, s, 0).value.1 == 0
    decreases s, 0
  {
    match s
    case SendThen(message, result, calls, rest) =>
      if c.state.CONNECTED? {
        GentleSend(c, message, result, calls);
        GentleMoment(AfterSendCalling(c, message, result, calls), rest);
      }
    case ReadThen(on, rest) => GentleMoment(c.(reading := on), rest);
    case _ =>
  }

  lemma {:induction false} GentleSend(c: Conn, message: seq<byte>, result: WriteResult, calls: Calls)
    requires Enabled(c, Send(message, result)) && CallsFit(calls) && CallsGentle(calls)
    ensures var m := SendMoment(c, message, result, calls, 0);
            m.Some? ==> m.value.1 == 0
    decreases calls, 0
  {
    hide Moment, Prologue;
    var c1 := Prologue(c, message, result);
    if MarkReached(c, message, result) {
      NeverMoment(c1, calls.onHighWater, Owes(c, message, result));
    } else if Completes(c, message, result) && c.notifies && !c.state.DISCONNECTED? {
      GentleMoment(c1, calls.onComplete);
    }
  }

  lemma GentleEvent(c: Conn, e: Event)
    requires Mid(c, 0) && Scheduled(c) && EventEnabled(c, e) && EventGentle(e)
    ensures EventNext(c, e).cutOff == c.cutOff
  {
    hide EventNext, Moment, SendMoment, Mid;
    IssuedExactly(c, e);
    match e
    case Sends(message, result, calls) => GentleSend(c, message, result, calls);
    case Writes(result, onComplete) => GentleMoment(Drained(c), onComplete);
    case Runs(script) => GentleMoment(c, script);
    case Plain(_) =>
  }

  lemma {:induction false} GentleRun(c: Conn, run: seq<Event>)
    requires Mid(c, 0) && Scheduled(c) && EventsLegal(c, run)
    requires forall i :: 0 <= i < |run| ==> EventGentle(run[i])
    ensures AfterEvents(c, run).cutOff == c.cutOff
    decreases |run|
  {
    hide Mid, Scheduled, EventEnabled, EventNext, EventGentle;
    if run != [] {
      GentleEvent(c, run[0]);
      EventKeepsMid(c, run[0]);
      EventKeepsScheduled(c, run[0]);
      GentleRun(EventNext(c, run[0]), run[1..]);
    }
  }

  /** So as long as no high-water callback shuts the connection down, `shutdownWrite` is
      never issued with bytes given and unsent, over any run of any other callbacks. */
  lemma ShutdownNeverOverUnsent(c: Conn, run: seq<Event>)
    requires Init(c) && EventsLegal(c, run)
    requires forall i :: 0 <= i < |run| ==> EventGentle(run[i])
    ensures !AfterEvents(c, run).cutOff
  {
    InitIsMid(c);
    GentleRun(c, run);
  }

  /** A high-water callback that does nothing but shut down: `shutdownWrite` comes before
      the remainder is buffered exactly if nothing was buffered when the send began. */
  lemma ShutdownInsideHighWaterExactly(c: Conn, message: seq<byte>, result: WriteResult, onComplete: Script)
    requires Inv(c) && c.state.CONNECTED? && !c.faulted && Fits(onComplete)
    requires Enabled(c, Send(message, result)) && MarkReached(c, message, result)
    ensures var e := AfterSendCalling(c, message, result, Calls(onComplete, ShutdownThen(Done)));
            && e.shutdowns == c.shutdowns + (if c.sendBuf == [] then 1 else 0)
            && (e.cutOff <==> c.cutOff || c.sendBuf == [])
            && (c.sendBuf == [] ==> e.sendBuf == message[SentDirectly(c, result)..] != [])
  {
    var calls := Calls(onComplete, ShutdownThen(Done));
    var c1 := Prologue(c, message, result);
    assert Mid(c, 0);
    SendTakes(c, message, result, calls, 0);
    assert SendMoment(c, message, result, calls, 0) == Some((c1, 0 + Owes(c, message, result)));
    assert RunScript(ShutDownInPlace(c1), Done) == ShutDownInPlace(c1);
    assert Called(c, message, result, calls) == ShutDownInPlace(c1);
  }

  /** It does come to that: a first message longer than the mark, of which one byte goes. */
  lemma ShutdownOverUnsentIsReached(c: Conn, message: seq<byte>, onComplete: Script)
    requires Init(c) && |message| > HIGH_WATER_MARK && Fits(onComplete)
    ensures var run := [Plain(Establish), Sends(message, Wrote(1), Calls(onComplete, ShutdownThen(Done)))];
            EventsLegal(c, run) && AfterEvents(c, run).cutOff
  {
    var first, second := Plain(Establish), Sends(message, Wrote(1), Calls(onComplete, ShutdownThen(Done)));
    var c1 := EventNext(c, first);
    assert c.accepted + c.sendBuf == [];
    ShutdownInsideHighWaterExactly(c1, message, Wrote(1), onComplete);
    hide EventNext;
    var run := [first, second];
    assert run[1..] == [second] && [second][1..] == [];
    assert AfterEvents(c1, [second]) == EventNext(c1, second);
  }

  // ---------------------------------------------------------------- the task runs

  predicate NoTask(run: seq<Event>) {
    forall i :: 0 <= i < |run| ==> run[i] != Plain(ShutdownInLoop)
  }

  lemma ConnectingStep(c: Conn, e: Event)
    requires Mid(c, 0) && Scheduled(c) && c.state.CONNECTING? && c.established
    requires EventEnabled(c, e) && e != Plain(ShutdownInLoop)
    ensures var e' := EventNext(c, e);
            e'.shutdowns == c.shutdowns && e'.due == c.due && e'.state.CONNECTING? && e'.established
  {
    hide RunScript, AfterSendCalling, Moment, SendMoment, Mid;
    match e
    case Sends(message, result, calls) => ConnectingSend(c, message, result, calls);
    case Writes(result, onComplete) =>
      if Drains(c, result) {
        DrainIsSound(c, result);
        DrainTakes(c, onComplete);
        NoMoment(Drained(c), onComplete, 0);
      }
    case Runs(script) => OnlyConnectedActs(c, script);
    case Plain(_) =>
  }

  lemma ConnectingSend(c: Conn, message: seq<byte>, result: WriteResult, calls: Calls)
    requires Mid(c, 0) && c.state.CONNECTING? && Enabled(c, Send(message, result)) && CallsFit(calls)
    ensures var e := AfterSendCalling(c, message, result, calls);
            e.shutdowns == c.shutdowns && e.due == c.due && e.state.CONNECTING? && e.established == c.established
  {
    hide RunScript, AfterSendCalling, Moment, Mid;
    SendKeeps(c, message, result, calls, 0);
    SendTakes(c, message, result, calls, 0);
    var c1 := Prologue(c, message, result);
    if MarkReached(c, message, result) {
      NoMoment(c1, calls.onHighWater, Owes(c, message, result));
    } else {
      NoMoment(c1, calls.onComplete, 0);
    }
  }

  /** State CONNECTING is never left again, and in it nothing but the task that
      `shutdown_mt` posted shuts down. */
  lemma {:induction false} ConnectingNeverShutsDown(c: Conn, run: seq<Event>)
    requires Mid(c, 0) && Scheduled(c) && c.state.CONNECTING? && c.established
    requires EventsLegal(c, run) && (c.due == 0 || NoTask(run))
    ensures var e := AfterEvents(c, run);
            e.shutdowns == c.shutdowns && e.due == c.due && e.state.CONNECTING? && e.established
    decreases |run|
  {
    hide Mid, EventNext;
    if run != [] {
      assert run[0] != Plain(ShutdownInLoop);
      ConnectingStep(c, run[0]);
      EventKeepsMid(c, run[0]);
      EventKeepsScheduled(c, run[0]);
      ConnectingNeverShutsDown(EventNext(c, run[0]), run[1..]);
    }
  }

  /** So `shutdown_mt` from another thread leads to one `shutdownWrite` exactly when
      nothing is buffered as its task runs, whatever happens before the task does; and
      however the buffer drains later, the delayed one never comes. */
  lemma ShutdownHappensExactlyWhenIdle(c: Conn, before: seq<Event>, between: seq<Event>, later: seq<Event>)
    requires Init(c) && EventsLegal(c, before) && AfterEvents(c, before).state.CONNECTED?
    requires EventsLegal(Next(AfterEvents(c, before), Shutdown), between) && NoTask(between)
    requires Enabled(AfterEvents(Next(AfterEvents(c, before), Shutdown), between), ShutdownInLoop)
    requires EventsLegal(Next(AfterEvents(Next(AfterEvents(c, before), Shutdown), between), ShutdownInLoop), later)
    ensures var e := AfterEvents(c, before);
            var m := AfterEvents(Next(e, Shutdown), between);
            AfterEvents(Next(m, ShutdownInLoop), later).shutdowns == e.shutdowns + if m.sendBuf == [] then 1 else 0
  {
    hide EventsLegal, AfterEvents, EventNext;
    InitIsMid(c);
    EventsKeepMid(c, before);
    var e := AfterEvents(c, before);
    EventsKeepMid(Next(e, Shutdown), between);
    ConnectingNeverShutsDown(Next(e, Shutdown), between);
    var m := AfterEvents(Next(e, Shutdown), between);
    ConnectingNeverShutsDown(Next(m, ShutdownInLoop), later);
  }

  // ------------------------------------------------------------- order of the bytes

  /** The bytes taken on from `c` to `e`. */
  function Added(c: Conn, e: Conn): seq<byte> {
    if |c.given| <= |e.given| then e.given[|c.given|..] else []
  }

  predicate Commute(x: seq<byte>, y: seq<byte>) {
    x + y == y + x
  }

  /** What the high-water callback sends could be swapped with the remainder. */
  predicate Swappable(c: Conn, message: seq<byte>, result: WriteResult, calls: Calls)
    requires Enabled(c, Send(message, result)) && CallsFit(calls)
  {
    MarkReached(c, message, result) ==>
      Commute(message[SentDirectly(c, result)..],
              Added(Prologue(c, message, result), Called(c, message, result, calls)))
  }

  /** So it is for every send of the script that a callback interrupts. */
  predicate InOrder(c: Conn, s: Script)
    requires Fits(s)
    decreases s, 0
  {
    match s
    case Done => true
    case SendThen(message, result, calls, rest) =>
      c.state.CONNECTED? ==>
        && NestedInOrder(c, message, result, calls) && Swappable(c, message, result, calls)
        && InOrder(AfterSendCalling(c, message, result, calls), rest)
    case ShutdownThen(rest) => InOrder(ShutDownInPlace(c), rest)
    case ForceCloseThen(rest) => InOrder(Next(c, ForceClose), rest)
    case ReadThen(on, rest) => InOrder(c.(reading := on), rest)
  }

  /** And for every send of the callbacks of a send. */
  predicate NestedInOrder(c: Conn, message: seq<byte>, result: WriteResult, calls: Calls)
    requires Enabled(c, Send(message, result)) && CallsFit(calls)
    decreases calls, 0
  {
    var c1 := Prologue(c, message, result);
    if MarkReached(c, message, result) then InOrder(c1, calls.onHighWater)
    else Completes(c, message, result) && c.notifies ==> InOrder(c1, calls.onComplete)
  }

  /** Until a fault, what was written and buffered from `c` to `e` is what was taken on. */
  predicate Conserves(c: Conn, e: Conn) {
    !e.faulted ==> e.accepted + e.sendBuf == c.accepted + c.sendBuf + Added(c, e)
  }

  lemma Appended(x: seq<byte>, y: seq<byte>, z: seq<byte>)
    ensures x + y + z == x + (y + z) && (x <= x + y) && (x + y)[|x|..] == y
  {
  }

  lemma ConservesOn(c: Conn, d: Conn, e: Conn)
    requires Follows(c, d) && Follows(d, e) && Conserves(c, d) && Conserves(d, e)
    ensures Conserves(c, e)
  {
    var x, y := Added(c, d), Added(d, e);
    assert d.given == c.given + x && e.given == d.given + y;
    Appended(c.given, x, y);
    Appended(c.given, x + y, []);
    Appended(c.accepted + c.sendBuf, x, y);
  }

  lemma {:induction false} ScriptConserves(c: Conn, s: Script, owed: nat)
    requires Mid(c, owed) && Fits(s) && InOrder(c, s)
    ensures Conserves(c, RunScript(c, s))
    decreases s, 0
  {
    hide Mid, AfterSendCalling, NestedInOrder, Swappable, Conserves, Follows;
    if !c.state.CONNECTED? {
      OnlyConnectedActs(c, s);
      NothingConserves(c, RunScript(c, s));
    } else {
      match s
      case Done => NothingConserves(c, c);
      case SendThen(message, result, calls, rest) =>
        var d := AfterSendCalling(c, message, result, calls);
        SendKeeps(c, message, result, calls, owed);
        SendConserves(c, message, result, calls, owed);
        ScriptKeeps(d, rest, owed);
        ScriptConserves(d, rest, owed);
        ConservesOn(c, d, RunScript(d, rest));
      case ShutdownThen(rest) =>
        OnlyConnectedActs(ShutDownInPlace(c), rest);
        NothingConserves(c, RunScript(c, s));
      case ForceCloseThen(rest) =>
        OnlyConnectedActs(Next(c, ForceClose), rest);
        NothingConserves(c, RunScript(c, s));
      case ReadThen(on, rest) =>
        ReadingKeepsMid(c, on, owed);
        ScriptConserves(c.(reading := on), rest, owed);
        ReadingConserves(c, on, RunScript(c, s));
    }
  }

  lemma ReadingConserves(c: Conn, on: bool, e: Conn)
    requires Conserves(c.(reading := on), e)
    ensures Conserves(c, e)
  {
  }

  lemma NothingConserves(c: Conn, e: Conn)
    requires e.given == c.given && e.accepted == c.accepted && e.sendBuf == c.sendBuf
    ensures Conserves(c, e)
  {
    assert c.given[|c.given|..] == [];
    assert c.accepted + c.sendBuf + [] == c.accepted + c.sendBuf;
  }

  lemma {:induction false} CalledConserves(c: Conn, message: seq<byte>, result: WriteResult, calls: Calls, owed: nat)
    requires Mid(c, owed) && Enabled(c, Send(message, result)) && CallsFit(calls) && !c.state.DISCONNECTED?
    requires NestedInOrder(c, message, result, calls)
    ensures var c1, c2 := Prologue(c, message, result), Called(c, message, result, calls);
            Follows(c1, c2) && Conserves(c1, c2)
    decreases calls, 0
  {
    hide Prologue, RunScript, Mid, Conserves, InOrder, Enabled;
    var c1 := Prologue(c, message, result);
    PrologueKeeps(c, message, result, owed);
    if MarkReached(c, message, result) {
      ScriptKeeps(c1, calls.onHighWater, owed + Owes(c, message, result));
      ScriptConserves(c1, calls.onHighWater, owed + Owes(c, message, result));
    } else if Completes(c, message, result) && c.notifies {
      ScriptKeeps(c1, calls.onComplete, owed + Owes(c, message, result));
      ScriptConserves(c1, calls.onComplete, owed + Owes(c, message, result));
    } else {
      NothingConserves(c1, c1);
    }
  }

  /** The bytes of a send: taken on before those of its callback, of which the remainder
      is buffered after them. */
  lemma {:induction false} SendBytes(c: Conn, message: seq<byte>, result: WriteResult, calls: Calls, owed: nat)
    requires Mid(c, owed) && Enabled(c, Send(message, result)) && CallsFit(calls) && !c.state.DISCONNECTED?
    requires NestedInOrder(c, message, result, calls) && !AfterSendCalling(c, message, result, calls).faulted
    ensures var e, n := AfterSendCalling(c, message, result, calls), SentDirectly(c, result);
            var inner := Added(Prologue(c, message, result), Called(c, message, result, calls));
            && n <= |message|
            && e.given == c.given + message + inner
            && e.accepted + e.sendBuf == c.accepted + c.sendBuf + message[..n] + inner + message[n..]
    decreases calls, 1
  {
    hide Prologue, Called, Mid, NestedInOrder, Enabled;
    var c1, c2, n := Prologue(c, message, result), Called(c, message, result, calls), SentDirectly(c, result);
    PrologueFields(c, message, result);
    CalledConserves(c, message, result, calls, owed);
    var inner := Added(c1, c2);
    assert c2.given == c1.given + inner;
    WrittenDirectly(c.accepted, c.sendBuf, message, n);
    if Remains(c, message, result) {
      Regroup(c2.accepted, c2.sendBuf, message[n..]);
    } else {
      assert message[n..] == [];
      assert c2.accepted + c2.sendBuf + [] == c2.accepted + c2.sendBuf;
    }
  }

  lemma {:induction false} SendConserves(c: Conn, message: seq<byte>, result: WriteResult, calls: Calls, owed: nat)
    requires Mid(c, owed) && Enabled(c, Send(message, result)) && CallsFit(calls)
    requires NestedInOrder(c, message, result, calls) && Swappable(c, message, result, calls)
    ensures Conserves(c, AfterSendCalling(c, message, result, calls))
    decreases calls, 2
  {
    hide Prologue, Called, Mid, NestedInOrder, Enabled;
    var e := AfterSendCalling(c, message, result, calls);
    if c.state.DISCONNECTED? {
      NothingConserves(c, e);
    } else if !e.faulted {
      SendBytes(c, message, result, calls, owed);
      var inner := Added(Prologue(c, message, result), Called(c, message, result, calls));
      var n := SentDirectly(c, result);
      RemainderSwaps(c, message, result, calls);
      BytesOvertake(c.accepted + c.sendBuf, message, n, inner);
      Appended(c.given, message, inner);
      Appended(c.given, message + inner, []);
      Appended(c.accepted + c.sendBuf, message, inner);
    }
  }

  /** Without a callback, or a remainder, there is nothing to swap. */
  lemma RemainderSwaps(c: Conn, message: seq<byte>, result: WriteResult, calls: Calls)
    requires Enabled(c, Send(message, result)) && CallsFit(calls) && Swappable(c, message, result, calls)
    requires !c.state.DISCONNECTED? && !AfterSendCalling(c, message, result, calls).faulted
    requires SentDirectly(c, result) <= |message|
    ensures Commute(message[SentDirectly(c, result)..],
                    Added(Prologue(c, message, result), Called(c, message, result, calls)))
  {
  }

  lemma WrittenDirectly(accepted: seq<byte>, buffered: seq<byte>, message: seq<byte>, n: nat)
    requires n <= |message| && (n == 0 || buffered == [])
    ensures accepted + message[..n] + buffered == accepted + buffered + message[..n]
  {
  }

  lemma Regroup(x: seq<byte>, y: seq<byte>, z: seq<byte>)
    ensures x + y + z == x + (y + z)
  {
  }

  lemma BytesOvertake(a: seq<byte>, message: seq<byte>, n: nat, inner: seq<byte>)
    requires n <= |message|
    ensures a + message + inner == a + message[..n] + inner + message[n..]
       <==> message[n..] + inner == inner + message[n..]
  {
    var front, rest := a + message[..n], message[n..];
    assert a + message + inner == front + (rest + inner);
    Regroup(front, inner, rest);
    if front + (rest + inner) == front + (inner + rest) {
      assert rest + inner == (front + (rest + inner))[|front|..];
      assert inner + rest == (front + (inner + rest))[|front|..];
    }
  }

  lemma InvIsMid(c: Conn)
    requires Inv(c)
    ensures Mid(c, 0)
  {
  }

  lemma MidIsInv(c: Conn)
    requires Mid(c, 0)
    ensures Inv(c) <==> c.faulted || c.given == c.accepted + c.sendBuf
  {
  }

  lemma ConservesInv(c: Conn, e: Conn)
    requires Inv(c) && Follows(c, e) && Conserves(c, e) && Mid(e, 0)
    ensures Inv(e)
  {
    assert e.given == c.given + Added(c, e);
  }

  /** What the high-water callback sends overtakes the remainder, whatever was written or
      buffered before and whatever else the callback does: the order survives exactly when
      the two could be swapped. */
  lemma SendInsideHighWaterOvertakes(c: Conn, message: seq<byte>, result: WriteResult, calls: Calls)
    requires Inv(c) && Enabled(c, Send(message, result)) && CallsFit(calls) && MarkReached(c, message, result)
    requires InOrder(Prologue(c, message, result), calls.onHighWater)
    requires !AfterSendCalling(c, message, result, calls).faulted
    ensures var e, rest := AfterSendCalling(c, message, result, calls), message[SentDirectly(c, result)..];
            var c1 := Prologue(c, message, result);
            var inner := Added(c1, RunScript(c1, calls.onHighWater));
            && (e.given == e.accepted + e.sendBuf <==> rest + inner == inner + rest)
            && (Inv(e) <==> rest + inner == inner + rest)
  {
    hide Prologue, RunScript, AfterSendCalling, InOrder, Mid, Enabled, Inv;
    var e, n := AfterSendCalling(c, message, result, calls), SentDirectly(c, result);
    var inner := Added(Prologue(c, message, result), Called(c, message, result, calls));
    InvIsMid(c);
    SendKeeps(c, message, result, calls, 0);
    SendBytes(c, message, result, calls, 0);
    MidIsInv(c);
    MidIsInv(e);
    BytesOvertake(c.given, message, n, inner);
  }

  /** The sends inside the event's callbacks are in order. */
  predicate EventNested(c: Conn, e: Event)
    requires EventEnabled(c, e)
  {
    match e
    case Sends(message, result, calls) => c.state.DISCONNECTED? || NestedInOrder(c, message, result, calls)
    case Writes(result, onComplete) => Drains(c, result) && c.notifies ==> InOrder(Drained(c), onComplete)
    case Runs(script) => InOrder(c, script)
    case Plain(_) => true
  }

  predicate EventSwappable(c: Conn, e: Event)
    requires EventEnabled(c, e)
  {
    e.Sends? ==> Swappable(c, e.message, e.result, e.calls)
  }

  lemma SendKeepsInvExactly(c: Conn, message: seq<byte>, result: WriteResult, calls: Calls)
    requires Inv(c) && Enabled(c, Send(message, result)) && CallsFit(calls)
    requires c.state.DISCONNECTED? || NestedInOrder(c, message, result, calls)
    ensures var e := AfterSendCalling(c, message, result, calls);
            Inv(e) <==> e.faulted || Swappable(c, message, result, calls)
  {
    hide RunScript, InOrder, Mid, Enabled, Inv, Prologue;
    var e := AfterSendCalling(c, message, result, calls);
    InvIsMid(c);
    SendKeeps(c, message, result, calls, 0);
    MidIsInv(e);
    if !c.state.DISCONNECTED? && !e.faulted {
      if MarkReached(c, message, result) {
        SendInsideHighWaterOvertakes(c, message, result, calls);
      } else {
        SendConserves(c, message, result, calls, 0);
        ConservesInv(c, e);
      }
    }
  }

  lemma WriteKeepsInvCalling(c: Conn, result: WriteResult, onComplete: Script)
    requires Inv(c) && Enabled(c, HandleWrite(result)) && Fits(onComplete)
    requires Drains(c, result) && c.notifies ==> InOrder(Drained(c), onComplete)
    ensures Inv(AfterWriteCalling(c, result, onComplete))
  {
    hide RunScript, InOrder, Mid, Moment;
    if Drains(c, result) {
      InvIsMid(c);
      DrainTakes(c, onComplete);
      DrainedIsMid(c);
      if c.notifies {
        ScriptKeeps(Drained(c), onComplete, 0);
        ScriptConserves(Drained(c), onComplete, 0);
        ConservesInv(Drained(c), RunScript(Drained(c), onComplete));
      }
    } else {
      WriteKeepsInv(c, result);
    }
  }

  lemma DrainedIsMid(c: Conn)
    requires Inv(c) && c.writing
    ensures Mid(Drained(c), 0) && Inv(Drained(c))
  {
    assert c.accepted + c.sendBuf + [] == c.accepted + c.sendBuf;
  }

  /** An event whose callbacks' own sends are in order keeps the send path's invariant
      exactly if a fault is met or its high-water callback sends what could be swapped. */
  lemma EventKeepsInvExactly(c: Conn, e: Event)
    requires Inv(c) && EventEnabled(c, e) && EventNested(c, e)
    ensures Inv(EventNext(c, e)) <==> EventNext(c, e).faulted || EventSwappable(c, e)
  {
    hide Inv, RunScript, AfterSendCalling, AfterWriteCalling, InOrder, NestedInOrder, Swappable, Next, Mid;
    match e
    case Sends(message, result, calls) => SendKeepsInvExactly(c, message, result, calls);
    case Writes(result, onComplete) => WriteKeepsInvCalling(c, result, onComplete);
    case Runs(script) =>
      InvIsMid(c);
      ScriptKeeps(c, script, 0);
      ScriptConserves(c, script, 0);
      ConservesInv(c, RunScript(c, script));
    case Plain(a) => StepKeepsInv(c, a);
  }

  predicate AllInOrder(c: Conn, run: seq<Event>)
    requires EventsLegal(c, run)
    decreases |run|
  {
    run == [] ||
    (EventNested(c, run[0]) && EventSwappable(c, run[0]) && AllInOrder(EventNext(c, run[0]), run[1..]))
  }

  lemma {:induction false} EventsKeepInv(c: Conn, run: seq<Event>)
    requires Inv(c) && EventsLegal(c, run) && AllInOrder(c, run)
    ensures Inv(AfterEvents(c, run))
    decreases |run|
  {
    hide Inv, EventEnabled, EventNext, EventNested, EventSwappable;
    if run != [] {
      EventKeepsInvExactly(c, run[0]);
      EventsKeepInv(EventNext(c, run[0]), run[1..]);
    }
  }

  /** With callbacks that do anything, nested to any depth, no byte is lost or reordered
      over a run in which what high-water callbacks send could be swapped with the
      remainders they overtake. */
  lemma CallbacksConserve(c: Conn, run: seq<Event>)
    requires Init(c) && EventsLegal(c, run) && AllInOrder(c, run) && !AfterEvents(c, run).faulted
    ensures var e := AfterEvents(c, run);
            && e.accepted <= e.given && e.sendBuf == e.given[|e.accepted|..]
            && (!e.state.DISCONNECTED? ==> (e.writing <==> e.accepted != e.given))
  {
    assert c.accepted + c.sendBuf == [];
    hide EventsLegal, AfterEvents, AllInOrder;
    EventsKeepInv(c, run);
  }

  // --------------------------------------------------------- without callbacks

  /** A step of `SendPath` is an event whose callbacks do nothing. */
  function Quiet(a: Action): Event {
    match a
    case Send(message, result) => Sends(message, result, Calls(Done, Done))
    case HandleWrite(result) => Writes(result, Done)
    case _ => Plain(a)
  }

  lemma QuietIsPlain(c: Conn, a: Action)
    requires Enabled(c, a)
    ensures EventEnabled(c, Quiet(a)) && EventNext(c, Quiet(a)) == Next(c, a)
    ensures EventNested(c, Quiet(a)) && EventSwappable(c, Quiet(a))
  {
    hide Prologue;
    if a.Send? {
      var c1 := Prologue(c, a.message, a.result);
      assert Called(c, a.message, a.result, Calls(Done, Done)) == c1;
      assert Added(c1, c1) == [];
    }
  }

  function QuietRun(run: seq<Action>): seq<Event> {
    if run == [] then [] else [Quiet(run[0])] + QuietRun(run[1..])
  }

  /** So every run of `SendPath` is one of events, in order. */
  lemma {:induction false} QuietRunsArePlain(c: Conn, run: seq<Action>)
    requires Legal(c, run)
    ensures EventsLegal(c, QuietRun(run)) && AfterEvents(c, QuietRun(run)) == After(c, run)
    ensures AllInOrder(c, QuietRun(run))
    decreases |run|
  {
    hide Enabled, Next, EventEnabled, EventNext, EventNested, EventSwappable, Quiet;
    if run != [] {
      QuietIsPlain(c, run[0]);
      QuietRunsArePlain(Next(c, run[0]), run[1..]);
      assert QuietRun(run)[0] == Quiet(run[0]) && QuietRun(run)[1..] == QuietRun(run[1..]);
    }
  }

  // ------------------------------------------------- callbacks as later steps

  /** No high-water callback, at any depth, does anything. */
  predicate NoHighWater(s: Script) {
    match s
    case Done => true
    case SendThen(_, _, calls, rest) =>
      calls.onHighWater.Done? && NoHighWater(calls.onComplete) && NoHighWater(rest)
    case ShutdownThen(rest) => NoHighWater(rest)
    case ForceCloseThen(rest) => NoHighWater(rest)
    case ReadThen(_, rest) => NoHighWater(rest)
  }

  /** What a callback does as steps of `SendPath`, one after the other: a send is followed
      by those of its write-complete callback, if it calls it. */
  function Flat(c: Conn, s: Script): seq<Action>
    requires Fits(s)
    decreases s, 0
  {
    match s
    case Done => []
    case SendThen(message, result, calls, rest) =>
      if !c.state.CONNECTED? then Flat(c, rest)
      else FlatSend(c, message, result, calls) + Flat(AfterSendCalling(c, message, result, calls), rest)
    case ShutdownThen(rest) =>
      if !c.state.CONNECTED? then Flat(c, rest)
      else [Shutdown, ShutdownInLoop] + Flat(ShutDownInPlace(c), rest)
    case ForceCloseThen(rest) => [ForceClose] + Flat(Next(c, ForceClose), rest)
    case ReadThen(on, rest) => [if on then StartRead else StopRead] + Flat(c.(reading := on), rest)
  }

  function FlatSend(c: Conn, message: seq<byte>, result: WriteResult, calls: Calls): seq<Action>
    requires Enabled(c, Send(message, result)) && CallsFit(calls)
    decreases calls, 1
  {
    [Send(message, result)]
    + if !c.state.DISCONNECTED? && c.notifies && Completes(c, message, result)
      then Flat(AfterSend(c, message, result), calls.onComplete) else []
  }

  predicate Reaches(c: Conn, run: seq<Action>, e: Conn) {
    Legal(c, run) && After(c, run) == e
  }

  lemma {:induction false} ReachesOn(c: Conn, first: seq<Action>, d: Conn, rest: seq<Action>, e: Conn)
    requires Reaches(c, first, d) && Reaches(d, rest, e)
    ensures Reaches(c, first + rest, e)
    decreases |first|
  {
    hide Enabled, Next;
    if first == [] {
      assert first + rest == rest;
    } else {
      ReachesOn(Next(c, first[0]), first[1..], d, rest, e);
      assert (first + rest)[1..] == first[1..] + rest;
    }
  }

  lemma OneStep(c: Conn, a: Action)
    requires Enabled(c, a)
    ensures Reaches(c, [a], Next(c, a)) && Reaches(c, [], c)
  {
    hide Enabled, Next;
    var e := Next(c, a);
    assert [a][1..] == [] && Legal(e, []) && After(e, []) == e;
  }

  lemma ShutdownSteps(c: Conn)
    requires c.state.CONNECTED?
    ensures Reaches(c, [Shutdown, ShutdownInLoop], ShutDownInPlace(c))
  {
    hide AfterShutdownInLoop;
    var c1 := Next(c, Shutdown);
    OneStep(c, Shutdown);
    OneStep(c1, ShutdownInLoop);
    ReachesOn(c, [Shutdown], c1, [ShutdownInLoop], Next(c1, ShutdownInLoop));
    assert [Shutdown] + [ShutdownInLoop] == [Shutdown, ShutdownInLoop];
    assert c1.(due := c1.due - 1) == c.(state := CONNECTING, posted := c.posted + [ShutdownTask]);
  }

  lemma PlainSend(c: Conn, message: seq<byte>, result: WriteResult, calls: Calls)
    requires Enabled(c, Send(message, result)) && CallsFit(calls) && calls.onHighWater.Done?
    ensures AfterSendCalling(c, message, result, calls)
         == if !c.state.DISCONNECTED? && c.notifies && Completes(c, message, result)
            then RunScript(AfterSend(c, message, result), calls.onComplete) else AfterSend(c, message, result)
  {
    hide Prologue, Epilogue, LengthAhead;
    if Completes(c, message, result) {
      assert !Remains(c, message, result);
    } else {
      assert Called(c, message, result, calls) == Prologue(c, message, result);
    }
  }

  lemma {:induction false} FlatSendRuns(c: Conn, message: seq<byte>, result: WriteResult, calls: Calls)
    requires Enabled(c, Send(message, result)) && CallsFit(calls)
    requires calls.onHighWater.Done? && NoHighWater(calls.onComplete)
    ensures Reaches(c, FlatSend(c, message, result, calls), AfterSendCalling(c, message, result, calls))
    decreases calls, 1
  {
    hide AfterSend, AfterSendCalling, RunScript, Flat, Completes, Reaches;
    var e, a := AfterSend(c, message, result), Send(message, result);
    PlainSend(c, message, result, calls);
    OneStep(c, a);
    if !c.state.DISCONNECTED? && c.notifies && Completes(c, message, result) {
      FlatRuns(e, calls.onComplete);
      ReachesOn(c, [a], e, Flat(e, calls.onComplete), RunScript(e, calls.onComplete));
    } else {
      assert [a] + [] == [a];
    }
  }

  lemma {:induction false} FlatRuns(c: Conn, s: Script)
    requires Fits(s) && NoHighWater(s)
    ensures Reaches(c, Flat(c, s), RunScript(c, s))
    decreases s, 0
  {
    hide AfterSendCalling, FlatSend, Reaches, AfterSend, AfterHandleWrite;
    match s
    case Done => OneStep(c, StartRead);
    case SendThen(message, result, calls, rest) =>
      if c.state.CONNECTED? {
        var e := AfterSendCalling(c, message, result, calls);
        FlatSendRuns(c, message, result, calls);
        FlatRuns(e, rest);
        ReachesOn(c, FlatSend(c, message, result, calls), e, Flat(e, rest), RunScript(e, rest));
      } else {
        FlatRuns(c, rest);
      }
    case ShutdownThen(rest) =>
      if c.state.CONNECTED? {
        var e := ShutDownInPlace(c);
        ShutdownSteps(c);
        FlatRuns(e, rest);
        ReachesOn(c, [Shutdown, ShutdownInLoop], e, Flat(e, rest), RunScript(e, rest));
      } else {
        FlatRuns(c, rest);
      }
    case ForceCloseThen(rest) => FlatOn(c, ForceClose, rest);
    case ReadThen(on, rest) => FlatOn(c, if on then StartRead else StopRead, rest);
  }

  lemma {:induction false} FlatOn(c: Conn, a: Action, rest: Script)
    requires Enabled(c, a) && Fits(rest) && NoHighWater(rest)
    ensures Reaches(c, [a] + Flat(Next(c, a), rest), RunScript(Next(c, a), rest))
    decreases rest, 1
  {
    hide Enabled, Next, Flat, RunScript, Reaches;
    OneStep(c, a);
    FlatRuns(Next(c, a), rest);
    ReachesOn(c, [a], Next(c, a), Flat(Next(c, a), rest), RunScript(Next(c, a), rest));
  }

  /** The events whose callbacks could as well come after the code that calls them: no
      high-water callback does anything, and that of a drain does not begin to close. */
  predicate Straight(c: Conn, e: Event)
    requires EventEnabled(c, e)
  {
    match e
    case Sends(_, _, calls) => calls.onHighWater.Done? && NoHighWater(calls.onComplete)
    case Writes(_, onComplete) =>
      onComplete.Done? || (NoHighWater(onComplete) && !c.state.DISCONNECTING?
                           && !AfterDrainCalling(c, onComplete).state.DISCONNECTING?)
    case Runs(script) => NoHighWater(script)
    case Plain(_) => true
  }

  function FlatEvent(c: Conn, e: Event): seq<Action>
    requires EventEnabled(c, e)
  {
    match e
    case Sends(message, result, calls) => FlatSend(c, message, result, calls)
    case Writes(result, onComplete) =>
      [HandleWrite(result)]
      + if Drains(c, result) && c.notifies then Flat(AfterHandleWrite(c, result), onComplete) else []
    case Runs(script) => Flat(c, script)
    case Plain(a) => [a]
  }

  lemma FlatWriteRuns(c: Conn, result: WriteResult, onComplete: Script)
    requires EventEnabled(c, Writes(result, onComplete)) && Straight(c, Writes(result, onComplete))
    ensures Reaches(c, FlatEvent(c, Writes(result, onComplete)), AfterWriteCalling(c, result, onComplete))
  {
    hide AfterShutdownInLoop, Reaches, Flat;
    var e, a := AfterHandleWrite(c, result), HandleWrite(result);
    OneStep(c, a);
    if Drains(c, result) && c.notifies {
      FlatRuns(e, onComplete);
      ReachesOn(c, [a], e, Flat(e, onComplete), RunScript(e, onComplete));
    } else {
      assert [a] + [] == [a];
    }
  }

  lemma FlatEventRuns(c: Conn, e: Event)
    requires EventEnabled(c, e) && Straight(c, e)
    ensures Reaches(c, FlatEvent(c, e), EventNext(c, e))
  {
    hide Reaches, Flat, FlatSend, AfterSendCalling, AfterWriteCalling, RunScript, Next, AfterDrainCalling;
    match e
    case Sends(message, result, calls) => FlatSendRuns(c, message, result, calls);
    case Writes(result, onComplete) => FlatWriteRuns(c, result, onComplete);
    case Runs(script) => FlatRuns(c, script);
    case Plain(a) => OneStep(c, a);
  }

  function FlatRun(c: Conn, run: seq<Event>): seq<Action>
    requires EventsLegal(c, run)
    decreases |run|
  {
    if run == [] then [] else FlatEvent(c, run[0]) + FlatRun(EventNext(c, run[0]), run[1..])
  }

  predicate AllStraight(c: Conn, run: seq<Event>)
    requires EventsLegal(c, run)
    decreases |run|
  {
    run == [] || (Straight(c, run[0]) && AllStraight(EventNext(c, run[0]), run[1..]))
  }

  /** A run of such events is a run of `SendPath`: each callback's calls are steps that come
      after the one that calls it. */
  lemma {:induction false} StraightRunsAreFlat(c: Conn, run: seq<Event>)
    requires EventsLegal(c, run) && AllStraight(c, run)
    ensures Reaches(c, FlatRun(c, run), AfterEvents(c, run))
    decreases |run|
  {
    hide EventEnabled, EventNext, FlatEvent, Straight, Reaches;
    if run == [] {
      OneStep(c, StartRead);
    } else {
      var e := EventNext(c, run[0]);
      FlatEventRuns(c, run[0]);
      StraightRunsAreFlat(e, run[1..]);
      ReachesOn(c, FlatEvent(c, run[0]), e, FlatRun(e, run[1..]), AfterEvents(e, run[1..]));
    }
  }

  /** So the ledger of these steps says what the connection has been given, has written,
      posted and issued, whatever its callbacks do. */
  lemma CallbacksTally(c: Conn, run: seq<Event>)
    requires Init(c) && EventsLegal(c, run) && AllStraight(c, run)
    ensures var e, l := AfterEvents(c, run), Booked(Opened(c.notifies), FlatRun(c, run));
            && e.state == l.state && e.reading == l.reading && e.given == l.given && e.faulted == l.faulted
            && |e.accepted| == l.taken && |e.sendBuf| == l.owed
            && e.posted == l.posts && e.due == l.tasks && e.shutdowns == l.shutdowns
            && (e.writing <==> !l.state.DISCONNECTED? && l.owed > 0)
  {
    hide Init, EventsLegal, AllStraight, AfterEvents, FlatRun, Legal, After, Booked;
    StraightRunsAreFlat(c, run);
    ConnectionTallies(c, FlatRun(c, run));
  }
}
