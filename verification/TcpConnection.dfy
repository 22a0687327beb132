/** The connection's own methods (net/tcpConnection.cpp), each proved to take the step
    that `SendPath` and `Callbacks` take. */
module TcpConnection {
  import opened Bytes
  import opened Buffer
  import opened Callbacks
  import opened Channel
  import opened SendPath

  /** The three ways through `sendInLoop`: all written, a remainder, or neither. */
  lemma CompleteCalls(c: Conn, message: seq<byte>, result: WriteResult, calls: Calls)
    requires Enabled(c, Send(message, result)) && CallsFit(calls) && !c.state.DISCONNECTED?
    requires Completes(c, message, result)
    ensures !Remains(c, message, result)
    ensures var c1 := AfterDirectWrite(c, message, result);
            AfterSendCalling(c, message, result, calls) == if c.notifies then RunScript(c1, calls.onComplete) else c1
  {
  }

  lemma RemainderCalls(c: Conn, message: seq<byte>, result: WriteResult, calls: Calls)
    requires Enabled(c, Send(message, result)) && CallsFit(calls) && !c.state.DISCONNECTED?
    requires !(MayWriteDirectly(c) && result.Fault?) && SentDirectly(c, result) < |message|
    ensures Remains(c, message, result)
    ensures AfterSendCalling(c, message, result, calls)
         == AfterRemainder(AfterDirectWrite(c, message, result), message[SentDirectly(c, result)..], calls.onHighWater)
  {
    hide RunScript, AfterDirectWrite, Epilogue, Enabled;
    DirectWriteKeepsBuffer(c, message, result);
  }

  lemma DirectWriteKeepsBuffer(c: Conn, message: seq<byte>, result: WriteResult)
    requires Enabled(c, Send(message, result))
    ensures AfterDirectWrite(c, message, result).sendBuf == c.sendBuf
    ensures SentDirectly(c, result) <= |message|
  {
    hide Completes;
  }

  /** A remainder crosses the mark, or not, and is buffered. */
  function AfterRemainder(c: Conn, rest: seq<byte>, onHighWater: Script): Conn
    requires Fits(onHighWater)
  {
    var ahead := |c.sendBuf| + |rest|;
    Epilogue(if |c.sendBuf| < HIGH_WATER_MARK <= ahead
             then RunScript(c.(posted := c.posted + [HighWaterMark(ahead)]), onHighWater) else c,
             rest)
  }

  lemma DisconnectedCalls(c: Conn, message: seq<byte>, result: WriteResult, calls: Calls)
    requires Enabled(c, Send(message, result)) && CallsFit(calls)
    ensures c.state.DISCONNECTED? ==>
              !Remains(c, message, result) && AfterSendCalling(c, message, result, calls) == c
  {
  }

  lemma NothingCalls(c: Conn, message: seq<byte>, result: WriteResult, calls: Calls)
    requires Enabled(c, Send(message, result)) && CallsFit(calls) && !c.state.DISCONNECTED?
    requires !Completes(c, message, result)
    requires (MayWriteDirectly(c) && result.Fault?) || SentDirectly(c, result) >= |message|
    ensures !Remains(c, message, result)
    ensures AfterSendCalling(c, message, result, calls) == AfterDirectWrite(c, message, result)
  {
  }

  function AfterFinish(c: Conn, onComplete: Script): Conn
    requires Fits(onComplete)
  {
    var c1 := c.(writing := false);
    if c.notifies then RunScript(c1.(posted := c1.posted + [WriteComplete]), onComplete) else c1
  }

  /** A write that takes something, in the order in which `handleWrite` does it. */
  lemma DrainSteps(c: Conn, result: WriteResult, onComplete: Script)
    requires Enabled(c, HandleWrite(result)) && Fits(onComplete) && c.writing && result.Wrote? && result.n > 0
    ensures var c1 := c.(accepted := c.accepted + c.sendBuf[..result.n], sendBuf := c.sendBuf[result.n..]);
            var c2 := AfterFinish(c1, onComplete);
            AfterWriteCalling(c, result, onComplete)
            == if c1.sendBuf != [] then c1
               else if c2.state.DISCONNECTING? then AfterShutdownInLoop(c2) else c2
  {
    hide RunScript, AfterShutdownInLoop;
    if result.n == |c.sendBuf| {
      assert c.sendBuf[..result.n] == c.sendBuf && c.sendBuf[result.n..] == [];
    }
  }

  lemma NothingWritten(c: Conn, result: WriteResult, onComplete: Script)
    requires Enabled(c, HandleWrite(result)) && Fits(onComplete)
    ensures !c.writing || !result.Wrote? || result.n == 0 ==> AfterWriteCalling(c, result, onComplete) == c
  {
  }

  class TcpConnection {
    var state: ConnState
    const channel: Channel
    const sendBuf: Buffer
    const notifies: bool
    var posted: seq<Posted>
    var shutdowns: nat             // how often the socket has been told
    ghost var due: nat
    ghost var established: bool
    ghost var cutOff: bool
    ghost var faulted: bool
    ghost var given: seq<byte>
    ghost var accepted: seq<byte>

    ghost predicate Valid()
      reads this, sendBuf
    {
      sendBuf.Valid()
    }

    ghost function Repr(): set<object>
      reads this, sendBuf
    {
      {this, channel, sendBuf, sendBuf.vec}
    }

    ghost function View(): Conn
      reads this, channel, sendBuf, sendBuf.vec
      requires Valid()
    {
      Conn(state, channel.IsReading(), channel.IsWriting(), sendBuf.Contents(), notifies, posted,
           shutdowns, due, established, cutOff, faulted, given, accepted)
    }

    constructor (fd: nat, notifies: bool)
      ensures Valid() && fresh(Repr()) && Init(View()) && this.notifies == notifies
    {
      state := CONNECTING;
      channel := new Channel(fd);
      sendBuf := new Buffer();
      this.notifies := notifies;
      posted, shutdowns, due, established := [], 0, 0, false;
      cutOff, faulted, given, accepted := false, false, [], [];
    }

    /** The direct write of `sendInLoop`; says how many bytes went, whether they were all,
        and whether it met a fault. */
    method WriteDirectly(message: seq<byte>, result: WriteResult) returns (sent: nat, complete: bool, fault: bool)
      requires Valid() && Enabled(View(), Send(message, result))
      modifies this`posted, this`faulted, this`given, this`accepted
      ensures Valid() && View() == AfterDirectWrite(old(View()), message, result)
      ensures sent == SentDirectly(old(View()), result)
      ensures complete <==> Completes(old(View()), message, result)
      ensures fault <==> MayWriteDirectly(old(View())) && result.Fault?
    {
      hide Channel.IsReading, Channel.IsWriting;
      sent, complete, fault := 0, false, false;
      if !channel.IsWriting() && sendBuf.ReadableBytes() == 0 {
        match result {
          case Wrote(n) =>
            sent, complete := n, n == |message|;
            if complete && notifies { posted := posted + [WriteComplete]; }
          case Fault => fault := true;
          case _ =>
        }
      }
      given, accepted := given + message, accepted + message[..sent];
      faulted := faulted || fault;
    }

    /** Posts the high-water callback if `remain` more bytes cross the mark. */
    method PostHighWater(remain: nat) returns (reached: bool)
      requires Valid()
      modifies this`posted
      ensures Valid()
      ensures reached <==> |old(View()).sendBuf| < HIGH_WATER_MARK <= |old(View()).sendBuf| + remain
      ensures View() == if reached
                        then old(View()).(posted := old(posted) + [HighWaterMark(|old(View()).sendBuf| + remain)])
                        else old(View())
    {
      hide Channel.IsReading, Channel.IsWriting;
      var oldLen := sendBuf.ReadableBytes();
      reached := oldLen + remain >= HIGH_WATER_MARK && oldLen < HIGH_WATER_MARK;
      if reached {
        posted := posted + [HighWaterMark(oldLen + remain)];
      }
    }

    /** The end of `sendInLoop`. */
    method QueueRemainder(remainder: seq<byte>) returns (strict: bool)
      requires Valid()
      modifies Repr()
      ensures Valid() && fresh(Repr() - old(Repr()))
      ensures View() == Epilogue(old(View()), remainder)
      ensures strict <==> !FillsExactly(old(sendBuf.vec.Length), old(sendBuf.readPos), old(sendBuf.writePos),
                                        |remainder|)
    {
      strict := sendBuf.Append(remainder);
      if !channel.IsWriting() { channel.EnableWrite(); }
    }

    /** `sendInLoop` for what is not written: the callback, if it is called, comes first. */
    method SendRemainder(rest: seq<byte>, onHighWater: Script) returns (strict: bool)
      requires Valid() && Fits(onHighWater)
      modifies Repr()
      ensures Valid() && fresh(Repr() - old(Repr()))
      ensures View() == AfterRemainder(old(View()), rest, onHighWater)
      ensures onHighWater.Done? ==>
        (strict <==> !FillsExactly(old(sendBuf.vec.Length), old(sendBuf.readPos), old(sendBuf.writePos), |rest|))
      decreases onHighWater, 1
    {
      hide Epilogue, RunScript, FillsExactly;
      var reached := PostHighWater(|rest|);
      if reached {
        RunCallback(onHighWater);
      }
      strict := QueueRemainder(rest);
    }

    /** `sendInLoop`, when a direct write would come back with `result`, and with what its
        callbacks do in place.  `strict` is what the append it may end with asserts. */
    method SendInLoop(message: seq<byte>, result: WriteResult, calls: Calls) returns (strict: bool)
      requires Valid() && Enabled(View(), Send(message, result)) && CallsFit(calls)
      modifies Repr()
      ensures Valid() && fresh(Repr() - old(Repr()))
      ensures View() == AfterSendCalling(old(View()), message, result, calls)
      ensures calls == Calls(Done, Done) ==>
        (strict <==> !(Remains(old(View()), message, result)
                       && FillsExactly(old(sendBuf.vec.Length), old(sendBuf.readPos), old(sendBuf.writePos),
                                       |message| - SentDirectly(old(View()), result))))
      decreases calls, 1
    {
      hide AfterDirectWrite, Epilogue, RunScript, Prologue, Called, Remains, MarkReached, Completes, Enabled;
      hide AfterSendCalling, AfterRemainder, MayWriteDirectly, FillsExactly;
      ghost var c := View();
      strict := true;
      DisconnectedCalls(c, message, result, calls);
      if state == DISCONNECTED { return; }
      var sent, complete, fault := WriteDirectly(message, result);
      if complete {
        CompleteCalls(c, message, result, calls);
        if notifies {
          RunCallback(calls.onComplete);
        }
      } else if !fault && sent < |message| {
        RemainderCalls(c, message, result, calls);
        strict := SendRemainder(message[sent..], calls.onHighWater);
      } else {
        NothingCalls(c, message, result, calls);
      }
    }

    /** A callback of the loop thread, from its first call to its return. */
    method RunCallback(script: Script)
      requires Valid() && Fits(script)
      modifies Repr()
      ensures Valid() && fresh(Repr() - old(Repr()))
      ensures View() == RunScript(old(View()), script)
      ensures script.Done? ==>
        && sendBuf.vec == old(sendBuf.vec)
        && sendBuf.readPos == old(sendBuf.readPos) && sendBuf.writePos == old(sendBuf.writePos)
      decreases script, 0
    {
      hide AfterSendCalling, AfterShutdownInLoop;
      match script
      case Done =>
      case SendThen(message, result, calls, rest) =>
        if state == CONNECTED {
          var strict := SendInLoop(message, result, calls);
        }
        RunCallback(rest);
      case ShutdownThen(rest) =>
        ShutdownOnLoop();
        RunCallback(rest);
      case ForceCloseThen(rest) =>
        ForceClose();
        RunCallback(rest);
      case ReadThen(on, rest) =>
        if on { channel.EnableRead(); } else { channel.DisableRead(); }
        RunCallback(rest);
    }

    method ShutdownInLoop()
      requires Valid()
      modifies this`shutdowns, this`cutOff
      ensures Valid() && View() == AfterShutdownInLoop(old(View()))
      ensures shutdowns == if channel.IsWriting() then old(shutdowns) else old(shutdowns) + 1
    {
      if !channel.IsWriting() {
        shutdowns := shutdowns + 1;
        cutOff := cutOff || (!faulted && |accepted| < |given|);
      }
    }

    /** `shutdown_mt` on the loop thread, where its task runs at once. */
    method ShutdownOnLoop()
      requires Valid()
      modifies this`state, this`posted, this`shutdowns, this`cutOff
      ensures Valid() && View() == ShutDownInPlace(old(View()))
    {
      hide AfterShutdownInLoop;
      if state == CONNECTED {
        state := CONNECTING;
        posted := posted + [ShutdownTask];
        ShutdownInLoop();
      }
    }

    method ForceClose()
      requires Valid()
      modifies this`state
      ensures Valid() && View() == Next(old(View()), Action.ForceClose)
      ensures state == if old(state) == CONNECTED then DISCONNECTING else old(state)
    {
      if state == CONNECTED || state == DISCONNECTING {
        state := DISCONNECTING;
      }
    }

    /** The task that `shutdown_mt` posts. */
    method RunShutdownTask()
      requires Valid() && Enabled(View(), Action.ShutdownInLoop)
      modifies this`shutdowns, this`cutOff, this`due
      ensures Valid() && View() == Next(old(View()), Action.ShutdownInLoop)
    {
      due := due - 1;
      ShutdownInLoop();
    }

    /** The kernel has taken the first `n` bytes of the buffer. */
    method Taken(n: nat)
      requires Valid() && n <= sendBuf.ReadableBytes()
      modifies this`accepted, sendBuf
      ensures Valid() && Repr() == old(Repr())
      ensures var c := old(View());
              View() == c.(accepted := c.accepted + c.sendBuf[..n], sendBuf := c.sendBuf[n..])
    {
      hide Channel.IsReading, Channel.IsWriting;
      accepted := accepted + sendBuf.Peek(0, n);
      sendBuf.Retrieve(n);
    }

    /** With nothing left to send, writing is switched off and the callback runs. */
    method FinishDrain(onComplete: Script)
      requires Valid() && Fits(onComplete)
      modifies Repr()
      ensures Valid() && fresh(Repr() - old(Repr()))
      ensures View() == AfterFinish(old(View()), onComplete)
    {
      hide RunScript;
      channel.DisableWrite();
      if notifies {
        posted := posted + [WriteComplete];
        RunCallback(onComplete);
      }
    }

    /** `handleWrite`, when the write comes back with `result`, and with what its callback
        does in place. */
    method HandleWrite(result: WriteResult, onComplete: Script)
      requires Valid() && Enabled(View(), Action.HandleWrite(result)) && Fits(onComplete)
      modifies Repr()
      ensures Valid() && fresh(Repr() - old(Repr()))
      ensures View() == AfterWriteCalling(old(View()), result, onComplete)
    {
      hide AfterWriteCalling, AfterFinish, AfterShutdownInLoop;
      ghost var c := View();
      if channel.IsWriting() {
        if result.Wrote? && result.n > 0 {
          Taken(result.n);
          DrainSteps(c, result, onComplete);
          if sendBuf.ReadableBytes() == 0 {
            FinishDrain(onComplete);
            if state == DISCONNECTING { ShutdownInLoop(); }
          }
          return;
        }
      }
      NothingWritten(c, result, onComplete);
    }

    /** `shutdown_mt` from another thread, storing CONNECTING as the source does. */
    method Shutdown()
      requires Valid()
      modifies this`state, this`posted, this`due
      ensures Valid() && View() == Next(old(View()), Action.Shutdown)
      ensures state == if old(state) == CONNECTED then CONNECTING else old(state)
    {
      if state == CONNECTED {
        state := CONNECTING;
        posted, due := posted + [ShutdownTask], due + 1;
      }
    }

    method HandleClose()
      requires Valid() && Enabled(View(), Action.HandleClose)
      modifies this`state, channel`events
      ensures Valid() && View() == Next(old(View()), Action.HandleClose)
      ensures state == DISCONNECTED && !channel.IsReading() && !channel.IsWriting()
    {
      state := DISCONNECTED;
      channel.DisableAll();
    }

    method ConnectionEstablished()
      requires Valid() && Enabled(View(), Establish)
      modifies this`state, this`established, channel`events
      ensures Valid() && View() == Next(old(View()), Establish)
      ensures state == CONNECTED && channel.IsReading() && (channel.IsWriting() <==> old(channel.IsWriting()))
    {
      assert state == CONNECTING;
      state, established := CONNECTED, true;
      channel.EnableRead();
    }

    method ConnectionDestroyed()
      requires Valid() && Enabled(View(), Destroy)
      modifies this`state, channel`events
      ensures Valid() && View() == Next(old(View()), Destroy)
      ensures state == DISCONNECTED || state == old(state)
      ensures old(state) == CONNECTED ==> state == DISCONNECTED && !channel.IsReading() && !channel.IsWriting()
    {
      if state == CONNECTED {
        state := DISCONNECTED;
        channel.DisableAll();
      }
    }
  }
}
