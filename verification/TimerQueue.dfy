/** The timer queue's own methods (net/timerQueue.cpp), each proved to take the step
    that the state machine of `Timers` takes. */
module TimerQueue {
  import opened Options
  import opened OrderedSet
  import opened Timers

  class TimerQueue {
    var heap: map<Addr, Timer>
    var numCreated: nat
    var waiting: set<Addr>
    var list: seq<Pair>
    var ids: seq<Pair>
    var canceling: set<Pair>
    var calling: bool
    var expired: seq<Pair>
    var begun: nat
    var now: int
    var armed: Option<int>
    ghost var ran: seq<nat>

    ghost function View(): State
      reads this
    {
      State(heap, numCreated, waiting, list, ids, canceling, calling, expired, begun, now, armed, ran)
    }

    constructor ()
      ensures Init(View())
    {
      heap, numCreated, waiting, list, ids, canceling := map[], 0, {}, [], [], {};
      calling, expired, begun, now, armed, ran := false, [], 0, 0, None, [];
    }

    /** `Timer`'s constructor, as `addTimer_mt` calls it. */
    method CreateTimer(addr: Addr, when: int, interval: nat, repeat: bool) returns (sequence: nat)
      requires Shape(View()) && addr > NULLPTR && addr !in heap
      modifies `heap, `numCreated, `waiting
      ensures View() == Created(old(View()), addr, Timer(when, interval, repeat, sequence)) && Shape(View())
      ensures sequence == old(numCreated) + 1
      ensures forall a :: a in old(heap) ==> old(heap)[a].sequence != sequence
    {
      hide Shape, Addrs;
      CreateKeepsShape(View(), addr, Timer(when, interval, repeat, numCreated + 1));
      SequencesKnown(View());
      numCreated := numCreated + 1;
      heap := heap[addr := Timer(when, interval, repeat, numCreated)];
      waiting := waiting + {addr};
      sequence := numCreated;
    }

    method InsertTimer(addr: Addr) returns (earliest: bool)
      requires addr in heap && |list| == |ids|
      requires Insert(ids, Id(heap, addr)).1 && Insert(list, Entry(heap, addr)).1
      modifies `list, `ids
      ensures View() == Inserted(old(View()), addr) && earliest == Earliest(old(View()), addr)
      ensures |list| == |ids|
    {
      earliest := false;
      var expire := heap[addr].expiration;
      if list == [] || expire < list[0].0 {
        earliest := true;
      }
      var resId := Insert(ids, (addr, heap[addr].sequence));
      assert resId.1;
      ids := resId.0;
      var res := Insert(list, (expire, addr));
      assert res.1;
      list := res.0;
      assert |list| == |ids|;
    }

    method AddTimerInLoop(addr: Addr)
      requires Shape(View()) && addr in waiting
      modifies this
      ensures View() == AfterAdd(old(View()), addr) && Shape(View())
    {
      hide Agree, Addrs, Numbered, Distinct, IsEntry, Insert;
      AddKeepsShape(View(), addr);
      SizesAgree(View());
      var expiration := heap[addr].expiration;
      waiting := waiting - {addr};
      var earliest := InsertTimer(addr);
      if earliest {
        armed := Some(expiration);
      }
    }

    method CancelInLoop(addr: Addr, sequence: nat)
      requires Shape(View())
      modifies this
      ensures View() == AfterCancel(old(View()), addr, sequence) && Shape(View())
    {
      hide Agree, Alive, Addrs, Erase, Members;
      CancelKeepsShape(View(), addr, sequence);
      if (addr, sequence) in ids {
        list := Erase(list, (heap[addr].expiration, addr)).0;
        heap := heap - {addr};
        ids := Erase(ids, (addr, sequence)).0;
      } else if calling {
        canceling := canceling + {(addr, sequence)};
      }
      SizesAgree(View());
    }

    /** `getExpired`: takes the entries before the sentry, then erases their ids. */
    method GetExpired(now: int) returns (taken: seq<Pair>)
      requires Shape(View()) && ExpiryAssertion(View(), now)
      modifies `list, `ids
      ensures taken == old(list)[..ExpiredCount(old(View()), now)]
      ensures Addrs(taken) <= heap.Keys
      ensures list == old(list)[ExpiredCount(old(View()), now)..]
      ensures ids == EraseIds(heap, old(ids), taken)
    {
      hide Agree, Erase, LowerBound;
      ghost var s := View();
      BeginFacts(s, now);
      SizesAgree(s);
      var it := LowerBound(list, (now, NULLPTR));
      assert it == |list| || list[it].0 > now;
      taken := list[..it];
      list := list[it..];
      var i := 0;
      assert taken[0..] == taken;
      while i < |taken|
        invariant 0 <= i <= |taken| && Addrs(taken[i..]) <= heap.Keys
        invariant list == s.list[it..] && EraseIdsSucceeds(heap, ids, taken[i..])
        invariant EraseIds(heap, ids, taken[i..]) == EraseIds(heap, s.ids, taken)
      {
        AddrsAt(taken[i..], 0);
        assert taken[i..][1..] == taken[i + 1..];
        var res := Erase(ids, (taken[i].1, heap[taken[i].1].sequence));
        assert res.1 == 1;
        ids := res.0;
        i := i + 1;
      }
    }

    /** `handleRead` up to the callbacks: the descriptor is read, so no arming is pending. */
    method BeginRound(timestamp: int)
      requires Shape(View()) && Enabled(View(), Action.BeginRound(timestamp))
      requires ExpiryAssertion(View(), timestamp)
      modifies this
      ensures View() == AfterBegin(old(View()), timestamp) && Shape(View())
    {
      hide Agree, Addrs, Numbered, Distinct, IsEntry, EraseIds, LowerBound;
      BeginKeepsShape(View(), timestamp);
      armed := None;
      now := timestamp;
      expired := GetExpired(timestamp);
      begun := 0;
      calling := true;
      canceling := {};
    }

    /** `handleRead`'s next callback: its call. */
    method RunNext()
      requires Shape(View()) && Enabled(View(), Action.RunNext)
      modifies `begun, `ran
      ensures View() == Next(old(View()), Action.RunNext) && Shape(View())
    {
      hide Shape, Addrs;
      StepKeepsShape(View(), Action.RunNext);
      ran := ran + [heap[expired[begun].1].sequence];
      begun := begun + 1;
    }

    /** One turn of `reset`'s loop. */
    method ResetTimer(addr: Addr)
      requires addr in heap && |list| == |ids| && ReinsertSucceeds(View(), addr)
      modifies `heap, `list, `ids
      ensures View() == ResetOne(old(View()), addr) && |list| == |ids|
    {
      hide Insert;
      if heap[addr].repeat && (addr, heap[addr].sequence) !in canceling {
        heap := heap[addr := Restarted(heap[addr], now)];
        var _ := InsertTimer(addr);
      } else {
        heap := heap - {addr};
      }
    }

    /** `reset`, as the round's callbacks have all been called. */
    method Reset()
      requires Addrs(expired) <= heap.Keys && Distinct(expired)
      requires Agree(heap, list, ids, Members(View()))
      modifies `heap, `list, `ids, `armed
      ensures View() == Rearmed(ResetAll(old(View()), expired))
    {
      hide Agree, Insert, Members, Addrs, Distinct, ResetSucceeds, ResetOne, ReinsertSucceeds;
      ghost var s := View();
      ResetFacts(s);
      var i := 0;
      assert expired[0..] == expired;
      while i < |expired|
        invariant 0 <= i <= |expired| && Addrs(expired[i..]) <= heap.Keys && Distinct(expired[i..])
        invariant |list| == |ids| && ResetSucceeds(View(), expired[i..]) && armed == s.armed
        invariant ResetAll(View(), expired[i..]) == ResetAll(s, expired)
      {
        var addr := expired[i].1;
        ResetTurn(View(), expired[i..]);
        assert expired[i..][1..] == expired[i + 1..];
        ResetTimer(addr);
        i := i + 1;
      }
      var nextExpiration := 0;
      if list != [] {
        nextExpiration := heap[list[0].1].expiration;
      }
      if nextExpiration > 0 {
        armed := Some(nextExpiration);
      }
    }

    /** `handleRead` after the callbacks. */
    method EndRound()
      requires Shape(View()) && Enabled(View(), Action.EndRound)
      modifies this
      ensures View() == AfterEnd(old(View())) && Shape(View())
    {
      hide Agree, Addrs, Numbered, Distinct, IsEntry, ResetAll;
      EndKeepsShape(View());
      calling := false;
      Reset();
      expired, begun := [], 0;
    }
  }
}
