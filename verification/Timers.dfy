/** The timer queue (net/timerQueue.cpp, net/timer.cpp) over an explicit heap of
    timers, so that deletion and the reuse of addresses are visible. */
module Timers {
  import opened Options
  import opened OrderedSet

  type Addr = int
  const NULLPTR: Addr := 0

  /** A timer object: times in microseconds, `interval` what `addTime` adds. */
  datatype Timer = Timer(expiration: int, interval: nat, repeat: bool, sequence: nat)

  datatype State = State(
    heap: map<Addr, Timer>,        // the Timer objects not yet deleted
    numCreated: nat,               // Timer::s_numCreated
    waiting: set<Addr>,            // created, addTimerInLoop still to run
    list: seq<Pair>,               // m_timerList: (expiration, address)
    ids: seq<Pair>,                // m_timerIdList: (address, sequence)
    canceling: set<Pair>,          // m_cancelingTimers
    calling: bool,                 // m_callingExpiredTimers
    expired: seq<Pair>,            // the round's expired entries
    begun: nat,                    // how many of them have been called
    now: int,                      // the round's timestamp
    armed: Option<int>,            // the last requested arming, until the descriptor is read
    ran: seq<nat>)                 // sequence numbers of every call made

  datatype Action =
    | Create(addr: Addr, when: int, interval: nat, repeat: bool)
    | AddInLoop(addr: Addr)
    | Cancel(addr: Addr, sequence: nat)
    | BeginRound(now: int)         // handleRead up to the callbacks
    | RunNext                      // the next expired timer's callback
    | EndRound                     // handleRead's reset

  function Id(heap: map<Addr, Timer>, a: Addr): Pair
    requires a in heap
  {
    (a, heap[a].sequence)
  }

  function Entry(heap: map<Addr, Timer>, a: Addr): Pair
    requires a in heap
  {
    (heap[a].expiration, a)
  }

  function Addrs(entries: seq<Pair>): set<Addr> {
    if entries == [] then {} else {entries[0].1} + Addrs(entries[1..])
  }

  lemma {:induction false} AddrsAt(entries: seq<Pair>, i: nat)
    requires i < |entries|
    ensures entries[i].1 in Addrs(entries)
  {
    if i > 0 {
      AddrsAt(entries[1..], i - 1);
    }
  }

  lemma {:induction false} AddrsWhere(entries: seq<Pair>, a: Addr) returns (i: nat)
    requires a in Addrs(entries)
    ensures i < |entries| && entries[i].1 == a
  {
    if entries[0].1 == a {
      i := 0;
    } else {
      var j := AddrsWhere(entries[1..], a);
      i := j + 1;
    }
  }

  /** Where `getExpired` cuts the list: before the first entry at or after `(now, nullptr)`. */
  function ExpiredCount(s: State, now: int): nat {
    LowerBound(s.list, (now, NULLPTR))
  }

  /** The assertion in `getExpired`. */
  predicate ExpiryAssertion(s: State, now: int) {
    var n := ExpiredCount(s, now);
    n == |s.list| || s.list[n].0 > now
  }

  predicate Distinct(entries: seq<Pair>) {
    forall i, j :: 0 <= i < j < |entries| ==> entries[i].1 != entries[j].1
  }

  /** The steps the program can be about to take.  The callbacks of a round are any
      steps between its `RunNext`s. */
  predicate Allowed(s: State, a: Action) {
    match a
    case Create(addr, when, interval, repeat) => addr > NULLPTR && addr !in s.heap
    case AddInLoop(addr) => addr in s.waiting
    case Cancel(addr, sequence) => true
    // poll's return time is a valid timestamp
    case BeginRound(now) => !s.calling && now > 0
    case RunNext => s.calling && s.begun < |s.expired|
    case EndRound => s.calling && s.begun == |s.expired|
  }

  /** Every timer the step dereferences is still alive. */
  predicate Safe(s: State, a: Action)
    requires Allowed(s, a)
  {
    match a
    case AddInLoop(addr) => addr in s.heap
    case BeginRound(now) => Addrs(s.list) <= s.heap.Keys
    case RunNext => s.expired[s.begun].1 in s.heap
    case EndRound => Addrs(s.expired) <= s.heap.Keys && Distinct(s.expired)
    case _ => true
  }

  predicate Enabled(s: State, a: Action) {
    Allowed(s, a) && Safe(s, a)
  }

  /** `insert`: both sets take the timer; whether it is now the earliest. */
  function Inserted(s: State, addr: Addr): State
    requires addr in s.heap
  {
    s.(ids := Insert(s.ids, Id(s.heap, addr)).0, list := Insert(s.list, Entry(s.heap, addr)).0)
  }

  predicate Earliest(s: State, addr: Addr)
    requires addr in s.heap
  {
    s.list == [] || s.heap[addr].expiration < s.list[0].0
  }

  function AfterAdd(s: State, addr: Addr): State
    requires addr in s.heap
  {
    var s1 := Inserted(s, addr).(waiting := s.waiting - {addr});
    if Earliest(s, addr) then s1.(armed := Some(s.heap[addr].expiration)) else s1
  }

  function AfterCancel(s: State, addr: Addr, sequence: nat): State {
    if (addr, sequence) in s.ids && addr in s.heap then
      s.(list := Erase(s.list, Entry(s.heap, addr)).0, ids := Erase(s.ids, (addr, sequence)).0,
         heap := s.heap - {addr})
    else if s.calling then s.(canceling := s.canceling + {(addr, sequence)})
    else s
  }

  /** The id entries of `entries` erased, one after the other. */
  function EraseIds(heap: map<Addr, Timer>, ids: seq<Pair>, entries: seq<Pair>): seq<Pair>
    requires Addrs(entries) <= heap.Keys
    decreases |entries|
  {
    if entries == [] then ids
    else
      EraseIds(heap, Erase(ids, Id(heap, entries[0].1)).0, entries[1..])
  }

  function AfterBegin(s: State, now: int): State
    requires Addrs(s.list) <= s.heap.Keys
  {
    var n := ExpiredCount(s, now);
    var expired := s.list[..n];
    AddrsOfPrefix(s.list, n);
    s.(list := s.list[n..], ids := EraseIds(s.heap, s.ids, expired), expired := expired, begun := 0,
       now := now, calling := true, canceling := {}, armed := None)
  }

  lemma {:induction false} AddrsOfPrefix(entries: seq<Pair>, n: nat)
    requires n <= |entries|
    ensures Addrs(entries[..n]) <= Addrs(entries)
    decreases n
  {
    if n > 0 {
      AddrsOfPrefix(entries[1..], n - 1);
      assert entries[..n][1..] == entries[1..][..n - 1];
    }
  }

  /** `Timer::restart`. */
  function Restarted(t: Timer, now: int): Timer {
    t.(expiration := if t.repeat then now + t.interval else 0)
  }

  predicate Survives(s: State, addr: Addr)
    requires addr in s.heap
  {
    s.heap[addr].repeat && Id(s.heap, addr) !in s.canceling
  }

  /** One turn of `reset`'s loop: restart and reinsert, or delete. */
  function ResetOne(s: State, addr: Addr): State
    requires addr in s.heap
  {
    if Survives(s, addr)
    then Inserted(s.(heap := s.heap[addr := Restarted(s.heap[addr], s.now)]), addr)
    else s.(heap := s.heap - {addr})
  }

  lemma DistinctFirst(entries: seq<Pair>)
    requires Distinct(entries) && entries != []
    ensures entries[0].1 !in Addrs(entries[1..]) && Distinct(entries[1..])
  {
    if entries[0].1 in Addrs(entries[1..]) {
      var i := AddrsWhere(entries[1..], entries[0].1);
      assert false;
    }
  }

  function ResetAll(s: State, entries: seq<Pair>): State
    requires Addrs(entries) <= s.heap.Keys && Distinct(entries)
    decreases |entries|
  {
    if entries == [] then s
    else
      DistinctFirst(entries);
      ResetAll(ResetOne(s, entries[0].1), entries[1..])
  }

  /** The end of `reset`: the descriptor is armed for the earliest timer, if that is valid. */
  function Rearmed(s: State): State {
    if s.list != [] && s.list[0].1 in s.heap && s.heap[s.list[0].1].expiration > 0
    then s.(armed := Some(s.heap[s.list[0].1].expiration)) else s
  }

  function AfterEnd(s: State): State
    requires Addrs(s.expired) <= s.heap.Keys && Distinct(s.expired)
  {
    Rearmed(ResetAll(s.(calling := false), s.expired)).(expired := [], begun := 0)
  }

  function Created(s: State, addr: Addr, t: Timer): State {
    s.(heap := s.heap[addr := t], numCreated := s.numCreated + 1, waiting := s.waiting + {addr})
  }

  function Next(s: State, a: Action): State
    requires Enabled(s, a)
  {
    match a
    case Create(addr, when, interval, repeat) =>
      Created(s, addr, Timer(when, interval, repeat, s.numCreated + 1))
    case AddInLoop(addr) => AfterAdd(s, addr)
    case Cancel(addr, sequence) => AfterCancel(s, addr, sequence)
    case BeginRound(now) => AfterBegin(s, now)
    case RunNext => s.(begun := s.begun + 1, ran := s.ran + [s.heap[s.expired[s.begun].1].sequence])
    case EndRound => AfterEnd(s)
  }

  predicate Init(s: State) {
    && s.heap == map[] && s.numCreated == 0 && s.waiting == {} && s.list == [] && s.ids == []
    && s.canceling == {} && !s.calling && s.expired == [] && s.begun == 0 && s.armed.None? && s.ran == []
  }

  predicate Legal(s: State, run: seq<Action>)
    decreases |run|
  {
    run == [] || (Enabled(s, run[0]) && Legal(Next(s, run[0]), run[1..]))
  }

  function After(s: State, run: seq<Action>): State
    requires Legal(s, run)
    decreases |run|
  {
    if run == [] then s else After(Next(s, run[0]), run[1..])
  }

  // ----------------------------------------------------- the two sets agree

  /** The two sets hold exactly the timers `m`, each keyed by its current expiration
      in one and by its sequence number in the other. */
  ghost predicate Agree(heap: map<Addr, Timer>, list: seq<Pair>, ids: seq<Pair>, m: set<Addr>) {
    && m <= heap.Keys
    && Sorted(list) && Sorted(ids) && |list| == |ids| == |m|
    && (forall p :: p in list <==> p.1 in m && p == Entry(heap, p.1))
    && (forall p :: p in ids <==> p.0 in m && p == Id(heap, p.0))
  }

  lemma InsertAgrees(s: State, m: set<Addr>, a: Addr)
    requires Agree(s.heap, s.list, s.ids, m) && a in s.heap && a !in m
    ensures Insert(s.ids, Id(s.heap, a)).1 && Insert(s.list, Entry(s.heap, a)).1
    ensures Agree(s.heap, Inserted(s, a).list, Inserted(s, a).ids, m + {a})
  {
    InsertMembers(s.ids, Id(s.heap, a));
    InsertMembers(s.list, Entry(s.heap, a));
  }

  lemma EraseAgrees(heap: map<Addr, Timer>, list: seq<Pair>, ids: seq<Pair>, m: set<Addr>, a: Addr)
    requires Agree(heap, list, ids, m) && a in m
    ensures Erase(ids, Id(heap, a)).1 == 1 && Erase(list, Entry(heap, a)).1 == 1
    ensures Agree(heap, Erase(list, Entry(heap, a)).0, Erase(ids, Id(heap, a)).0, m - {a})
  {
    assert Id(heap, a) in ids && Entry(heap, a) in list;
    EraseMembers(ids, Id(heap, a));
    EraseMembers(list, Entry(heap, a));
  }

  /** What the sets do not hold may change. */
  lemma AgreeFrame(heap: map<Addr, Timer>, heap': map<Addr, Timer>, list: seq<Pair>, ids: seq<Pair>, m: set<Addr>)
    requires Agree(heap, list, ids, m) && m <= heap'.Keys
    requires forall a :: a in m ==> heap'[a] == heap[a]
    ensures Agree(heap', list, ids, m)
  {
  }

  /** The timers the two sets are meant to hold: those alive, inserted and not in the round. */
  function Members(s: State): set<Addr> {
    s.heap.Keys - s.waiting - Addrs(s.expired)
  }

  /** The timers themselves: those waiting, in the sets and in the round are apart, the
      round's entries are alive and distinct, and no two timers share a sequence number. */
  predicate Alive(s: State) {
    && s.waiting <= s.heap.Keys && Addrs(s.expired) <= s.heap.Keys && s.waiting !! Addrs(s.expired)
    && Distinct(s.expired)
    && (forall i :: 0 <= i < |s.expired| ==> IsEntry(s.heap, s.expired[i]))
    && (!s.calling ==> s.expired == []) && s.begun <= |s.expired|
    && Numbered(s.heap, s.numCreated)
  }

  predicate IsEntry(heap: map<Addr, Timer>, p: Pair) {
    p.1 in heap && p == Entry(heap, p.1)
  }

  predicate Numbered(heap: map<Addr, Timer>, numCreated: nat) {
    && (forall a :: a in heap ==> a > NULLPTR && 1 <= heap[a].sequence <= numCreated)
    && (forall a, b :: a in heap && b in heap && heap[a].sequence == heap[b].sequence ==> a == b)
  }

  lemma NumberedFrame(heap: map<Addr, Timer>, heap': map<Addr, Timer>, numCreated: nat)
    requires Numbered(heap, numCreated) && heap'.Keys <= heap.Keys
    requires forall a :: a in heap' ==> heap'[a].sequence == heap[a].sequence
    ensures Numbered(heap', numCreated)
  {
  }

  /** And the two sets agree on the rest, so that nothing leaks. */
  ghost predicate Shape(s: State) {
    Alive(s) && Agree(s.heap, s.list, s.ids, Members(s))
  }

  lemma ListedAlive(heap: map<Addr, Timer>, list: seq<Pair>, ids: seq<Pair>, m: set<Addr>)
    requires Agree(heap, list, ids, m)
    ensures m <= heap.Keys && Addrs(list) == m
    ensures forall i :: 0 <= i < |list| ==> list[i].1 in m && list[i] == Entry(heap, list[i].1)
    ensures Distinct(list)
  {
    forall i | 0 <= i < |list| ensures list[i].1 in m && list[i] == Entry(heap, list[i].1) {
      assert list[i] in list;
    }
    forall a | a in m ensures a in Addrs(list) {
      assert Entry(heap, a) in list;
      var i :| 0 <= i < |list| && list[i] == Entry(heap, a);
      AddrsAt(list, i);
    }
    forall a | a in Addrs(list) ensures a in m {
      var i := AddrsWhere(list, a);
    }
    forall i, j | 0 <= i < j < |list| ensures list[i].1 != list[j].1 {
      assert Less(list[i], list[j]);
    }
  }

  lemma SequencesKnown(s: State)
    requires Shape(s)
    ensures forall a :: a in s.heap ==> s.heap[a].sequence <= s.numCreated
  {
  }

  /** No step dereferences a deleted timer. */
  lemma StepsAreSafe(s: State, a: Action)
    requires Shape(s) && Allowed(s, a)
    ensures Safe(s, a)
  {
    ListedAlive(s.heap, s.list, s.ids, Members(s));
  }

  /** Moving one element into, or out of, what the waiting and the round leave over. */
  lemma LeftOver<T>(all: set<T>, waiting: set<T>, round: set<T>, x: T)
    requires waiting !! round
    ensures x in waiting && waiting <= all ==> all - (waiting - {x}) - round == (all - waiting - round) + {x}
    ensures x !in all && round <= all ==> (all + {x}) - (waiting + {x}) - round == all - waiting - round
    ensures (all - {x}) - waiting - round == (all - waiting - round) - {x}
  {
  }

  lemma CreateKeepsAlive(s: State, addr: Addr, t: Timer)
    requires Alive(s) && addr > NULLPTR && addr !in s.heap && t.sequence == s.numCreated + 1
    ensures Alive(Created(s, addr, t))
  {
    forall i: nat | i < |s.expired| ensures s.expired[i].1 in Addrs(s.expired) { AddrsAt(s.expired, i); }
  }

  lemma CreateKeepsMembers(s: State, addr: Addr, t: Timer)
    requires s.waiting !! Addrs(s.expired) && addr !in s.heap && Addrs(s.expired) <= s.heap.Keys
    ensures Members(Created(s, addr, t)) == Members(s)
  {
    LeftOver(s.heap.Keys, s.waiting, Addrs(s.expired), addr);
    assert s.heap[addr := t].Keys == s.heap.Keys + {addr};
  }

  lemma CreateKeepsShape(s: State, addr: Addr, t: Timer)
    requires Shape(s) && addr > NULLPTR && addr !in s.heap && t.sequence == s.numCreated + 1
    ensures Shape(Created(s, addr, t))
  {
    hide Agree, Numbered, Distinct, IsEntry;
    CreateKeepsAlive(s, addr, t);
    CreateKeepsMembers(s, addr, t);
    hide Addrs, Alive;
    AgreeFrame(s.heap, s.heap[addr := t], s.list, s.ids, Members(s));
  }

  lemma AddKeepsAlive(s: State, addr: Addr)
    requires Alive(s) && addr in s.waiting
    ensures Alive(AfterAdd(s, addr))
  {
    hide Numbered, Distinct, IsEntry, Insert;
  }

  lemma AddKeepsShape(s: State, addr: Addr)
    requires Shape(s) && addr in s.waiting
    ensures Insert(s.ids, Id(s.heap, addr)).1 && Insert(s.list, Entry(s.heap, addr)).1
    ensures Shape(AfterAdd(s, addr))
  {
    hide Agree, Insert;
    AddKeepsAlive(s, addr);
    LeftOver(s.heap.Keys, s.waiting, Addrs(s.expired), addr);
    InsertAgrees(s, Members(s), addr);
    hide Alive;
  }

  lemma ListedId(heap: map<Addr, Timer>, list: seq<Pair>, ids: seq<Pair>, m: set<Addr>, id: Pair)
    requires Agree(heap, list, ids, m)
    ensures id in ids <==> id.0 in m && id == Id(heap, id.0)
  {
  }

  lemma DeleteKeepsAlive(s: State, addr: Addr)
    requires Alive(s) && addr in s.heap && addr !in s.waiting && addr !in Addrs(s.expired)
    ensures Alive(s.(heap := s.heap - {addr}))
  {
    NumberedFrame(s.heap, s.heap - {addr}, s.numCreated);
    hide Numbered, Distinct;
    forall i: nat | i < |s.expired| ensures s.expired[i].1 in Addrs(s.expired) { AddrsAt(s.expired, i); }
  }

  lemma DeleteDropsMember(s: State, addr: Addr)
    requires s.waiting !! Addrs(s.expired)
    ensures Members(s.(heap := s.heap - {addr})) == Members(s) - {addr}
  {
    LeftOver(s.heap.Keys, s.waiting, Addrs(s.expired), addr);
    assert (s.heap - {addr}).Keys == s.heap.Keys - {addr};
  }

  lemma CancelKeepsShape(s: State, addr: Addr, sequence: nat)
    requires Shape(s)
    ensures (addr, sequence) in s.ids ==>
      addr in s.heap && Erase(s.list, Entry(s.heap, addr)).1 == 1 && Erase(s.ids, (addr, sequence)).1 == 1
    ensures Shape(AfterCancel(s, addr, sequence))
  {
    hide Agree, Erase, Numbered, Distinct, IsEntry, Addrs;
    ListedId(s.heap, s.list, s.ids, Members(s), (addr, sequence));
    if (addr, sequence) in s.ids {
      DeleteKeepsAlive(s, addr);
      DeleteDropsMember(s, addr);
      CancelAgrees(s, addr);
    }
  }

  lemma CancelAgrees(s: State, addr: Addr)
    requires Agree(s.heap, s.list, s.ids, Members(s)) && addr in Members(s)
    ensures Erase(s.ids, Id(s.heap, addr)).1 == 1 && Erase(s.list, Entry(s.heap, addr)).1 == 1
    ensures Agree(s.heap - {addr}, Erase(s.list, Entry(s.heap, addr)).0, Erase(s.ids, Id(s.heap, addr)).0,
                  Members(s) - {addr})
  {
    hide Agree, Erase, Addrs;
    var list, ids := Erase(s.list, Entry(s.heap, addr)).0, Erase(s.ids, Id(s.heap, addr)).0;
    EraseAgrees(s.heap, s.list, s.ids, Members(s), addr);
    AgreeFrame(s.heap, s.heap - {addr}, list, ids, Members(s) - {addr});
  }

  /** The first pair is erased at the front. */
  lemma EraseFirst(s: seq<Pair>)
    requires s != []
    ensures Erase(s, s[0]) == (s[1..], 1)
  {
    assert s[..0] + s[1..] == s[1..];
  }

  /** Each id erased by `getExpired` is there to be erased. */
  predicate EraseIdsSucceeds(heap: map<Addr, Timer>, ids: seq<Pair>, entries: seq<Pair>)
    requires Addrs(entries) <= heap.Keys
    decreases |entries|
  {
    entries == [] ||
    var (rest, n) := Erase(ids, Id(heap, entries[0].1));
    n == 1 && EraseIdsSucceeds(heap, rest, entries[1..])
  }

  lemma {:induction false} CutAgrees(heap: map<Addr, Timer>, list: seq<Pair>, ids: seq<Pair>, m: set<Addr>, n: nat)
    requires Agree(heap, list, ids, m) && n <= |list| && Addrs(list[..n]) <= heap.Keys
    ensures EraseIdsSucceeds(heap, ids, list[..n])
    ensures Agree(heap, list[n..], EraseIds(heap, ids, list[..n]), m - Addrs(list[..n]))
    decreases n
  {
    hide Agree, Erase, LowerBound;
    if n == 0 {
      assert m - Addrs(list[..0]) == m && list[0..] == list;
    } else {
      var a, front := list[0].1, list[..n];
      ListedAlive(heap, list, ids, m);
      EraseAgrees(heap, list, ids, m, a);
      EraseFirst(list);
      assert front[1..] == list[1..][..n - 1] && list[1..][n - 1..] == list[n..];
      CutAgrees(heap, list[1..], Erase(ids, Id(heap, a)).0, m - {a}, n - 1);
      assert m - {a} - Addrs(front[1..]) == m - Addrs(front);
    }
  }

  lemma BeginKeepsShape(s: State, now: int)
    requires Shape(s) && Enabled(s, BeginRound(now))
    ensures var n := ExpiredCount(s, now);
            Addrs(s.list[..n]) <= s.heap.Keys && EraseIdsSucceeds(s.heap, s.ids, s.list[..n])
    ensures Shape(AfterBegin(s, now))
  {
    hide Agree, EraseIds, EraseIdsSucceeds, LowerBound;
    var n, s' := ExpiredCount(s, now), AfterBegin(s, now);
    ListedAlive(s.heap, s.list, s.ids, Members(s));
    AddrsOfPrefix(s.list, n);
    CutAgrees(s.heap, s.list, s.ids, Members(s), n);
    assert Members(s') == Members(s) - Addrs(s.list[..n]);
  }

  lemma BeginFacts(s: State, now: int)
    requires Shape(s)
    ensures var n := ExpiredCount(s, now);
            Addrs(s.list[..n]) <= s.heap.Keys && EraseIdsSucceeds(s.heap, s.ids, s.list[..n])
  {
    hide Agree, EraseIds, EraseIdsSucceeds, LowerBound;
    var n := ExpiredCount(s, now);
    ListedAlive(s.heap, s.list, s.ids, Members(s));
    AddrsOfPrefix(s.list, n);
    CutAgrees(s.heap, s.list, s.ids, Members(s), n);
  }

  /** The round's timers that `reset` keeps. */
  function Kept(s: State, entries: seq<Pair>): set<Addr>
    requires Addrs(entries) <= s.heap.Keys
  {
    set a | a in Addrs(entries) && Survives(s, a)
  }

  /** Every reinsertion of `reset` finds its place free. */
  predicate ResetSucceeds(s: State, entries: seq<Pair>)
    requires Addrs(entries) <= s.heap.Keys && Distinct(entries)
    decreases |entries|
  {
    entries == [] ||
    (DistinctFirst(entries);
     ReinsertSucceeds(s, entries[0].1) && ResetSucceeds(ResetOne(s, entries[0].1), entries[1..]))
  }

  predicate ReinsertSucceeds(s: State, a: Addr)
    requires a in s.heap
  {
    var heap := s.heap[a := Restarted(s.heap[a], s.now)];
    Survives(s, a) ==> Insert(s.ids, Id(heap, a)).1 && Insert(s.list, Entry(heap, a)).1
  }

  lemma ResetOneAgrees(s: State, a: Addr, m: set<Addr>)
    requires Agree(s.heap, s.list, s.ids, m) && a in s.heap && a !in m
    ensures var s1 := ResetOne(s, a);
            && s1 == s.(heap := s1.heap, list := s1.list, ids := s1.ids)
            && s1.heap == (if Survives(s, a) then s.heap[a := Restarted(s.heap[a], s.now)] else s.heap - {a})
            && Agree(s1.heap, s1.list, s1.ids, if Survives(s, a) then m + {a} else m)
    ensures ReinsertSucceeds(s, a)
  {
    hide Agree, Insert;
    ListedAlive(s.heap, s.list, s.ids, m);
    if Survives(s, a) {
      var restarted := s.(heap := s.heap[a := Restarted(s.heap[a], s.now)]);
      AgreeFrame(s.heap, restarted.heap, s.list, s.ids, m);
      InsertAgrees(restarted, m, a);
    } else {
      AgreeFrame(s.heap, s.heap - {a}, s.list, s.ids, m);
    }
  }

  /** What `reset` makes of the heap: survivors restarted, the rest deleted. */
  predicate HeapReset(s: State, entries: seq<Pair>, heap: map<Addr, Timer>)
    requires Addrs(entries) <= s.heap.Keys
  {
    && heap.Keys == s.heap.Keys - (Addrs(entries) - Kept(s, entries))
    && (forall a :: a in heap ==>
          heap[a] == if a in Addrs(entries) then Restarted(s.heap[a], s.now) else s.heap[a])
  }

  lemma {:induction false} ResetAgrees(s: State, entries: seq<Pair>, m: set<Addr>)
    requires Agree(s.heap, s.list, s.ids, m)
    requires Addrs(entries) <= s.heap.Keys && Addrs(entries) !! m && Distinct(entries)
    ensures ResetSucceeds(s, entries)
    ensures var r := ResetAll(s, entries);
            && r == s.(heap := r.heap, list := r.list, ids := r.ids)
            && HeapReset(s, entries, r.heap)
            && Agree(r.heap, r.list, r.ids, m + Kept(s, entries))
    decreases |entries|
  {
    hide Agree, ResetOne, ReinsertSucceeds;
    if entries == [] {
      assert m + Kept(s, entries) == m;
    } else {
      var a, s1, rest := entries[0].1, ResetOne(s, entries[0].1), entries[1..];
      DistinctFirst(entries);
      var m1 := if Survives(s, a) then m + {a} else m;
      ResetOneAgrees(s, a, m);
      ResetAgrees(s1, rest, m1);
      assert Kept(s, entries) == (if Survives(s, a) then {a} else {}) + Kept(s1, rest);
      assert m + Kept(s, entries) == m1 + Kept(s1, rest);
    }
  }

  lemma ResetTurn(s: State, entries: seq<Pair>)
    requires Addrs(entries) <= s.heap.Keys && Distinct(entries) && entries != []
    requires ResetSucceeds(s, entries)
    ensures entries[0].1 in s.heap && ReinsertSucceeds(s, entries[0].1)
    ensures var s1 := ResetOne(s, entries[0].1);
            && Addrs(entries[1..]) <= s1.heap.Keys && Distinct(entries[1..])
            && ResetSucceeds(s1, entries[1..]) && ResetAll(s1, entries[1..]) == ResetAll(s, entries)
  {
    hide Insert, ReinsertSucceeds;
    DistinctFirst(entries);
  }

  lemma ResetFacts(s: State)
    requires Agree(s.heap, s.list, s.ids, Members(s))
    requires Addrs(s.expired) <= s.heap.Keys && Distinct(s.expired)
    ensures |s.list| == |s.ids| && ResetSucceeds(s, s.expired)
    ensures var e := ResetAll(s, s.expired); e.list != [] ==> e.list[0].1 in e.heap
  {
    assert |s.list| == |s.ids|;
    hide Agree, ResetSucceeds, ResetAll;
    ResetAgrees(s, s.expired, Members(s));
    var e := ResetAll(s, s.expired);
    ListedAlive(e.heap, e.list, e.ids, Members(s) + Kept(s, s.expired));
  }

  lemma EndKeepsShape(s: State)
    requires Shape(s) && Enabled(s, EndRound)
    ensures ResetSucceeds(s.(calling := false), s.expired)
    ensures Shape(AfterEnd(s))
  {
    hide Agree, ResetSucceeds, ResetAll, Numbered;
    var s0, s' := s.(calling := false), AfterEnd(s);
    ResetAgrees(s0, s.expired, Members(s));
    NumberedFrame(s.heap, s'.heap, s.numCreated);
    assert Members(s') == Members(s) + Kept(s0, s.expired);
  }

  /** Every step keeps the shape. */
  lemma StepKeepsShape(s: State, a: Action)
    requires Shape(s) && Enabled(s, a)
    ensures Shape(Next(s, a))
  {
    hide AfterAdd, AfterCancel, AfterBegin, AfterEnd, Agree;
    match a
    case Create(addr, when, interval, repeat) =>
      CreateKeepsShape(s, addr, Timer(when, interval, repeat, s.numCreated + 1));
    case AddInLoop(addr) => AddKeepsShape(s, addr);
    case Cancel(addr, sequence) => CancelKeepsShape(s, addr, sequence);
    case BeginRound(now) => BeginKeepsShape(s, now);
    case RunNext => assert Members(Next(s, a)) == Members(s);
    case EndRound => EndKeepsShape(s);
  }

  lemma {:induction false} RunKeepsShape(s: State, run: seq<Action>)
    requires Shape(s) && Legal(s, run)
    ensures Shape(After(s, run))
    decreases |run|
  {
    hide Shape, Enabled, Next;
    if run != [] {
      StepKeepsShape(s, run[0]);
      RunKeepsShape(Next(s, run[0]), run[1..]);
    }
  }

  lemma InitHasShape(s: State)
    requires Init(s)
    ensures Shape(s)
  {
    assert Members(s) == {};
  }

  /** The two sets hold the same timers, each keyed by its current expiration, after
      any run with any callbacks; every timer alive is in them, in the round or
      waiting; and whatever step the program takes next touches only timers alive. */
  lemma SetsAlwaysAgree(s: State, run: seq<Action>, a: Action)
    requires Init(s) && Legal(s, run)
    ensures var e := After(s, run);
            && Agree(e.heap, e.list, e.ids, e.heap.Keys - e.waiting - Addrs(e.expired))
            && (Allowed(e, a) ==> Enabled(e, a))
  {
    hide Agree, Alive, Allowed, Safe, Next;
    InitHasShape(s);
    RunKeepsShape(s, run);
    if Allowed(After(s, run), a) {
      StepsAreSafe(After(s, run), a);
    }
  }

  /** What the source asserts of its insertions and erasures in each step. */
  predicate SetAssertions(s: State, a: Action)
    requires Enabled(s, a)
  {
    && |s.list| == |s.ids|
    && match a
       case AddInLoop(addr) => Insert(s.ids, Id(s.heap, addr)).1 && Insert(s.list, Entry(s.heap, addr)).1
       case Cancel(addr, sequence) =>
         (addr, sequence) in s.ids ==>
           addr in s.heap && Erase(s.list, Entry(s.heap, addr)).1 == 1 && Erase(s.ids, (addr, sequence)).1 == 1
       case BeginRound(now) =>
         AddrsOfPrefix(s.list, ExpiredCount(s, now));
         EraseIdsSucceeds(s.heap, s.ids, s.list[..ExpiredCount(s, now)])
       case EndRound => ResetSucceeds(s.(calling := false), s.expired)
       case _ => true
  }

  lemma SizesAgree(s: State)
    requires Shape(s)
    ensures |s.list| == |s.ids|
  {
  }

  /** They never fail. */
  lemma InsertsAndErasesSucceed(s: State, a: Action)
    requires Shape(s) && Enabled(s, a)
    ensures SetAssertions(s, a)
  {
    hide Agree, Alive, Members, Insert, Erase, EraseIdsSucceeds, ResetSucceeds;
    hide AfterAdd, AfterCancel, AfterBegin, AfterEnd;
    SizesAgree(s);
    match a
    case AddInLoop(addr) => AddKeepsShape(s, addr);
    case Cancel(addr, sequence) => CancelKeepsShape(s, addr, sequence);
    case BeginRound(now) => BeginKeepsShape(s, now);
    case EndRound => EndKeepsShape(s);
    case _ =>
  }

  // --------------------------------------------------------- what a round takes

  lemma MemberListed(s: State, a: Addr) returns (i: nat)
    requires Shape(s) && a in Members(s)
    ensures i < |s.list| && s.list[i] == Entry(s.heap, a)
  {
    assert Entry(s.heap, a) in s.list;
    i :| 0 <= i < |s.list| && s.list[i] == Entry(s.heap, a);
  }

  lemma CutByExpiration(s: State, now: int)
    requires Shape(s)
    ensures forall i :: 0 <= i < |s.list| ==> (s.list[i].0 < now <==> i < ExpiredCount(s, now))
  {
    ListedAlive(s.heap, s.list, s.ids, Members(s));
    FoundAtLowerBound(s.list, (now, NULLPTR));
    forall i | 0 <= i < |s.list| ensures s.list[i].0 < now <==> i < ExpiredCount(s, now) {
      assert s.list[i].1 > NULLPTR;
    }
  }

  /** A round takes exactly the timers that expire before its timestamp, ordered by
      expiration. */
  lemma RoundTakesExactlyTheExpired(s: State, now: int)
    requires Shape(s) && Enabled(s, BeginRound(now))
    ensures var e := AfterBegin(s, now);
            && (forall a :: a in Addrs(e.expired) <==> a in Members(s) && s.heap[a].expiration < now)
            && (forall i, j :: 0 <= i < j < |e.expired| ==> e.expired[i].0 <= e.expired[j].0)
  {
    hide Agree, Numbered, Distinct, EraseIds, LowerBound;
    var e := AfterBegin(s, now);
    CutByExpiration(s, now);
    ListedAlive(s.heap, s.list, s.ids, Members(s));
    forall a ensures a in Addrs(e.expired) <==> a in Members(s) && s.heap[a].expiration < now {
      if a in Addrs(e.expired) {
        var i := AddrsWhere(e.expired, a);
        assert e.expired[i] == s.list[i];
      }
      if a in Members(s) && s.heap[a].expiration < now {
        var i := MemberListed(s, a);
        assert e.expired[i] == s.list[i];
        AddrsAt(e.expired, i);
      }
    }
    ListSorted(s);
  }

  lemma ListSorted(s: State)
    requires Shape(s)
    ensures forall i, j :: 0 <= i < j < |s.list| ==> s.list[i].0 <= s.list[j].0
  {
  }

  /** The assertion in `getExpired` fails exactly when some timer expires at the very
      timestamp of the round. */
  lemma ExpiryAssertionExactly(s: State, now: int)
    requires Shape(s)
    ensures ExpiryAssertion(s, now) <==> forall a :: a in Members(s) ==> s.heap[a].expiration != now
  {
    hide Agree, LowerBound;
    CutByExpiration(s, now);
    ListedAlive(s.heap, s.list, s.ids, Members(s));
    ListSorted(s);
    var n := ExpiredCount(s, now);
    forall a | a in Members(s) && s.heap[a].expiration == now ensures !ExpiryAssertion(s, now) {
      var i := MemberListed(s, a);
    }
    if !ExpiryAssertion(s, now) {
      assert s.list[n].1 in Members(s) && s.heap[s.list[n].1].expiration == now;
    }
  }

  /** All that the source asserts of a step. */
  predicate SourceAssertions(s: State, a: Action)
    requires Enabled(s, a)
  {
    SetAssertions(s, a) && (a.BeginRound? ==> ExpiryAssertion(s, a.now))
  }

  /** The only step that fails an assertion is a round at the very timestamp at which some
      timer expires. */
  lemma AssertionsHoldExactly(s: State, a: Action)
    requires Shape(s) && Enabled(s, a)
    ensures SourceAssertions(s, a)
       <==> (a.BeginRound? ==> forall addr :: addr in Members(s) ==> s.heap[addr].expiration != a.now)
  {
    hide Shape, SetAssertions, Enabled;
    InsertsAndErasesSucceed(s, a);
    if a.BeginRound? {
      ExpiryAssertionExactly(s, a.now);
    }
  }

  /** It comes to that: a timer for time 5, and a round at time 5. */
  lemma ExpiryAssertionIsFailed(s: State)
    requires Init(s)
    ensures var run := [Create(1, 5, 0, false), AddInLoop(1)];
            && Legal(s, run) && Enabled(After(s, run), BeginRound(5))
            && !SourceAssertions(After(s, run), BeginRound(5))
  {
    var first, second := Create(1, 5, 0, false), AddInLoop(1);
    var run := [first, second];
    var s1 := Next(s, first);
    var s2 := Next(s1, second);
    assert run[1..] == [second] && [second][1..] == [];
    assert After(s1, [second]) == After(s2, []) == s2;
    InitHasShape(s);
    RunKeepsShape(s, run);
    assert 1 in Members(s2) && s2.heap[1].expiration == 5;
    StepsAreSafe(s2, BeginRound(5));
    hide Shape, Members, SourceAssertions;
    AssertionsHoldExactly(s2, BeginRound(5));
  }

  // ------------------------------------------------- reinsertion and cancellation

  /** When a round ends, each of its timers that repeats and was not cancelled in it is
      in the sets again, once, one interval after the round's timestamp; every other
      timer of the round is deleted; and no other timer is touched. */
  lemma RoundEndReinsertsOrDeletes(s: State)
    requires Shape(s) && Enabled(s, EndRound)
    ensures var e := AfterEnd(s);
            && (forall a :: a in Addrs(s.expired) ==>
                  if Survives(s, a)
                  then a in Members(e) && e.heap[a] == s.heap[a].(expiration := s.now + s.heap[a].interval)
                  else a !in e.heap)
            && (forall a :: a in s.heap && a !in Addrs(s.expired) ==> a in e.heap && e.heap[a] == s.heap[a])
            && Members(e) - Addrs(s.expired) == Members(s)
  {
    hide Agree, ResetAll, ResetSucceeds, Numbered, Distinct, IsEntry;
    var s0 := s.(calling := false);
    ResetAgrees(s0, s.expired, Members(s));
  }

  /** No timer with sequence number `q` is left, and none will be created again. */
  predicate Gone(s: State, q: nat) {
    1 <= q <= s.numCreated && forall a :: a in s.heap ==> s.heap[a].sequence != q
  }

  /** Timer `q` is in the running round and has been cancelled in it. */
  predicate Doomed(s: State, addr: Addr, q: nat) {
    && s.calling && addr in Addrs(s.expired) && addr in s.heap && s.heap[addr].sequence == q
    && (addr, q) in s.canceling
  }

  /** How often timer `q` has been called. */
  function Calls(s: State, q: nat): nat {
    multiset(s.ran)[q]
  }

  lemma OneMoreCall(ran: seq<nat>, x: nat, q: nat)
    ensures multiset(ran + [x])[q] == multiset(ran)[q] + if x == q then 1 else 0
  {
    assert multiset(ran + [x]) == multiset(ran) + multiset{x};
  }

  lemma EndKeepsSequences(s: State)
    requires Shape(s) && Enabled(s, EndRound)
    ensures var e := AfterEnd(s);
            && e.heap.Keys <= s.heap.Keys
            && (forall a :: a in e.heap ==> e.heap[a].sequence == s.heap[a].sequence)
            && e.ran == s.ran && e.numCreated == s.numCreated && !e.calling && e.expired == []
  {
    hide Agree, ResetAll, ResetSucceeds, Numbered, Distinct, IsEntry;
    ResetAgrees(s.(calling := false), s.expired, Members(s));
  }

  /** The callback a `RunNext` calls. */
  function Called(s: State): nat
    requires Enabled(s, RunNext)
  {
    s.heap[s.expired[s.begun].1].sequence
  }

  lemma CallCounts(s: State, q: nat)
    requires Enabled(s, RunNext)
    ensures Next(s, RunNext) == s.(begun := s.begun + 1, ran := s.ran + [Called(s)])
    ensures Calls(Next(s, RunNext), q) == Calls(s, q) + if Called(s) == q then 1 else 0
  {
    hide Addrs;
    OneMoreCall(s.ran, Called(s), q);
  }

  lemma GoneNotCalled(s: State, q: nat)
    requires Enabled(s, RunNext) && Gone(s, q)
    ensures Gone(Next(s, RunNext), q) && Calls(Next(s, RunNext), q) == Calls(s, q)
  {
    CallCounts(s, q);
    var addr := s.expired[s.begun].1;
    assert s.heap[addr].sequence != q;
  }

  lemma GoneStaysGone(s: State, a: Action, q: nat)
    requires Shape(s) && Enabled(s, a) && Gone(s, q)
    ensures Gone(Next(s, a), q) && Calls(Next(s, a), q) == Calls(s, q)
  {
    hide Shape, Insert, Erase, EraseIds, ResetAll, LowerBound, AfterEnd;
    match a
    case RunNext => GoneNotCalled(s, q);
    case EndRound => EndKeepsSequences(s);
    case _ =>
  }

  lemma DoomedUntilRoundEnds(s: State, a: Action, addr: Addr, q: nat)
    requires Shape(s) && Enabled(s, a) && Doomed(s, addr, q)
    ensures if a.EndRound? then Gone(Next(s, a), q) else Doomed(Next(s, a), addr, q)
  {
    match a
    case EndRound => DoomedGoesWithRound(s, addr, q);
    case Cancel(other, sequence) =>
      hide Agree, Numbered, Distinct, IsEntry, Addrs, Erase;
      ListedId(s.heap, s.list, s.ids, Members(s), (other, sequence));
    case AddInLoop(_) => hide Shape, Insert, Addrs;
    case _ => hide Shape, Addrs;
  }

  lemma DoomedGoesWithRound(s: State, addr: Addr, q: nat)
    requires Shape(s) && Enabled(s, EndRound) && Doomed(s, addr, q)
    ensures Gone(AfterEnd(s), q)
  {
    RoundEndReinsertsOrDeletes(s);
    EndKeepsSequences(s);
    hide Agree, AfterEnd, Distinct, IsEntry, Addrs;
  }

  /** Cancelling a timer takes effect exactly if it has been inserted: then it is gone
      at once, or, while its round runs, goes when the round ends. */
  lemma CancelTakesEffectExactly(s: State, addr: Addr)
    requires Shape(s) && addr in s.heap
    ensures var q := s.heap[addr].sequence;
            var e := AfterCancel(s, addr, q);
            Gone(e, q) || Doomed(e, addr, q) <==> addr !in s.waiting
  {
    hide Agree, Erase, Distinct, IsEntry;
    var q := s.heap[addr].sequence;
    ListedId(s.heap, s.list, s.ids, Members(s), (addr, q));
  }

  /** A cancelled timer never runs in a later round: it stays doomed only as long as the
      round it was cancelled in, and once gone it is never called again. */
  lemma {:induction false} CancelledNeverRunsLater(s: State, run: seq<Action>, addr: Addr, q: nat)
    requires Shape(s) && Legal(s, run)
    requires Gone(s, q) || Doomed(s, addr, q)
    ensures EndRound in run ==> Gone(After(s, run), q)
    ensures Gone(After(s, run), q) || Doomed(After(s, run), addr, q)
    ensures Gone(s, q) ==> Gone(After(s, run), q) && Calls(After(s, run), q) == Calls(s, q)
    decreases |run|
  {
    hide Shape, Enabled, Next, Gone, Doomed, Calls;
    if run != [] {
      StepKeepsShape(s, run[0]);
      if Gone(s, q) {
        GoneStaysGone(s, run[0], q);
      } else {
        DoomedUntilRoundEnds(s, run[0], addr, q);
      }
      assert run == [run[0]] + run[1..];
      CancelledNeverRunsLater(Next(s, run[0]), run[1..], addr, q);
    }
  }

  /** A timer that has been inserted, cancelled after any run: from the end of the round
      then running on, or at once if none is, it is never called again. */
  lemma CancelledTimerStops(s: State, before: seq<Action>, addr: Addr, between: seq<Action>, later: seq<Action>)
    requires Init(s) && Legal(s, before)
    requires addr in After(s, before).heap && addr !in After(s, before).waiting
    requires Legal(AfterCancel(After(s, before), addr, After(s, before).heap[addr].sequence), between)
    requires After(s, before).calling ==> EndRound in between
    requires var c := AfterCancel(After(s, before), addr, After(s, before).heap[addr].sequence);
             Legal(After(c, between), later)
    ensures var q := After(s, before).heap[addr].sequence;
            var m := After(AfterCancel(After(s, before), addr, q), between);
            Calls(After(m, later), q) == Calls(m, q)
            && (!After(s, before).calling ==> Calls(m, q) == Calls(After(s, before), q))
  {
    hide Shape, Legal, After, AfterCancel, Calls, Gone, Doomed;
    var e := After(s, before);
    var q := e.heap[addr].sequence;
    var c := AfterCancel(e, addr, q);
    InitHasShape(s);
    RunKeepsShape(s, before);
    CancelKeepsShape(e, addr, q);
    CancelTakesEffectExactly(e, addr);
    CancelCallsNothing(e, addr);
    CancelledNeverRunsLater(c, between, addr, q);
    RunKeepsShape(c, between);
    CancelledNeverRunsLater(After(c, between), later, addr, q);
  }

  lemma CancelCallsNothing(s: State, addr: Addr)
    requires Shape(s) && addr in s.heap
    ensures var e := AfterCancel(s, addr, s.heap[addr].sequence);
            && Calls(e, s.heap[addr].sequence) == Calls(s, s.heap[addr].sequence)
            && (!s.calling ==> !Doomed(e, addr, s.heap[addr].sequence))
  {
    hide Shape, Erase;
  }

  // ---------------------------------------------------------------- a whole round

  /** The timer `t` at `addr` is in the running round, whose timestamp is `now`. */
  predicate InRound(s: State, addr: Addr, t: Timer, now: int, cancelled: bool) {
    && s.calling && s.now == now && addr in Addrs(s.expired) && addr in s.heap && s.heap[addr] == t
    && ((addr, t.sequence) in s.canceling <==> cancelled)
  }

  lemma StepInRound(s: State, a: Action, addr: Addr, t: Timer, now: int, cancelled: bool)
    requires Shape(s) && Enabled(s, a) && InRound(s, addr, t, now, cancelled) && !a.EndRound?
    ensures InRound(Next(s, a), addr, t, now, cancelled || a == Cancel(addr, t.sequence))
  {
    hide Agree, Addrs, AfterEnd, EraseIds, LowerBound, Insert, Erase, Distinct, IsEntry, Numbered;
    match a
    case Cancel(other, sequence) => ListedId(s.heap, s.list, s.ids, Members(s), (other, sequence));
    case _ =>
  }

  lemma {:induction false} StepsInRound(s: State, run: seq<Action>, addr: Addr, t: Timer, now: int, cancelled: bool)
    requires Shape(s) && Legal(s, run) && InRound(s, addr, t, now, cancelled) && EndRound !in run
    ensures InRound(After(s, run), addr, t, now, cancelled || Cancel(addr, t.sequence) in run)
    ensures Shape(After(s, run))
    decreases |run|
  {
    hide Shape, Enabled, Next, InRound;
    if run != [] {
      assert run[0] in run;
      StepInRound(s, run[0], addr, t, now, cancelled);
      StepKeepsShape(s, run[0]);
      assert run == [run[0]] + run[1..];
      StepsInRound(Next(s, run[0]), run[1..], addr, t, now, cancelled || run[0] == Cancel(addr, t.sequence));
    }
  }

  /** The sets hold the timer at `addr` for the time given. */
  predicate Listed(s: State, addr: Addr, expiration: int, sequence: nat) {
    (expiration, addr) in s.list && (addr, sequence) in s.ids
  }

  lemma MemberIsListed(s: State, addr: Addr)
    requires Shape(s)
    ensures addr in Members(s) <==>
              addr in s.heap && Listed(s, addr, s.heap[addr].expiration, s.heap[addr].sequence)
  {
    if addr in s.heap {
      assert Entry(s.heap, addr) == (s.heap[addr].expiration, addr);
      assert Id(s.heap, addr) == (addr, s.heap[addr].sequence);
    }
  }

  /** A round from its beginning to its end, with any steps in between, after any run: a
      timer that the sets held for a time before the round's timestamp is in them again,
      one interval after that timestamp, exactly if it repeats and no `cancelInLoop` of it
      came in between; otherwise no timer with its sequence number is left. */
  lemma RoundReinsertsExactly(s: State, before: seq<Action>, now: int, between: seq<Action>, addr: Addr)
    requires Init(s) && Legal(s, before) && Enabled(After(s, before), BeginRound(now))
    requires Legal(Next(After(s, before), BeginRound(now)), between) && EndRound !in between
    requires Enabled(After(Next(After(s, before), BeginRound(now)), between), EndRound)
    requires addr in After(s, before).heap
    requires var t := After(s, before).heap[addr];
             Listed(After(s, before), addr, t.expiration, t.sequence) && t.expiration < now
    ensures var t := After(s, before).heap[addr];
            var f := Next(After(Next(After(s, before), BeginRound(now)), between), EndRound);
            if t.repeat && Cancel(addr, t.sequence) !in between
            then addr in f.heap && f.heap[addr] == t.(expiration := now + t.interval)
              && Listed(f, addr, now + t.interval, t.sequence)
            else forall a :: a in f.heap ==> f.heap[a].sequence != t.sequence
  {
    hide Shape, Enabled, Legal, After, Members, InRound;
    InitHasShape(s);
    RunKeepsShape(s, before);
    var e, begin := After(s, before), BeginRound(now);
    var t := e.heap[addr];
    MemberIsListed(e, addr);
    StepKeepsShape(e, begin);
    BeginPutsInRound(e, now, addr);
    var b := Next(e, begin);
    StepsInRound(b, between, addr, t, now, false);
    var m := After(b, between);
    RoundEndsFor(m, addr, t, now, Cancel(addr, t.sequence) in between);
  }

  lemma BeginPutsInRound(s: State, now: int, addr: Addr)
    requires Shape(s) && Enabled(s, BeginRound(now)) && addr in Members(s) && s.heap[addr].expiration < now
    ensures InRound(AfterBegin(s, now), addr, s.heap[addr], now, false)
  {
    RoundTakesExactlyTheExpired(s, now);
    hide Agree, EraseIds, LowerBound, Alive;
  }

  lemma RoundEndsFor(s: State, addr: Addr, t: Timer, now: int, cancelled: bool)
    requires Shape(s) && Enabled(s, EndRound) && InRound(s, addr, t, now, cancelled)
    ensures var f := AfterEnd(s);
            if t.repeat && !cancelled
            then addr in f.heap && f.heap[addr] == t.(expiration := now + t.interval)
              && Listed(f, addr, now + t.interval, t.sequence)
            else forall a :: a in f.heap ==> f.heap[a].sequence != t.sequence
  {
    hide Agree, AfterEnd, Distinct, IsEntry, Addrs;
    RoundEndReinsertsOrDeletes(s);
    EndKeepsSequences(s);
    EndKeepsShape(s);
    MemberIsListed(AfterEnd(s), addr);
  }

  /** Nothing but its own cancellation and the end of its own round ever touches a timer. */
  lemma OnlyItsOwnStepsTouch(s: State, a: Action, addr: Addr)
    requires Shape(s) && Enabled(s, a) && addr in s.heap
    ensures (addr in Next(s, a).heap && Next(s, a).heap[addr] == s.heap[addr])
      || (a == Cancel(addr, s.heap[addr].sequence) && addr in Members(s))
      || (a.EndRound? && addr in Addrs(s.expired))
  {
    hide Agree, AfterEnd, EraseIds, LowerBound, Insert, Erase, Distinct, IsEntry, Numbered;
    match a
    case Cancel(other, sequence) => ListedId(s.heap, s.list, s.ids, Members(s), (other, sequence));
    case EndRound => RoundEndReinsertsOrDeletes(s);
    case _ =>
  }

  function Creates(run: seq<Action>): nat {
    if run == [] then 0 else (if run[0].Create? then 1 else 0) + Creates(run[1..])
  }

  lemma {:induction false} CreatedAreCounted(s: State, run: seq<Action>)
    requires Shape(s) && Legal(s, run)
    ensures After(s, run).numCreated == s.numCreated + Creates(run)
    decreases |run|
  {
    hide Shape, Enabled, Next;
    if run != [] {
      StepCounts(s, run[0]);
      StepKeepsShape(s, run[0]);
      CreatedAreCounted(Next(s, run[0]), run[1..]);
    }
  }

  lemma StepCounts(s: State, a: Action)
    requires Shape(s) && Enabled(s, a)
    ensures Next(s, a).numCreated == s.numCreated + if a.Create? then 1 else 0
  {
    hide Shape, AfterEnd, Addrs, EraseIds, LowerBound, Insert, Erase, Distinct;
    if a.EndRound? {
      EndKeepsSequences(s);
    }
  }

  /** After any run from the start, the next timer created is as asked, with the number of
      timers created so far as its sequence number. */
  lemma CreatedAsAsked(s: State, run: seq<Action>, a: Action)
    requires Init(s) && Legal(s, run) && a.Create? && Enabled(After(s, run), a)
    ensures var e := Next(After(s, run), a);
            && a.addr in e.heap && e.heap[a.addr] == Timer(a.when, a.interval, a.repeat, Creates(run) + 1)
            && e.numCreated == Creates(run) + 1
  {
    hide Shape, Legal, After, Enabled;
    InitHasShape(s);
    CreatedAreCounted(s, run);
  }

  function Numbers(heap: map<Addr, Timer>, entries: seq<Pair>): seq<nat>
    requires forall i :: 0 <= i < |entries| ==> entries[i].1 in heap
  {
    seq(|entries|, i requires 0 <= i < |entries| => heap[entries[i].1].sequence)
  }

  /** The round has called the first timers of those numbered `due`, and has the others to call. */
  predicate CallsUpTo(s: State, ran: seq<nat>, due: seq<nat>) {
    && s.calling && |s.expired| == |due| && s.begun <= |due| && s.ran == ran + due[..s.begun]
    && (forall i :: 0 <= i < |due| ==> s.expired[i].1 in s.heap && s.heap[s.expired[i].1].sequence == due[i])
  }

  lemma StepCallsNext(s: State, a: Action, ran: seq<nat>, due: seq<nat>)
    requires Shape(s) && Enabled(s, a) && a != EndRound && CallsUpTo(s, ran, due)
    ensures CallsUpTo(Next(s, a), ran, due)
  {
    hide Agree, Addrs, EraseIds, LowerBound, Insert, Erase, Distinct, IsEntry, Numbered;
    var e := Next(s, a);
    assert e.expired == s.expired;
    forall i | 0 <= i < |due| ensures e.expired[i].1 in e.heap && e.heap[e.expired[i].1].sequence == due[i] {
      AddrsAt(s.expired, i);
      OnlyItsOwnStepsTouch(s, a, s.expired[i].1);
    }
    if a.RunNext? {
      assert ran + due[..s.begun] + [due[s.begun]] == ran + due[..s.begun + 1];
    }
  }

  lemma {:induction false} StepsCallOn(s: State, run: seq<Action>, ran: seq<nat>, due: seq<nat>)
    requires Shape(s) && Legal(s, run) && EndRound !in run && CallsUpTo(s, ran, due)
    ensures CallsUpTo(After(s, run), ran, due)
    decreases |run|
  {
    hide Shape, Enabled, Next, CallsUpTo;
    if run != [] {
      assert run[0] in run;
      StepCallsNext(s, run[0], ran, due);
      StepKeepsShape(s, run[0]);
      StepsCallOn(Next(s, run[0]), run[1..], ran, due);
    }
  }

  /** A round calls each timer it took, once and in their order, whatever the callbacks do,
      their cancellation included; and nothing else is called before it ends. */
  lemma RoundCallsEachOnce(s: State, before: seq<Action>, now: int, between: seq<Action>)
    requires Init(s) && Legal(s, before) && Enabled(After(s, before), BeginRound(now))
    requires Legal(Next(After(s, before), BeginRound(now)), between) && EndRound !in between
    requires Enabled(After(Next(After(s, before), BeginRound(now)), between), EndRound)
    ensures var e := After(s, before);
            var b := Next(e, BeginRound(now));
            && (forall i :: 0 <= i < |b.expired| ==> b.expired[i].1 in e.heap)
            && Next(After(b, between), EndRound).ran == e.ran + Numbers(e.heap, b.expired)
  {
    hide Shape, Legal, After, Addrs, EraseIds, LowerBound, Distinct, IsEntry;
    InitHasShape(s);
    RunKeepsShape(s, before);
    var e, begin := After(s, before), BeginRound(now);
    StepKeepsShape(e, begin);
    var b := Next(e, begin);
    ExpiredAreAlive(b);
    var due := Numbers(e.heap, b.expired);
    assert CallsUpTo(b, e.ran, due);
    StepsCallOn(b, between, e.ran, due);
    RunKeepsShape(b, between);
    EndCallsNothing(After(b, between), e.ran, due);
  }

  lemma ExpiredAreAlive(s: State)
    requires Shape(s)
    ensures forall i :: 0 <= i < |s.expired| ==> s.expired[i].1 in s.heap
  {
  }

  lemma EndCallsNothing(s: State, ran: seq<nat>, due: seq<nat>)
    requires Shape(s) && Enabled(s, EndRound) && CallsUpTo(s, ran, due)
    ensures AfterEnd(s).ran == ran + due
  {
    hide Shape, AfterEnd, Addrs, Distinct;
    EndKeepsSequences(s);
    assert due[..|due|] == due;
  }

  /** The arming asked for: by an insertion, exactly if no timer in the sets expires as
      soon, for its own expiration; by the end of a round, for the earliest in the sets, if
      that is a valid time; by nothing else.  A round's beginning clears it. */
  lemma ArmedExactly(s: State, a: Action)
    requires Shape(s) && Enabled(s, a)
    ensures a.AddInLoop? ==>
              Next(s, a).armed == if forall b :: b in Members(s) ==> s.heap[a.addr].expiration < s.heap[b].expiration
                                  then Some(s.heap[a.addr].expiration) else s.armed
    ensures a.EndRound? ==>
              forall b :: b in Members(Next(s, a)) && IsEarliest(Next(s, a), b) ==>
                Next(s, a).armed == if Next(s, a).heap[b].expiration > 0
                                    then Some(Next(s, a).heap[b].expiration) else s.armed
    ensures a.EndRound? && Members(Next(s, a)) == {} ==> Next(s, a).armed == s.armed
    ensures a.Create? || a.Cancel? || a.RunNext? ==> Next(s, a).armed == s.armed
    ensures a.BeginRound? ==> Next(s, a).armed.None?
  {
    hide Agree, AfterEnd, EraseIds, LowerBound, Insert, Erase, Distinct, IsEntry, Numbered, Addrs, Alive;
    match a
    case AddInLoop(addr) => EarliestExactly(s, addr);
    case EndRound => EndArms(s);
    case _ =>
  }

  ghost predicate IsEarliest(s: State, b: Addr)
    requires b in s.heap
  {
    forall c :: c in Members(s) ==> s.heap[b].expiration <= s.heap[c].expiration
  }

  lemma EarliestExactly(s: State, addr: Addr)
    requires Shape(s) && addr in s.heap
    ensures Earliest(s, addr) <==>
              forall b :: b in Members(s) ==> s.heap[addr].expiration < s.heap[b].expiration
  {
    hide Agree;
    ListedAlive(s.heap, s.list, s.ids, Members(s));
    ListSorted(s);
    forall b | b in Members(s) && Earliest(s, addr) ensures s.heap[addr].expiration < s.heap[b].expiration {
      var i := MemberListed(s, b);
    }
    if !Earliest(s, addr) {
      assert s.list[0].1 in Members(s) && s.list[0] == Entry(s.heap, s.list[0].1);
    }
  }

  lemma EndArms(s: State)
    requires Shape(s) && Enabled(s, EndRound)
    ensures var e := AfterEnd(s);
            && (forall b :: b in Members(e) && IsEarliest(e, b) ==>
                  e.armed == if e.heap[b].expiration > 0 then Some(e.heap[b].expiration) else s.armed)
            && (Members(e) == {} ==> e.armed == s.armed)
  {
    hide Agree, ResetAll, ResetSucceeds, Numbered, Distinct, IsEntry, Addrs;
    var e := AfterEnd(s);
    EndKeepsShape(s);
    ResetAgrees(s.(calling := false), s.expired, Members(s));
    ListedAlive(e.heap, e.list, e.ids, Members(e));
    ListSorted(e);
    forall b | b in Members(e) && IsEarliest(e, b)
      ensures e.list != [] && e.list[0].1 in Members(e) && e.list[0].0 == e.heap[b].expiration
    {
      var i := MemberListed(e, b);
      assert e.list[0].0 <= e.list[i].0;
    }
  }

  // ------------------------------------------------------------ one-shot timers

  /** The round has called the timer at `addr`. */
  predicate Begun(s: State, addr: Addr) {
    exists i :: 0 <= i < s.begun && i < |s.expired| && s.expired[i].1 == addr
  }

  /** One-shot timer `q` is alive: it has been called only if the running round did so. */
  predicate OneShot(s: State, addr: Addr, q: nat) {
    && addr in s.heap && s.heap[addr].sequence == q && !s.heap[addr].repeat
    && Calls(s, q) == if Begun(s, addr) then 1 else 0
  }

  predicate AtMostOnce(s: State, addr: Addr, q: nat) {
    OneShot(s, addr, q) || (Gone(s, q) && Calls(s, q) <= 1)
  }

  lemma OneShotCalled(s: State, addr: Addr, q: nat)
    requires Shape(s) && Enabled(s, RunNext) && OneShot(s, addr, q)
    ensures OneShot(Next(s, RunNext), addr, q)
  {
    hide Agree, Addrs, Calls;
    CallCounts(s, q);
    var e, called := Next(s, RunNext), s.expired[s.begun].1;
    assert called in s.heap && (Called(s) == q <==> called == addr);
    if called == addr {
      assert e.expired[s.begun].1 == addr;
      assert !Begun(s, addr);
    } else if Begun(e, addr) {
      var i :| 0 <= i < e.begun && i < |e.expired| && e.expired[i].1 == addr;
      assert i < s.begun;
    }
  }

  lemma OneShotCancelled(s: State, other: Addr, sequence: nat, addr: Addr, q: nat)
    requires Shape(s) && OneShot(s, addr, q)
    ensures AtMostOnce(AfterCancel(s, other, sequence), addr, q)
  {
    hide Agree, Addrs, Erase, Distinct, IsEntry;
    ListedId(s.heap, s.list, s.ids, Members(s), (other, sequence));
    var e := AfterCancel(s, other, sequence);
    assert Begun(e, addr) == Begun(s, addr) && Calls(e, q) == Calls(s, q);
  }

  lemma OneShotRoundEnds(s: State, addr: Addr, q: nat)
    requires Shape(s) && Enabled(s, EndRound) && OneShot(s, addr, q)
    ensures AtMostOnce(AfterEnd(s), addr, q)
  {
    hide Agree, AfterEnd, Distinct, IsEntry;
    RoundEndReinsertsOrDeletes(s);
    EndKeepsSequences(s);
    var e := AfterEnd(s);
    assert Calls(e, q) == Calls(s, q) && !Begun(e, addr);
    if addr !in Addrs(s.expired) && Begun(s, addr) {
      var i :| 0 <= i < s.begun && i < |s.expired| && s.expired[i].1 == addr;
      AddrsAt(s.expired, i);
    }
  }

  lemma OneShotStep(s: State, a: Action, addr: Addr, q: nat)
    requires Shape(s) && Enabled(s, a) && OneShot(s, addr, q)
    ensures AtMostOnce(Next(s, a), addr, q)
  {
    hide Agree, Addrs, AfterCancel, AfterEnd, EraseIds, LowerBound, Insert, Distinct, IsEntry, Numbered;
    match a
    case RunNext => OneShotCalled(s, addr, q);
    case Cancel(other, sequence) => OneShotCancelled(s, other, sequence, addr, q);
    case EndRound => OneShotRoundEnds(s, addr, q);
    case _ =>
      var e := Next(s, a);
      assert Calls(e, q) == Calls(s, q);
      assert Begun(e, addr) == Begun(s, addr);
  }

  /** Every call made is of a timer created. */
  predicate RanKnown(s: State) {
    forall x :: x in s.ran ==> x <= s.numCreated
  }

  lemma RanKnownStep(s: State, a: Action)
    requires Shape(s) && Enabled(s, a) && RanKnown(s)
    ensures RanKnown(Next(s, a))
  {
    hide Agree, Addrs, AfterEnd, Erase, EraseIds, LowerBound, Insert, Distinct, IsEntry;
    match a
    case RunNext =>
      var called := s.expired[s.begun].1;
      assert s.heap[called].sequence <= s.numCreated;
    case EndRound => EndKeepsSequences(s);
    case _ =>
  }

  lemma {:induction false} RunKeepsAtMostOnce(s: State, run: seq<Action>, addr: Addr, q: nat)
    requires Shape(s) && Legal(s, run) && AtMostOnce(s, addr, q)
    ensures AtMostOnce(After(s, run), addr, q)
    decreases |run|
  {
    hide Shape, Enabled, Next, Gone, OneShot, Calls;
    if run != [] {
      StepKeepsShape(s, run[0]);
      if OneShot(s, addr, q) {
        OneShotStep(s, run[0], addr, q);
      } else {
        GoneStaysGone(s, run[0], q);
      }
      RunKeepsAtMostOnce(Next(s, run[0]), run[1..], addr, q);
    }
  }

  lemma {:induction false} RunKeepsRanKnown(s: State, run: seq<Action>)
    requires Shape(s) && Legal(s, run) && RanKnown(s)
    ensures RanKnown(After(s, run))
    decreases |run|
  {
    hide Shape, Enabled, Next, RanKnown;
    if run != [] {
      StepKeepsShape(s, run[0]);
      RanKnownStep(s, run[0]);
      RunKeepsRanKnown(Next(s, run[0]), run[1..]);
    }
  }

  lemma CreatedOneShot(s: State, addr: Addr, when: int, interval: nat)
    requires Shape(s) && Enabled(s, Create(addr, when, interval, false)) && RanKnown(s)
    ensures OneShot(Next(s, Create(addr, when, interval, false)), addr, s.numCreated + 1)
  {
    hide Agree, Addrs;
    assert s.numCreated + 1 !in s.ran;
  }

  lemma InitRanKnown(s: State)
    requires Init(s)
    ensures RanKnown(s)
  {
  }

  lemma AtMostOnceCalls(s: State, addr: Addr, q: nat)
    requires AtMostOnce(s, addr, q)
    ensures Calls(s, q) <= 1
  {
  }

  /** A timer created not to repeat is called at most once, whatever happened before it
      was created and whatever happens after. */
  lemma OneShotRunsAtMostOnce(s: State, before: seq<Action>, addr: Addr, when: int, interval: nat, later: seq<Action>)
    requires Init(s) && Legal(s, before)
    requires Enabled(After(s, before), Create(addr, when, interval, false))
    requires Legal(Next(After(s, before), Create(addr, when, interval, false)), later)
    ensures var e := After(s, before);
            Calls(After(Next(e, Create(addr, when, interval, false)), later), e.numCreated + 1) <= 1
  {
    hide Shape, Enabled, Next, RanKnown, Legal, After, Calls, Gone, OneShot;
    var e, a := After(s, before), Create(addr, when, interval, false);
    InitHasShape(s);
    InitRanKnown(s);
    RunKeepsShape(s, before);
    RunKeepsRanKnown(s, before);
    CreatedOneShot(e, addr, when, interval);
    StepKeepsShape(e, a);
    RunKeepsAtMostOnce(Next(e, a), later, addr, e.numCreated + 1);
    AtMostOnceCalls(After(Next(e, a), later), addr, e.numCreated + 1);
  }

  // ----------------------------------------------------------------- deadlines

  /** The descriptor has been armed no later than the entry `p` expires. */
  predicate Covered(s: State, p: Pair) {
    s.armed.Some? && s.armed.value <= p.0
  }

  /** Outside a round every timer in the sets is covered.  During one those are that the
      end of the round would not arm for, having an expiration that is not valid. */
  predicate Deadline(s: State) {
    && (s.calling ==> s.now > 0)
    && (forall p :: p in s.list && (s.calling ==> p.0 <= 0) ==> Covered(s, p))
  }

  lemma AddKeepsDeadline(s: State, addr: Addr)
    requires Shape(s) && addr in s.waiting && Deadline(s)
    ensures Deadline(AfterAdd(s, addr))
  {
    hide Agree, Addrs, Numbered, Distinct, IsEntry, Insert;
    InsertHolds(s, Entry(s.heap, addr));
    ListSorted(s);
    var e := AfterAdd(s, addr);
    if !Earliest(s, addr) {
      assert s.list[0] in s.list;
    }
    forall p | p in e.list && (e.calling ==> p.0 <= 0) ensures Covered(e, p) {
      if p in s.list {
        var i :| 0 <= i < |s.list| && s.list[i] == p;
      }
    }
  }

  lemma InsertHolds(s: State, x: Pair)
    requires Shape(s)
    ensures forall p :: p in Insert(s.list, x).0 ==> p in s.list || p == x
  {
    InsertMembers(s.list, x);
  }

  lemma CancelKeepsDeadline(s: State, addr: Addr, sequence: nat)
    requires Shape(s) && Deadline(s)
    ensures Deadline(AfterCancel(s, addr, sequence))
  {
    hide Agree, Addrs, Numbered, Distinct, IsEntry, Erase;
    ListedId(s.heap, s.list, s.ids, Members(s), (addr, sequence));
    if (addr, sequence) in s.ids {
      EraseHolds(s, Entry(s.heap, addr));
    }
  }

  lemma EraseHolds(s: State, x: Pair)
    requires Shape(s)
    ensures forall p :: p in Erase(s.list, x).0 ==> p in s.list
  {
    EraseMembers(s.list, x);
  }

  lemma BeginKeepsDeadline(s: State, now: int)
    requires Shape(s) && Enabled(s, BeginRound(now))
    ensures Deadline(AfterBegin(s, now))
  {
    hide Agree, Addrs, Numbered, Distinct, IsEntry, EraseIds, LowerBound;
    CutByExpiration(s, now);
    var e := AfterBegin(s, now);
    forall p | p in e.list ensures p.0 > 0 {
      var i :| 0 <= i < |e.list| && e.list[i] == p;
      assert e.list[i] == s.list[ExpiredCount(s, now) + i];
    }
  }

  lemma EndKeepsDeadline(s: State)
    requires Shape(s) && Enabled(s, EndRound) && Deadline(s)
    ensures Deadline(AfterEnd(s))
  {
    hide Agree, ResetAll, ResetSucceeds, Numbered, Distinct, IsEntry, Addrs;
    var s0, e := s.(calling := false), AfterEnd(s);
    EndKeepsShape(s);
    ResetAgrees(s0, s.expired, Members(s));
    RoundEndReinsertsOrDeletes(s);
    ListedAlive(e.heap, e.list, e.ids, Members(e));
    ListSorted(e);
    forall p | p in e.list ensures p.0 > 0 || Covered(s, p) {
      var i :| 0 <= i < |e.list| && e.list[i] == p;
      if p.1 in Members(s) {
        var j := MemberListed(s, p.1);
        assert s.list[j] in s.list;
      }
    }
    forall p | p in e.list ensures Covered(e, p) {
      var i :| 0 <= i < |e.list| && e.list[i] == p;
      assert e.list[0] in e.list;
    }
  }

  lemma StepKeepsDeadline(s: State, a: Action)
    requires Shape(s) && Enabled(s, a) && Deadline(s)
    ensures Deadline(Next(s, a))
  {
    hide Shape, Addrs, AfterAdd, AfterCancel, AfterBegin, AfterEnd;
    match a
    case AddInLoop(addr) => AddKeepsDeadline(s, addr);
    case Cancel(addr, sequence) => CancelKeepsDeadline(s, addr, sequence);
    case BeginRound(now) => BeginKeepsDeadline(s, now);
    case EndRound => EndKeepsDeadline(s);
    case _ =>
  }

  lemma {:induction false} RunKeepsDeadline(s: State, run: seq<Action>)
    requires Shape(s) && Legal(s, run) && Deadline(s)
    ensures Deadline(After(s, run)) && Shape(After(s, run))
    decreases |run|
  {
    hide Shape, Enabled, Next, Deadline;
    if run != [] {
      StepKeepsShape(s, run[0]);
      StepKeepsDeadline(s, run[0]);
      RunKeepsDeadline(Next(s, run[0]), run[1..]);
    }
  }

  /** No deadline is missed: after any run, outside a round, the descriptor is armed no
      later than the earliest expiration of any timer in the sets. */
  lemma NoMissedDeadline(s: State, run: seq<Action>, a: Addr)
    requires Init(s) && Legal(s, run)
    requires !After(s, run).calling && a in Members(After(s, run))
    ensures var e := After(s, run);
            a in e.heap && e.armed.Some? && e.armed.value <= e.heap[a].expiration
  {
    InitHasShape(s);
    RunKeepsDeadline(s, run);
    hide Shape, Legal, After;
    var e := After(s, run);
    var i := MemberListed(e, a);
    assert e.list[i] in e.list;
  }
}
