/** The bounded queue with one condition variable (base/consumerProducerQueue.h): every
    operation unlocks first and notifies everybody afterwards. */
module ConsumerProducerQueue {
  import opened Options

  type Tid = nat
  type Item = nat

  /** What a thread inside `add` or `consume` waits for. */
  datatype Want = Space(item: Item) | Something

  /** How an item left the queue. */
  datatype Out = Consumed(item: Item) | Cleared(item: Item)

  datatype State = State(
    maxSize: nat,                  // m_maxSize
    queue: seq<Item>,              // m_queue
    asleep: map<Tid, Want>,        // threads waiting on m_cond,
    woken: map<Tid, Want>,         // and those woken that have not looked again
    unlocked: set<Tid>,            // threads between unlock and notify_all
    added: seq<Item>,              // every item added
    out: seq<Out>)                 // every item that left

  datatype Action =
    | Call(t: Tid, want: Want)     // add or consume, up to waiting or unlocking
    | Again(t: Tid)                // the same, woken
    | Clear(t: Tid)                // clear, up to unlocking
    | NotifyAll(t: Tid)
    | Spurious(t: Tid)             // woken by nobody

  predicate IsFull(s: State) {
    |s.queue| >= s.maxSize
  }

  /** The condition of a `wait` does not hold. */
  predicate MustWait(s: State, want: Want) {
    if want.Space? then IsFull(s) else s.queue == []
  }

  predicate Outside(s: State, t: Tid) {
    t !in s.asleep && t !in s.woken && t !in s.unlocked
  }

  predicate Enabled(s: State, a: Action) {
    match a
    case Call(t, want) => Outside(s, t)
    case Again(t) => t in s.woken
    case Clear(t) => Outside(s, t)
    case NotifyAll(t) => t in s.unlocked
    case Spurious(t) => t in s.asleep
  }

  /** The critical section of `add` and `consume`. */
  function Entered(s: State, t: Tid, want: Want): State {
    if MustWait(s, want) then s.(asleep := s.asleep[t := want])
    else if want.Space? then
      s.(queue := s.queue + [want.item], added := s.added + [want.item], unlocked := s.unlocked + {t})
    else s.(queue := s.queue[1..], out := s.out + [Consumed(s.queue[0])], unlocked := s.unlocked + {t})
  }

  function AllCleared(items: seq<Item>): seq<Out> {
    seq(|items|, i requires 0 <= i < |items| => Cleared(items[i]))
  }

  function Next(s: State, a: Action): State
    requires Enabled(s, a)
  {
    match a
    case Call(t, want) => Entered(s, t, want)
    case Again(t) => Entered(s.(woken := s.woken - {t}), t, s.woken[t])
    case Clear(t) => s.(queue := [], out := s.out + AllCleared(s.queue), unlocked := s.unlocked + {t})
    case NotifyAll(t) =>
      s.(asleep := map[], woken := s.woken + s.asleep, unlocked := s.unlocked - {t})
    case Spurious(t) => s.(asleep := s.asleep - {t}, woken := s.woken[t := s.asleep[t]])
  }

  predicate Legal(s: State, run: seq<Action>)
    decreases |run|
  {
    run == [] || (Enabled(s, run[0]) && Legal(Next(s, run[0]), run[1..]))
  }

  function After(s: State, run: seq<Action>): State
    requires Legal(s, run)
    decreases |run|
  {
    if run == [] then s else After(Next(s, run[0]), run[1..])
  }

  predicate New(s: State) {
    s.queue == [] && s.asleep == map[] && s.woken == map[] && s.unlocked == {} && s.added == [] && s.out == []
  }

  function Items(out: seq<Out>): seq<Item> {
    seq(|out|, i requires 0 <= i < |out| => out[i].item)
  }

  /** If a thread sleeps although its condition holds, a notification is on its way. */
  predicate NoLostWakeup(s: State) {
    forall t :: t in s.asleep && !MustWait(s, s.asleep[t]) ==> s.unlocked != {}
  }

  predicate Conserves(s: State) {
    s.added == Items(s.out) + s.queue && |s.queue| <= s.maxSize
  }

  predicate Inv(s: State) {
    NoLostWakeup(s) && Conserves(s)
  }

  lemma StepKeepsWakeups(s: State, a: Action)
    requires NoLostWakeup(s) && Enabled(s, a)
    ensures NoLostWakeup(Next(s, a))
  {
    var e := Next(s, a);
    forall t | t in e.asleep && !MustWait(e, e.asleep[t]) ensures e.unlocked != {} {
      if e.queue != s.queue {
        assert a.t in e.unlocked;
      }
    }
  }

  lemma StepConserves(s: State, a: Action)
    requires Conserves(s) && Enabled(s, a)
    ensures Conserves(Next(s, a))
  {
    var e := Next(s, a);
    if a.Clear? {
      assert Items(e.out) == Items(s.out) + s.queue;
    } else if |e.out| > |s.out| {
      assert Items(e.out) == Items(s.out) + [s.queue[0]];
      assert s.queue == [s.queue[0]] + e.queue;
    }
  }

  lemma {:induction false} RunKeepsInv(s: State, run: seq<Action>)
    requires Inv(s) && Legal(s, run)
    ensures Inv(After(s, run))
    decreases |run|
  {
    hide NoLostWakeup, Conserves, Enabled, Next;
    if run != [] {
      StepKeepsWakeups(s, run[0]);
      StepConserves(s, run[0]);
      RunKeepsInv(Next(s, run[0]), run[1..]);
    }
  }

  /** Whatever the threads do: the queue is within its size; the items that left, consumed
      or cleared, followed by those queued are those added, in order; and when nobody is
      about to notify, a sleeping consumer means an empty queue and a sleeping producer a
      full one, so that the two never sleep together unless the size is zero. */
  lemma NotifyAllSuffices(s: State, run: seq<Action>)
    requires New(s) && Legal(s, run)
    ensures var e := After(s, run);
            && |e.queue| <= e.maxSize && e.added == Items(e.out) + e.queue
            && (e.unlocked == {} ==>
                  && (forall t :: t in e.asleep ==> if e.asleep[t].Something? then e.queue == [] else IsFull(e))
                  && (forall t, u :: t in e.asleep && u in e.asleep && e.asleep[t].Something? && e.asleep[u].Space? ==>
                        e.maxSize == 0))
  {
    assert Inv(s);
    RunKeepsInv(s, run);
  }

  // ------------------------------------------------------------- the bounded list

  /** A bounded list alone, without sleeping or waking: what the calls ask of it and have
      not got yet, which threads have changed it and not said so, and what came in and out. */
  datatype Bounded = Bounded(
    items: seq<Item>, asked: map<Tid, Want>, silent: set<Tid>, added: seq<Item>, out: seq<Out>)

  /** A request is met if there is room or an item for it, and kept if not. */
  function Try(b: Bounded, size: nat, t: Tid, want: Want): Bounded {
    match want
    case Space(item) =>
      if |b.items| < size then
        b.(items := b.items + [item], added := b.added + [item], asked := b.asked - {t}, silent := b.silent + {t})
      else b.(asked := b.asked[t := want])
    case Something =>
      if b.items != [] then
        b.(items := b.items[1..], out := b.out + [Consumed(b.items[0])], asked := b.asked - {t},
           silent := b.silent + {t})
      else b.(asked := b.asked[t := want])
  }

  /** What a run's actions do to the list: a call brings its request, a thread that looks
      again tries the one it came with. */
  function Replay(b: Bounded, size: nat, run: seq<Action>): Bounded
    decreases |run|
  {
    if run == [] then b
    else
      var next := match run[0]
        case Call(t, want) => Try(b, size, t, want)
        case Again(t) => if t in b.asked then Try(b, size, t, b.asked[t]) else b
        case Clear(t) => b.(items := [], out := b.out + AllCleared(b.items), silent := b.silent + {t})
        case NotifyAll(t) => b.(silent := b.silent - {t})
        case Spurious(_) => b;
      Replay(next, size, run[1..])
  }

  /** The threads asleep or woken are those whose requests the list keeps. */
  ghost predicate Follows(s: State, b: Bounded) {
    && s.queue == b.items && s.added == b.added && s.out == b.out && s.unlocked == b.silent
    && (forall t :: t in b.asked <==> t in s.asleep || t in s.woken)
    && (forall t :: t in s.asleep ==> t !in s.woken && s.asleep[t] == b.asked[t])
    && (forall t :: t in s.woken ==> s.woken[t] == b.asked[t])
  }

  lemma StepFollows(s: State, b: Bounded, a: Action)
    requires Follows(s, b) && Enabled(s, a)
    ensures Follows(Next(s, a), Replay(b, s.maxSize, [a]))
  {
    assert [a][1..] == [];
    match a
    case Call(t, want) => assert b.asked - {t} == b.asked;
    case _ =>
  }

  lemma ReplayFirst(b: Bounded, size: nat, run: seq<Action>)
    requires run != []
    ensures Replay(b, size, run) == Replay(Replay(b, size, [run[0]]), size, run[1..])
  {
    assert [run[0]][1..] == [];
  }

  lemma {:induction false} RunFollows(s: State, b: Bounded, run: seq<Action>)
    requires Follows(s, b) && Legal(s, run)
    ensures Follows(After(s, run), Replay(b, s.maxSize, run))
    decreases |run|
  {
    hide Follows, Enabled, Replay;
    if run == [] {
      EmptyReplay(b, s.maxSize);
    } else {
      StepFollows(s, b, run[0]);
      ReplayFirst(b, s.maxSize, run);
      RunFollows(Next(s, run[0]), Replay(b, s.maxSize, [run[0]]), run[1..]);
    }
  }

  lemma EmptyReplay(b: Bounded, size: nat)
    ensures Replay(b, size, []) == b
  {
  }

  /** However the threads sleep and wake, the queue does what a bounded list does with the
      same calls: every item in it, added or gone is the list's, the threads inside `add`
      and `consume` wait for what the list has not given them, and those about to notify
      are those that have changed the list since they last did. */
  lemma QueueFollowsCalls(s: State, run: seq<Action>)
    requires New(s) && Legal(s, run)
    ensures var e, b := After(s, run), Replay(Bounded([], map[], {}, [], []), s.maxSize, run);
            && e.queue == b.items && e.added == b.added && e.out == b.out
            && e.woken + e.asleep == b.asked && e.unlocked == b.silent
  {
    hide Legal, After, Replay;
    RunFollows(s, Bounded([], map[], {}, [], []), run);
  }

  // ------------------------------------------------------------- the critical sections

  /** A thread comes to the test of a `wait` with its call, or woken. */
  predicate AtTest(s: State, t: Tid, want: Want) {
    Outside(s, t) || (t in s.woken && s.woken[t] == want)
  }

  function Entry(s: State, t: Tid, want: Want): (a: Action)
    requires AtTest(s, t, want)
    ensures Enabled(s, a)
  {
    if t in s.woken then Again(t) else Call(t, want)
  }

  class ConsumerProducerQueue {
    const maxSize: nat
    var queue: seq<Item>
    ghost var asleep: map<Tid, Want>
    ghost var woken: map<Tid, Want>
    ghost var unlocked: set<Tid>
    ghost var added: seq<Item>
    ghost var out: seq<Out>

    ghost function View(): State
      reads this
    {
      State(maxSize, queue, asleep, woken, unlocked, added, out)
    }

    constructor (maxSize: nat)
      ensures New(View()) && View().maxSize == maxSize
    {
      this.maxSize := maxSize;
      queue, asleep, woken, unlocked, added, out := [], map[], map[], {}, [], [];
    }

    /** `add` by a thread that has locked the mutex, with a call or woken, until
        it waits or unlocks. */
    method Add(t: Tid, request: Item) returns (done: bool)
      requires Inv(View()) && AtTest(View(), t, Space(request)) && t !in unlocked
      modifies this
      ensures View() == Next(old(View()), Entry(old(View()), t, Space(request))) && Inv(View())
      ensures done <==> |old(queue)| < maxSize
      ensures queue == if done then old(queue) + [request] else old(queue)
      ensures unlocked == if done then old(unlocked) + {t} else old(unlocked)
      ensures !done ==> t in asleep && asleep[t] == Space(request)
    {
      StepKeepsWakeups(View(), Entry(View(), t, Space(request)));
      StepConserves(View(), Entry(View(), t, Space(request)));
      assert t !in woken ==> woken - {t} == woken;
      woken := woken - {t};
      if |queue| >= maxSize {
        asleep := asleep[t := Space(request)];
        return false;
      }
      queue := queue + [request];
      added := added + [request];
      unlocked := unlocked + {t};
      done := true;
    }

    /** `consume`, likewise. */
    method Consume(t: Tid) returns (request: Option<Item>)
      requires Inv(View()) && AtTest(View(), t, Something)
      modifies this
      ensures View() == Next(old(View()), Entry(old(View()), t, Something)) && Inv(View())
      ensures request == if old(queue) == [] then None else Some(old(queue)[0])
      ensures queue == if request.Some? then old(queue)[1..] else []
      ensures unlocked == if request.Some? then old(unlocked) + {t} else old(unlocked)
      ensures request.None? ==> t in asleep && asleep[t] == Something
    {
      StepKeepsWakeups(View(), Entry(View(), t, Something));
      StepConserves(View(), Entry(View(), t, Something));
      assert t !in woken ==> woken - {t} == woken;
      woken := woken - {t};
      if |queue| == 0 {
        asleep := asleep[t := Something];
        return None;
      }
      request := Some(queue[0]);
      out := out + [Consumed(queue[0])];
      queue := queue[1..];
      unlocked := unlocked + {t};
    }

    /** `clear`, until it unlocks. */
    method Clear(t: Tid)
      requires Inv(View()) && Outside(View(), t)
      modifies this
      ensures View() == Next(old(View()), Action.Clear(t)) && Inv(View())
      ensures queue == [] && unlocked == old(unlocked) + {t}
    {
      ghost var s := View();
      StepKeepsWakeups(s, Action.Clear(t));
      StepConserves(s, Action.Clear(t));
      ghost var n := 0;
      while |queue| > 0
        invariant n <= |s.queue| && queue == s.queue[n..]
        invariant View() == s.(queue := queue, out := s.out + AllCleared(s.queue)[..n])
      {
        out := out + [Cleared(queue[0])];
        queue := queue[1..];
        n := n + 1;
      }
      assert AllCleared(s.queue)[..n] == AllCleared(s.queue);
      unlocked := unlocked + {t};
    }

    /** `m_cond.notify_all` */
    method NotifyAll(t: Tid)
      requires Inv(View()) && t in unlocked
      modifies this
      ensures View() == Next(old(View()), Action.NotifyAll(t)) && Inv(View())
      ensures asleep == map[] && woken.Keys == old(woken.Keys + asleep.Keys) && queue == old(queue)
      ensures unlocked == old(unlocked) - {t}
    {
      StepKeepsWakeups(View(), Action.NotifyAll(t));
      woken := woken + asleep;
      asleep := map[];
      unlocked := unlocked - {t};
    }
  }
}
