/** The thread pool's monitor (base/threadPool.cpp) while it runs with at least one
    thread: one mutex, two condition variables, `notify_one` waking any one sleeper,
    and sleepers that may also wake for no reason. */
module ThreadPool {
  import opened Options

  type Tid = nat
  type Task = nat

  datatype State = State(
    cap: nat,                      // m_maxQueueSize; 0 is no limit
    workers: set<Tid>,             // m_threads
    queue: seq<Task>,              // m_taskQueue
    sleepTake: set<Tid>,           // threads waiting on m_notEmpty,
    wokenTake: set<Tid>,           // and those woken there that have not looked again
    sleepRun: set<Tid>,            // the same for m_notFull
    wokenRun: set<Tid>,
    offers: map<Tid, Task>,        // the tasks the threads inside `run` bring
    pushed: seq<Task>,             // every task put in the queue
    taken: seq<Task>)              // every task taken out

  /** What one thread does between acquiring the mutex and waiting or releasing it.
      `wake` is the sleeper its `notify_one` wakes. */
  datatype Action =
    | Run(t: Tid, task: Task, wake: Option<Tid>)   // a call of `run`
    | RunAgain(t: Tid, wake: Option<Tid>)          // woken in `run`
    | Take(t: Tid, wake: Option<Tid>)              // a worker's call of `take`
    | TakeAgain(t: Tid, wake: Option<Tid>)         // woken in `take`
    | Spurious(t: Tid)                             // woken by nobody

  predicate IsFull(s: State) {
    s.cap > 0 && |s.queue| >= s.cap
  }

  /** Not inside `take` or `run`: running a task, or not one of the pool's threads. */
  predicate Outside(s: State, t: Tid) {
    t !in s.sleepTake && t !in s.wokenTake && t !in s.sleepRun && t !in s.wokenRun
  }

  /** `notify_one` wakes some sleeper, if there is one. */
  predicate Wakes(sleepers: set<Tid>, wake: Option<Tid>) {
    if sleepers == {} then wake.None? else wake.Some? && wake.value in sleepers
  }

  predicate PushWakes(s: State, wake: Option<Tid>) {
    if IsFull(s) then wake.None? else Wakes(s.sleepTake, wake)
  }

  predicate PopWakes(s: State, wake: Option<Tid>) {
    if s.queue == [] || s.cap == 0 then wake.None? else Wakes(s.sleepRun, wake)
  }

  predicate Enabled(s: State, a: Action) {
    match a
    case Run(t, task, wake) => Outside(s, t) && PushWakes(s, wake)
    case RunAgain(t, wake) => t in s.wokenRun && t in s.offers && PushWakes(s, wake)
    case Take(t, wake) => t in s.workers && Outside(s, t) && PopWakes(s, wake)
    case TakeAgain(t, wake) => t in s.wokenTake && PopWakes(s, wake)
    case Spurious(t) => t in s.sleepTake || t in s.sleepRun
  }

  function Woken(wake: Option<Tid>): set<Tid> {
    if wake.Some? then {wake.value} else {}
  }

  /** The body of `run`'s loop and what follows it, for a thread outside the four sets. */
  function Offered(s: State, t: Tid, task: Task, wake: Option<Tid>): State {
    if IsFull(s) then s.(sleepRun := s.sleepRun + {t}, offers := s.offers[t := task])
    else
      s.(queue := s.queue + [task], pushed := s.pushed + [task], offers := s.offers - {t},
         sleepTake := s.sleepTake - Woken(wake), wokenTake := s.wokenTake + Woken(wake))
  }

  /** The same for `take`. */
  function Asked(s: State, t: Tid, wake: Option<Tid>): State {
    if s.queue == [] then s.(sleepTake := s.sleepTake + {t})
    else
      s.(queue := s.queue[1..], taken := s.taken + [s.queue[0]],
         sleepRun := s.sleepRun - Woken(wake), wokenRun := s.wokenRun + Woken(wake))
  }

  function Next(s: State, a: Action): State
    requires Enabled(s, a)
  {
    match a
    case Run(t, task, wake) => Offered(s, t, task, wake)
    case RunAgain(t, wake) => Offered(s.(wokenRun := s.wokenRun - {t}), t, s.offers[t], wake)
    case Take(t, wake) => Asked(s, t, wake)
    case TakeAgain(t, wake) => Asked(s.(wokenTake := s.wokenTake - {t}), t, wake)
    case Spurious(t) =>
      if t in s.sleepTake then s.(sleepTake := s.sleepTake - {t}, wokenTake := s.wokenTake + {t})
      else s.(sleepRun := s.sleepRun - {t}, wokenRun := s.wokenRun + {t})
  }

  predicate Legal(s: State, run: seq<Action>)
    decreases |run|
  {
    run == [] || (Enabled(s, run[0]) && Legal(Next(s, run[0]), run[1..]))
  }

  function After(s: State, run: seq<Action>): State
    requires Legal(s, run)
    decreases |run|
  {
    if run == [] then s else After(Next(s, run[0]), run[1..])
  }

  /** `start` has been called with at least one thread. */
  predicate Started(s: State) {
    && s.workers != {} && s.queue == [] && s.pushed == [] && s.taken == [] && s.offers == map[]
    && s.sleepTake == {} && s.wokenTake == {} && s.sleepRun == {} && s.wokenRun == {}
  }

  /** A thread is in one place, only workers are inside `take`, and each thread inside
      `run` has its task. */
  predicate Placed(s: State) {
    && s.sleepTake !! s.wokenTake !! s.sleepRun !! s.wokenRun
    && s.sleepTake + s.wokenTake <= s.workers && s.workers != {}
    && s.offers.Keys == s.sleepRun + s.wokenRun
  }

  /** The queue never exceeds its capacity; while a thread sleeps in `take`, every queued
      task has a woken thread of its own; while one sleeps in `run`, the queue and the
      woken producers fill the capacity. */
  predicate Signalled(s: State) {
    && (s.cap > 0 ==> |s.queue| <= s.cap)
    && (s.sleepTake != {} ==> |s.queue| <= |s.wokenTake|)
    && (s.sleepRun != {} ==> |s.queue| + |s.wokenRun| >= s.cap)
    && (s.sleepRun + s.wokenRun != {} ==> s.cap > 0)
  }

  /** Every worker is inside `run`. */
  predicate AllInRun(s: State) {
    s.workers <= s.sleepRun + s.wokenRun
  }

  predicate Inv(s: State) {
    Placed(s) && Signalled(s) && s.pushed == s.taken + s.queue && (AllInRun(s) ==> IsFull(s))
  }

  lemma StepKeepsPlaced(s: State, a: Action)
    requires Placed(s) && Enabled(s, a)
    ensures Placed(Next(s, a))
  {
  }

  lemma OneMore(s: set<Tid>, t: Tid)
    ensures t !in s ==> |s + {t}| == |s| + 1
    ensures t in s ==> |s - {t}| == |s| - 1
  {
  }

  /** `run` restores the signalling if at most the thread itself was missing. */
  lemma OfferedSignals(s: State, t: Tid, task: Task, wake: Option<Tid>)
    requires PushWakes(s, wake) && s.sleepTake !! s.wokenTake
    requires s.cap > 0 ==> |s.queue| <= s.cap
    requires s.sleepTake != {} ==> |s.queue| <= |s.wokenTake|
    requires s.sleepRun != {} ==> |s.queue| + |s.wokenRun| + 1 >= s.cap
    requires s.sleepRun + s.wokenRun != {} ==> s.cap > 0
    ensures Signalled(Offered(s, t, task, wake))
  {
    if wake.Some? { OneMore(s.wokenTake, wake.value); }
  }

  lemma AskedSignals(s: State, t: Tid, wake: Option<Tid>)
    requires PopWakes(s, wake) && s.sleepRun !! s.wokenRun
    requires s.cap > 0 ==> |s.queue| <= s.cap
    requires s.sleepTake != {} ==> |s.queue| <= |s.wokenTake| + 1
    requires s.sleepRun != {} ==> |s.queue| + |s.wokenRun| >= s.cap
    requires s.sleepRun + s.wokenRun != {} ==> s.cap > 0
    ensures Signalled(Asked(s, t, wake))
  {
    if wake.Some? { OneMore(s.wokenRun, wake.value); }
  }

  lemma SpuriousSignals(s: State, t: Tid)
    requires Placed(s) && Signalled(s) && Enabled(s, Spurious(t))
    ensures Signalled(Next(s, Spurious(t)))
  {
    OneMore(s.wokenTake, t);
    OneMore(s.wokenRun, t);
  }

  lemma RunAgainSignals(s: State, t: Tid, wake: Option<Tid>)
    requires Placed(s) && Signalled(s) && Enabled(s, RunAgain(t, wake))
    ensures Signalled(Next(s, RunAgain(t, wake)))
  {
    hide Offered;
    OneMore(s.wokenRun, t);
    OfferedSignals(s.(wokenRun := s.wokenRun - {t}), t, s.offers[t], wake);
  }

  lemma TakeAgainSignals(s: State, t: Tid, wake: Option<Tid>)
    requires Placed(s) && Signalled(s) && Enabled(s, TakeAgain(t, wake))
    ensures Signalled(Next(s, TakeAgain(t, wake)))
  {
    hide Asked;
    OneMore(s.wokenTake, t);
    AskedSignals(s.(wokenTake := s.wokenTake - {t}), t, wake);
  }

  lemma StepKeepsSignalled(s: State, a: Action)
    requires Placed(s) && Signalled(s) && Enabled(s, a)
    ensures Signalled(Next(s, a))
  {
    hide Offered, Asked;
    match a
    case Run(t, task, wake) => OfferedSignals(s, t, task, wake);
    case RunAgain(t, wake) => RunAgainSignals(s, t, wake);
    case Take(t, wake) => AskedSignals(s, t, wake);
    case TakeAgain(t, wake) => TakeAgainSignals(s, t, wake);
    case Spurious(t) => SpuriousSignals(s, t);
  }

  lemma StepConserves(s: State, a: Action)
    requires s.pushed == s.taken + s.queue && Enabled(s, a)
    ensures Next(s, a).pushed == Next(s, a).taken + Next(s, a).queue
  {
  }

  /** Once every worker is inside `run`, nothing is taken, and they all stay there. */
  lemma NothingMovesInRun(s: State, a: Action)
    requires Placed(s) && Enabled(s, a) && AllInRun(s) && IsFull(s)
    ensures AllInRun(Next(s, a)) && Next(s, a).queue == s.queue && Next(s, a).taken == s.taken
    ensures Next(s, a).cap == s.cap
  {
  }

  /** The last worker to go there found the queue full. */
  lemma LastOneFoundItFull(s: State, a: Action)
    requires Placed(s) && Enabled(s, a) && !AllInRun(s)
    ensures AllInRun(Next(s, a)) ==> IsFull(Next(s, a))
  {
    if AllInRun(Next(s, a)) {
      match a
      case Run(u, task, wake) =>
      case RunAgain(u, wake) =>
      case Take(u, wake) =>
      case TakeAgain(u, wake) =>
      case Spurious(u) =>
    }
  }

  lemma StepKeepsInv(s: State, a: Action)
    requires Inv(s) && Enabled(s, a)
    ensures Inv(Next(s, a))
  {
    hide Placed, Signalled, Enabled, Next;
    StepKeepsPlaced(s, a);
    StepKeepsSignalled(s, a);
    StepConserves(s, a);
    if AllInRun(s) {
      NothingMovesInRun(s, a);
    } else {
      LastOneFoundItFull(s, a);
    }
  }

  lemma Member(s: set<Tid>) returns (t: Tid)
    requires s != {}
    ensures t in s
  {
    t :| t in s;
  }

  lemma StartedHasInv(s: State)
    requires Started(s)
    ensures Inv(s)
  {
    assert !AllInRun(s) by {
      var w := Member(s.workers);
    }
  }

  lemma {:induction false} RunKeepsInv(s: State, run: seq<Action>)
    requires Inv(s) && Legal(s, run)
    ensures Inv(After(s, run))
    decreases |run|
  {
    hide Inv, Enabled, Next;
    if run != [] {
      StepKeepsInv(s, run[0]);
      RunKeepsInv(Next(s, run[0]), run[1..]);
    }
  }

  /** Some worker sleeps neither in `take` nor in `run`. */
  predicate SomeoneAwake(s: State) {
    exists w :: w in s.workers && w !in s.sleepTake && w !in s.sleepRun
  }

  lemma NotAllInTake(s: State)
    requires Inv(s) && s.queue != []
    ensures exists w :: w in s.workers && w !in s.sleepTake
  {
    if AllInRun(s) {
      var w := Member(s.workers);
      assert w in s.workers && w !in s.sleepTake;
    } else {
      QueuedMeansAwake(s);
    }
  }

  lemma QueuedMeansAwake(s: State)
    requires Inv(s) && s.queue != [] && !AllInRun(s)
    ensures SomeoneAwake(s)
  {
    var w := Member(s.workers - (s.sleepRun + s.wokenRun));
    if w in s.sleepTake {
      var u := Member(s.wokenTake);
      assert u in s.workers && u !in s.sleepTake && u !in s.sleepRun;
    } else {
      assert w in s.workers && w !in s.sleepTake && w !in s.sleepRun;
    }
  }

  /** `notify_one` is enough: after any run of any threads the queue is within capacity; a
      queued task means some worker is awake, unless they are all inside `run`; an asleep
      producer means the queue with the producers already woken fills the capacity; and the
      tasks taken, each once and in order, followed by those queued are those pushed. */
  lemma NotifyOneSuffices(s: State, run: seq<Action>)
    requires Started(s) && Legal(s, run)
    ensures var e := After(s, run);
            && (e.cap > 0 ==> |e.queue| <= e.cap)
            && (e.queue != [] ==> exists w :: w in e.workers && w !in e.sleepTake)
            && (e.queue != [] && !AllInRun(e) ==> SomeoneAwake(e))
            && (e.sleepRun != {} ==> |e.queue| + |e.wokenRun| >= e.cap)
            && e.pushed == e.taken + e.queue
  {
    hide Started, Legal, After, Placed, AllInRun;
    StartedHasInv(s);
    RunKeepsInv(s, run);
    if After(s, run).queue != [] {
      NotAllInTake(After(s, run));
      if !AllInRun(After(s, run)) {
        QueuedMeansAwake(After(s, run));
      }
    }
  }

  // ---------------------------------------------------------------- the bounded list

  /** A bounded list of tasks alone, without threads asleep or woken: the tasks offered to
      it for which there was no place yet, the threads that asked for a task in vain, and
      what came in and out. */
  datatype Bounded = Bounded(
    tasks: seq<Task>, offered: map<Tid, Task>, asking: set<Tid>, pushed: seq<Task>, taken: seq<Task>)

  function Give(b: Bounded, cap: nat, t: Tid, task: Task): Bounded {
    if cap == 0 || |b.tasks| < cap
    then b.(tasks := b.tasks + [task], pushed := b.pushed + [task], offered := b.offered - {t})
    else b.(offered := b.offered[t := task])
  }

  function Fetch(b: Bounded, t: Tid): Bounded {
    if b.tasks != []
    then b.(tasks := b.tasks[1..], taken := b.taken + [b.tasks[0]], asking := b.asking - {t})
    else b.(asking := b.asking + {t})
  }

  /** What a run's actions do to the list: a call of `run` brings its task, a thread woken
      there tries the one it came with. */
  function Replay(b: Bounded, cap: nat, run: seq<Action>): Bounded
    decreases |run|
  {
    if run == [] then b
    else
      var next := match run[0]
        case Run(t, task, _) => Give(b, cap, t, task)
        case RunAgain(t, _) => if t in b.offered then Give(b, cap, t, b.offered[t]) else b
        case Take(t, _) => Fetch(b, t)
        case TakeAgain(t, _) => Fetch(b, t)
        case Spurious(_) => b;
      Replay(next, cap, run[1..])
  }

  /** The threads inside `run` and `take` are those the list keeps. */
  predicate Follows(s: State, b: Bounded) {
    && s.queue == b.tasks && s.pushed == b.pushed && s.taken == b.taken
    && s.offers == b.offered && s.sleepTake + s.wokenTake == b.asking
  }

  lemma StepFollows(s: State, b: Bounded, a: Action)
    requires Placed(s) && Follows(s, b) && Enabled(s, a)
    ensures Follows(Next(s, a), Replay(b, s.cap, [a]))
  {
    assert [a][1..] == [];
  }

  lemma ReplayFirst(b: Bounded, cap: nat, run: seq<Action>)
    requires run != []
    ensures Replay(b, cap, run) == Replay(Replay(b, cap, [run[0]]), cap, run[1..])
  {
    assert [run[0]][1..] == [];
  }

  lemma EmptyReplay(b: Bounded, cap: nat)
    ensures Replay(b, cap, []) == b
  {
  }

  lemma {:induction false} RunFollows(s: State, b: Bounded, run: seq<Action>)
    requires Placed(s) && Follows(s, b) && Legal(s, run)
    ensures Follows(After(s, run), Replay(b, s.cap, run)) && Placed(After(s, run))
    decreases |run|
  {
    hide Placed, Follows, Enabled, Replay;
    if run == [] {
      EmptyReplay(b, s.cap);
    } else {
      StepFollows(s, b, run[0]);
      StepKeepsPlaced(s, run[0]);
      ReplayFirst(b, s.cap, run);
      RunFollows(Next(s, run[0]), Replay(b, s.cap, [run[0]]), run[1..]);
    }
  }

  /** However the threads sleep and wake, the pool's queue does what a bounded list does
      with the same calls: the tasks queued, put in and taken out are the list's, and the
      threads inside `run` and `take` are those it has not served, with their tasks. */
  lemma QueueFollowsCalls(s: State, run: seq<Action>)
    requires Started(s) && Legal(s, run)
    ensures var e, b := After(s, run), Replay(Bounded([], map[], {}, [], []), s.cap, run);
            && e.queue == b.tasks && e.pushed == b.pushed && e.taken == b.taken
            && e.sleepRun + e.wokenRun == b.offered.Keys && e.sleepTake + e.wokenTake == b.asking
  {
    hide Legal, After, Replay;
    RunFollows(s, Bounded([], map[], {}, [], []), run);
  }

  // ---------------------------------------------------------------- getting stuck

  lemma {:induction false} StuckForGood(s: State, run: seq<Action>)
    requires Inv(s) && AllInRun(s) && Legal(s, run)
    ensures After(s, run).taken == s.taken && AllInRun(After(s, run))
    decreases |run|
  {
    hide Placed, Signalled, Enabled, Next, AllInRun;
    if run != [] {
      StepKeepsInv(s, run[0]);
      NothingMovesInRun(s, run[0]);
      StuckForGood(Next(s, run[0]), run[1..]);
    }
  }

  /** A thread to wake, if there is one. */
  lemma SomeWake(sleepers: set<Tid>) returns (wake: Option<Tid>)
    ensures Wakes(sleepers, wake)
  {
    if sleepers == {} {
      wake := None;
    } else {
      var t := Member(sleepers);
      wake := Some(t);
    }
  }

  lemma PopWaker(s: State) returns (wake: Option<Tid>)
    ensures PopWakes(s, wake)
  {
    wake := None;
    if s.queue != [] && s.cap > 0 {
      wake := SomeWake(s.sleepRun);
    }
  }

  lemma PushWaker(s: State) returns (wake: Option<Tid>)
    ensures PushWakes(s, wake)
  {
    wake := None;
    if !IsFull(s) {
      wake := SomeWake(s.sleepTake);
    }
  }

  /** No thread is held back but by sleeping, and a sleeper may wake without cause. */
  lemma EveryThreadCanStep(s: State, t: Tid, task: Task) returns (a: Action)
    requires Inv(s)
    ensures Enabled(s, a) && a.t == t
    ensures t in s.sleepTake + s.sleepRun <==> a.Spurious?
  {
    hide PushWakes, PopWakes, Signalled;
    var push := PushWaker(s);
    var pop := PopWaker(s);
    a := if t in s.sleepTake + s.sleepRun then Spurious(t)
         else if t in s.wokenRun then RunAgain(t, push)
         else if t in s.wokenTake then TakeAgain(t, pop)
         else Run(t, task, push);
  }

  /** Unless every worker is inside `run`, one of them can take the first task now. */
  lemma SomeoneCanTake(s: State) returns (a: Action)
    requires Inv(s) && s.queue != [] && !AllInRun(s)
    ensures Enabled(s, a) && Next(s, a).taken == s.taken + [s.queue[0]]
  {
    hide PopWakes;
    var wake := PopWaker(s);
    var w := Member(s.workers - (s.sleepRun + s.wokenRun));
    if w !in s.sleepTake + s.wokenTake {
      a := Take(w, wake);
    } else if w in s.wokenTake {
      a := TakeAgain(w, wake);
    } else {
      var t := Member(s.wokenTake);
      a := TakeAgain(t, wake);
    }
  }

  /** The pool is stuck with tasks queued, whatever any thread does, exactly if every
      worker is inside `run`: that is, if each runs a task that submits to its own pool. */
  lemma StuckExactly(s: State)
    requires Inv(s) && s.queue != []
    ensures AllInRun(s) <==> forall run :: Legal(s, run) ==> After(s, run).taken == s.taken
  {
    hide Inv, Enabled, Next, AllInRun;
    if AllInRun(s) {
      forall run | Legal(s, run) ensures After(s, run).taken == s.taken {
        StuckForGood(s, run);
      }
    } else {
      var a := SomeoneCanTake(s);
      var run := [a];
      assert run[1..] == [] && Legal(s, run) && After(s, run) == Next(s, a);
      assert |Next(s, a).taken| == |s.taken| + 1;
      assert After(s, run).taken != s.taken;
    }
  }

  lemma FourSteps(s: State, a1: Action, a2: Action, a3: Action, a4: Action)
    requires Enabled(s, a1) && Enabled(Next(s, a1), a2) && Enabled(Next(Next(s, a1), a2), a3)
    requires Enabled(Next(Next(Next(s, a1), a2), a3), a4)
    ensures Legal(s, [a1, a2, a3, a4])
    ensures After(s, [a1, a2, a3, a4]) == Next(Next(Next(Next(s, a1), a2), a3), a4)
  {
    hide Enabled, Next;
    var s3 := Next(Next(Next(s, a1), a2), a3);
    var run := [a1, a2, a3, a4];
    assert run[1..] == [a2, a3, a4] && run[1..][1..] == [a3, a4] && run[1..][1..][1..] == [a4];
    assert [a4][1..] == [] && Legal(s3, [a4]) && After(s3, [a4]) == Next(s3, a4);
    assert Legal(Next(Next(s, a1), a2), [a3, a4]) && After(Next(Next(s, a1), a2), [a3, a4]) == Next(s3, a4);
    assert Legal(Next(s, a1), [a2, a3, a4]) && After(Next(s, a1), [a2, a3, a4]) == Next(s3, a4);
  }

  /** The pool does get there: a task that submits to its own full pool is enough. */
  lemma StuckIsReached(s: State, worker: Tid, producer: Tid, task: Task)
    requires Started(s) && s.cap == 1 && s.workers == {worker} && producer != worker
    ensures var push := Run(producer, task, None);
            var run := [push, Take(worker, None), push, Run(worker, task, None)];
            Legal(s, run) && After(s, run).queue == [task] && AllInRun(After(s, run)) && Inv(After(s, run))
  {
    hide Inv, Legal, After;
    var push, take, last := Run(producer, task, None), Take(worker, None), Run(worker, task, None);
    var s1 := s.(queue := [task], pushed := [task]);
    var s2 := s1.(queue := [], taken := [task]);
    var s3 := s2.(queue := [task], pushed := [task, task]);
    assert s.offers - {producer} == map[] && s.queue + [task] == [task];
    assert Enabled(s, push) && Next(s, push) == s1;
    assert Enabled(s1, take) && Next(s1, take) == s2;
    assert Enabled(s2, push) && Next(s2, push) == s3;
    assert Enabled(s3, last) && Next(s3, last) == s3.(sleepRun := {worker}, offers := map[worker := task]);
    FourSteps(s, push, take, push, last);
    StartedHasInv(s);
    RunKeepsInv(s, [push, take, push, last]);
  }

  // ------------------------------------------------------------- the critical sections

  /** The pool's fields.  A wait ends a critical section: `Run` and `Take` are called by a
      thread that has just locked the mutex, and their `Again` forms by one that has just
      woken with it; each runs until the thread waits, or unlocks. */
  class ThreadPool {
    const maxQueueSize: nat
    ghost const workers: set<Tid>
    var taskQueue: seq<Task>
    ghost var sleepTake: set<Tid>
    ghost var wokenTake: set<Tid>
    ghost var sleepRun: set<Tid>
    ghost var wokenRun: set<Tid>
    ghost var offers: map<Tid, Task>
    ghost var pushed: seq<Task>
    ghost var taken: seq<Task>

    ghost function View(): State
      reads this
    {
      State(maxQueueSize, workers, taskQueue, sleepTake, wokenTake, sleepRun, wokenRun, offers, pushed, taken)
    }

    constructor (maxQueueSize: nat, ghost workers: set<Tid>)
      requires workers != {}
      ensures Started(View()) && View().cap == maxQueueSize && View().workers == workers
    {
      this.maxQueueSize, this.workers := maxQueueSize, workers;
      taskQueue, pushed, taken, offers := [], [], [], map[];
      sleepTake, wokenTake, sleepRun, wokenRun := {}, {}, {}, {};
    }

    predicate Full()
      reads this
      ensures Full() == IsFull(View())
    {
      maxQueueSize > 0 && |taskQueue| >= maxQueueSize
    }

    /** `m_notEmpty.notify_one` */
    ghost method NotifyNotEmpty() returns (wake: Option<Tid>)
      modifies `sleepTake, `wokenTake
      ensures Wakes(old(sleepTake), wake)
      ensures sleepTake == old(sleepTake) - Woken(wake) && wokenTake == old(wokenTake) + Woken(wake)
    {
      wake := SomeWake(sleepTake);
      sleepTake, wokenTake := sleepTake - Woken(wake), wokenTake + Woken(wake);
    }

    /** `m_notFull.notify_one` */
    ghost method NotifyNotFull() returns (wake: Option<Tid>)
      modifies `sleepRun, `wokenRun
      ensures Wakes(old(sleepRun), wake)
      ensures sleepRun == old(sleepRun) - Woken(wake) && wokenRun == old(wokenRun) + Woken(wake)
    {
      wake := SomeWake(sleepRun);
      sleepRun, wokenRun := sleepRun - Woken(wake), wokenRun + Woken(wake);
    }

    /** `run` from the test of its loop. */
    method Offer(t: Tid, task: Task) returns (done: bool, ghost wake: Option<Tid>)
      modifies this
      ensures done == !old(Full()) && PushWakes(old(View()), wake)
      ensures View() == Offered(old(View()), t, task, wake)
      ensures taskQueue == if done then old(taskQueue) + [task] else old(taskQueue)
      ensures !done ==> t in sleepRun
    {
      wake := None;
      if Full() {
        sleepRun, offers := sleepRun + {t}, offers[t := task];
        return false, wake;
      }
      assert !Full();
      taskQueue := taskQueue + [task];
      pushed, offers := pushed + [task], offers - {t};
      wake := NotifyNotEmpty();
      done := true;
    }

    method Run(t: Tid, task: Task) returns (done: bool, ghost wake: Option<Tid>)
      requires Inv(View()) && Outside(View(), t)
      modifies this
      ensures Enabled(old(View()), Action.Run(t, task, wake))
      ensures View() == Next(old(View()), Action.Run(t, task, wake)) && Inv(View())
      ensures done == !old(Full())
      ensures taskQueue == if done then old(taskQueue) + [task] else old(taskQueue)
    {
      hide Inv, Offered;
      ghost var s := View();
      done, wake := Offer(t, task);
      StepKeepsInv(s, Action.Run(t, task, wake));
    }

    method RunAgain(t: Tid, task: Task) returns (done: bool, ghost wake: Option<Tid>)
      requires Inv(View()) && t in wokenRun && t in offers && offers[t] == task
      modifies this
      ensures Enabled(old(View()), Action.RunAgain(t, wake))
      ensures View() == Next(old(View()), Action.RunAgain(t, wake)) && Inv(View())
      ensures done == !old(Full())
      ensures taskQueue == if done then old(taskQueue) + [task] else old(taskQueue)
    {
      hide Inv, Offered;
      ghost var s := View();
      wokenRun := wokenRun - {t};
      done, wake := Offer(t, task);
      StepKeepsInv(s, Action.RunAgain(t, wake));
    }

    /** `take` from the test of its loop. */
    method Ask(t: Tid) returns (task: Option<Task>, ghost wake: Option<Tid>)
      modifies this
      ensures PopWakes(old(View()), wake) && View() == Asked(old(View()), t, wake)
      ensures task == if old(taskQueue) == [] then None else Some(old(taskQueue)[0])
      ensures taskQueue == if task.Some? then old(taskQueue)[1..] else []
      ensures task.None? ==> t in sleepTake
    {
      wake := None;
      if taskQueue == [] {
        sleepTake := sleepTake + {t};
        return None, wake;
      }
      task := Some(taskQueue[0]);
      taken := taken + [taskQueue[0]];
      taskQueue := taskQueue[1..];
      if maxQueueSize > 0 {
        wake := NotifyNotFull();
      }
    }

    method Take(t: Tid) returns (task: Option<Task>, ghost wake: Option<Tid>)
      requires Inv(View()) && t in workers && Outside(View(), t)
      modifies this
      ensures Enabled(old(View()), Action.Take(t, wake))
      ensures View() == Next(old(View()), Action.Take(t, wake)) && Inv(View())
      ensures task == if old(taskQueue) == [] then None else Some(old(taskQueue)[0])
      ensures taskQueue == if task.Some? then old(taskQueue)[1..] else []
    {
      hide Inv, Asked;
      ghost var s := View();
      task, wake := Ask(t);
      StepKeepsInv(s, Action.Take(t, wake));
    }

    method TakeAgain(t: Tid) returns (task: Option<Task>, ghost wake: Option<Tid>)
      requires Inv(View()) && t in wokenTake
      modifies this
      ensures Enabled(old(View()), Action.TakeAgain(t, wake))
      ensures View() == Next(old(View()), Action.TakeAgain(t, wake)) && Inv(View())
      ensures task == if old(taskQueue) == [] then None else Some(old(taskQueue)[0])
      ensures taskQueue == if task.Some? then old(taskQueue)[1..] else []
    {
      hide Inv, Asked;
      ghost var s := View();
      wokenTake := wokenTake - {t};
      task, wake := Ask(t);
      StepKeepsInv(s, Action.TakeAgain(t, wake));
    }
  }
}
