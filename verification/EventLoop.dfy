/** The event loop's task queue and its wake-up through a semaphore eventfd
    (net/eventLoop.cpp), as atomic steps of any number of threads. */
module EventLoop {

  type Tid = nat
  type Task = nat

  /** Where the loop thread is inside `loop()`; `Idle` is outside it.  `Handling`
      remembers whether the eventfd's channel is still to be handled. */
  datatype Phase = Idle | Checking | Polling | Handling(wakeup: bool) | Swapping | Executing

  /** A thread that has stored something and has not yet written the eventfd. */
  datatype Window = AfterPush | AfterQuit

  datatype State = State(
    threadId: Tid,
    phase: Phase,
    quit: bool,
    executing: bool,
    pending: seq<Task>,            // m_asyncTaskList
    batch: seq<Task>,              // what is left of the swapped-out list
    eventfd: nat,
    windows: map<Tid, Window>,
    pushed: seq<Task>,             // every task ever queued, in order
    executed: seq<Task>)           // every task ever begun, in order

  datatype Action =
    | Push(t: Tid, task: Task)     // queueTask, the locked section
    | SetQuit(t: Tid)              // quit_mt, the store
    | WriteEvent(t: Tid)           // setAsyncTaskEvent
    | StartLoop
    | CheckQuit
    | PollReturn(wakeup: bool)
    | ReadEvent                    // resetAsyncTaskEvent
    | EndHandling
    | Swap
    | RunTask
    | EndExecuting

  predicate IsInLoopThread(s: State, t: Tid) {
    t == s.threadId
  }

  /** The loop thread runs callbacks outside the loop, while handling and while executing. */
  predicate RunsCallbacks(s: State) {
    s.phase.Idle? || s.phase.Handling? || s.phase.Executing?
  }

  /** The loop thread itself takes its next step only once its own write is done. */
  predicate LoopThreadFree(s: State) {
    s.threadId !in s.windows
  }

  predicate Enabled(s: State, a: Action) {
    match a
    case Push(t, _) => t !in s.windows && (IsInLoopThread(s, t) ==> RunsCallbacks(s))
    case SetQuit(t) => t !in s.windows && (IsInLoopThread(s, t) ==> RunsCallbacks(s))
    case WriteEvent(t) => t in s.windows
    case StartLoop => LoopThreadFree(s) && s.phase.Idle?
    case CheckQuit => LoopThreadFree(s) && s.phase.Checking?
    // poll may report the eventfd only while it is readable; it also returns for
    // other descriptors and on its timeout
    case PollReturn(wakeup) => LoopThreadFree(s) && s.phase.Polling? && (wakeup ==> s.eventfd > 0)
    case ReadEvent => LoopThreadFree(s) && s.phase == Handling(true)
    case EndHandling => LoopThreadFree(s) && s.phase == Handling(false)
    case Swap => LoopThreadFree(s) && s.phase.Swapping?
    case RunTask => LoopThreadFree(s) && s.phase.Executing? && s.batch != []
    case EndExecuting => LoopThreadFree(s) && s.phase.Executing? && s.batch == []
  }

  function Next(s: State, a: Action): State
    requires Enabled(s, a)
  {
    match a
    case Push(t, task) =>
      s.(pending := s.pending + [task], pushed := s.pushed + [task],
         windows := if !IsInLoopThread(s, t) || s.executing then s.windows[t := AfterPush] else s.windows)
    case SetQuit(t) =>
      s.(quit := true, windows := if !IsInLoopThread(s, t) then s.windows[t := AfterQuit] else s.windows)
    case WriteEvent(t) => s.(eventfd := s.eventfd + 1, windows := s.windows - {t})
    case StartLoop => s.(quit := false, phase := Checking)
    case CheckQuit => s.(phase := if s.quit then Idle else Polling)
    case PollReturn(wakeup) => s.(phase := Handling(wakeup))
    case ReadEvent => s.(phase := Handling(false), eventfd := if s.eventfd > 0 then s.eventfd - 1 else 0)
    case EndHandling => s.(phase := Swapping, executing := true)
    case Swap => s.(phase := Executing, batch := s.pending, pending := [])
    case RunTask => s.(executed := s.executed + [s.batch[0]], batch := s.batch[1..])
    case EndExecuting => s.(phase := Checking, executing := false)
  }

  predicate Init(s: State) {
    && s.phase.Idle? && !s.quit && !s.executing && s.pending == [] && s.batch == []
    && s.eventfd == 0 && s.windows == map[] && s.pushed == [] && s.executed == []
  }

  predicate Legal(s: State, run: seq<Action>)
    decreases |run|
  {
    run == [] || (Enabled(s, run[0]) && Legal(Next(s, run[0]), run[1..]))
  }

  function After(s: State, run: seq<Action>): State
    requires Legal(s, run)
    decreases |run|
  {
    if run == [] then s else After(Next(s, run[0]), run[1..])
  }

  // --------------------------------------------------------- exactly once, FIFO

  /** Tasks begun, then the rest of the batch, then the pending list, are the tasks
      queued, in the order they were queued. */
  predicate Conserved(s: State) {
    && s.executed + s.batch + s.pending == s.pushed
    && (!s.phase.Executing? ==> s.batch == [])
  }

  lemma StepConserves(s: State, a: Action)
    requires Conserved(s) && Enabled(s, a)
    ensures Conserved(Next(s, a))
  {
    match a
    case Push(t, task) =>
      assert s.executed + s.batch + (s.pending + [task]) == s.executed + s.batch + s.pending + [task];
    case RunTask =>
      assert s.executed + [s.batch[0]] + s.batch[1..] == s.executed + s.batch;
    case _ =>
  }

  /** Over every run of every set of threads, tasks queued by tasks included. */
  lemma {:induction false} TasksRunOnceInOrder(s: State, run: seq<Action>)
    requires Conserved(s) && Legal(s, run)
    ensures Conserved(After(s, run))
    ensures After(s, run).executed <= After(s, run).pushed
    decreases |run|
  {
    if run != [] {
      StepConserves(s, run[0]);
      TasksRunOnceInOrder(Next(s, run[0]), run[1..]);
    }
  }

  /** The tasks that a run's calls of `queueTask` hand over, in order. */
  function Queued(run: seq<Action>): seq<Task> {
    if run == [] then []
    else QueuedBy(run[0]) + Queued(run[1..])
  }

  function QueuedBy(a: Action): seq<Task> {
    if a.Push? then [a.task] else []
  }

  lemma StepQueues(s: State, a: Action)
    requires Enabled(s, a)
    ensures Next(s, a).pushed == s.pushed + QueuedBy(a)
  {
    assert s.pushed + [] == s.pushed;
  }

  lemma {:induction false} PushedAreQueued(s: State, run: seq<Action>)
    requires Legal(s, run)
    ensures After(s, run).pushed == s.pushed + Queued(run)
    decreases |run|
  {
    hide Enabled, Next, QueuedBy;
    if run == [] {
      assert s.pushed + [] == s.pushed;
    } else {
      var e, rest := Next(s, run[0]), run[1..];
      StepQueues(s, run[0]);
      PushedAreQueued(e, rest);
      Regrouped(s.pushed, QueuedBy(run[0]), Queued(rest));
    }
  }

  lemma Regrouped(a: seq<Task>, b: seq<Task>, c: seq<Task>)
    ensures a + b + c == a + (b + c)
  {
  }

  /** The tasks begun, then those of the batch, then those pending are those the calls of
      `queueTask` handed over, each once and in order. */
  lemma QueuedTasksRunInOrder(s: State, run: seq<Action>)
    requires Init(s) && Legal(s, run)
    ensures var e := After(s, run);
            && e.executed + e.batch + e.pending == Queued(run)
            && (e.phase == Polling ==> e.executed + e.pending == Queued(run))
  {
    assert s.executed + s.batch + s.pending == [];
    TasksRunOnceInOrder(s, run);
    PushedAreQueued(s, run);
    assert [] + Queued(run) == Queued(run);
    assert After(s, run).executed + [] == After(s, run).executed;
  }

  // -------------------------------------------------------------------- quitting

  /** Whether quit is asked for after a run, by its steps alone: by a `quit_mt` that no
      start of the loop has followed. */
  function QuitAsked(asked: bool, run: seq<Action>): bool
    decreases |run|
  {
    if run == [] then asked
    else QuitAsked(run[0].SetQuit? || (asked && !run[0].StartLoop?), run[1..])
  }

  lemma {:induction false} QuitIsAsked(s: State, run: seq<Action>)
    requires Legal(s, run)
    ensures After(s, run).quit == QuitAsked(s.quit, run)
    decreases |run|
  {
    if run != [] {
      QuitIsAsked(Next(s, run[0]), run[1..]);
    }
  }

  lemma {:induction false} AskedStays(run: seq<Action>)
    requires StartLoop !in run
    ensures QuitAsked(true, run)
    decreases |run|
  {
    if run != [] {
      assert run[0] in run;
      AskedStays(run[1..]);
    }
  }

  /** The loop ends at its check exactly if quit was asked for since it was started: after
      any run from the beginning, whatever the threads do. */
  lemma LoopEndsExactlyIfAsked(s: State, run: seq<Action>)
    requires Init(s) && Legal(s, run) && Enabled(After(s, run), CheckQuit)
    ensures Next(After(s, run), CheckQuit).phase == if QuitAsked(false, run) then Idle else Polling
  {
    QuitIsAsked(s, run);
  }

  /** Once `quit_mt` has stored, the loop's next check ends it, whatever other threads do,
      unless it is started again in between. */
  lemma QuitEndsTheLoop(s: State, t: Tid, run: seq<Action>)
    requires Enabled(s, SetQuit(t)) && Legal(Next(s, SetQuit(t)), run) && StartLoop !in run
    requires Enabled(After(Next(s, SetQuit(t)), run), CheckQuit)
    ensures Next(After(Next(s, SetQuit(t)), run), CheckQuit).phase.Idle?
  {
    QuitIsAsked(Next(s, SetQuit(t)), run);
    AskedStays(run);
  }

  /** Until then it stays out of the poll phase, unless it was there already: and once it
      has ended it stays ended. */
  predicate Ending(s: State) {
    s.quit && !s.phase.Polling?
  }

  lemma {:induction false} EndingNeverPolls(s: State, run: seq<Action>)
    requires Ending(s) && Legal(s, run) && StartLoop !in run
    ensures Ending(After(s, run))
    ensures s.phase.Idle? ==> After(s, run).phase.Idle?
    decreases |run|
  {
    if run != [] {
      assert run[0] in run;
      EndingNeverPolls(Next(s, run[0]), run[1..]);
    }
  }

  // ------------------------------------------------------------ no lost wake-up

  predicate SomeThread(s: State, w: Window) {
    exists t :: t in s.windows && s.windows[t] == w
  }

  /** Something stored under `w` will still make poll return. */
  predicate Signalled(s: State, w: Window) {
    s.eventfd > 0 || SomeThread(s, w)
  }

  /** In the poll phase, past the quit check, nothing waits on an unsignalled eventfd. */
  predicate NoLostWakeup(s: State) {
    && (s.phase.Polling? || s.phase.Executing? ==> s.pending != [] ==> Signalled(s, AfterPush))
    && (s.phase.Polling? ==> s.quit ==> Signalled(s, AfterQuit))
  }

  ghost predicate Inv(s: State) {
    && (s.executing <==> s.phase.Swapping? || s.phase.Executing?)
    && (!LoopThreadFree(s) ==> s.phase.Executing?)
    && (s.phase == Handling(true) ==> s.eventfd > 0)
    && (s.phase.Idle? || s.phase.Checking? ==> s.pending != [] ==> Signalled(s, AfterPush))
    && NoLostWakeup(s)
  }

  /** The one step that loses a wake-up: the loop thread queues a task while it is
      not looping, and no other write is on its way. */
  predicate LosesWakeup(s: State, a: Action) {
    a.Push? && IsInLoopThread(s, a.t) && s.phase.Idle? && !Signalled(s, AfterPush)
  }

  lemma KeepsSignal(s: State, s': State, w: Window)
    requires Signalled(s, w) && s.eventfd <= s'.eventfd
    requires forall t :: t in s.windows ==> (t in s'.windows && s'.windows[t] == s.windows[t]) || s'.eventfd > 0
    ensures Signalled(s', w)
  {
    if s'.eventfd == 0 {
      var t :| t in s.windows && s.windows[t] == w;
      assert t in s'.windows && s'.windows[t] == w;
    }
  }

  lemma OtherStepKeepsInv(s: State, a: Action)
    requires Inv(s) && Enabled(s, a) && !a.Push? && !a.SetQuit? && !a.WriteEvent?
    ensures Inv(Next(s, a))
  {
    var s' := Next(s, a);
    if a.CheckQuit? || a.StartLoop? || a.EndExecuting? || a.RunTask? {
      if Signalled(s, AfterPush) { KeepsSignal(s, s', AfterPush); }
      if Signalled(s, AfterQuit) { KeepsSignal(s, s', AfterQuit); }
    }
  }

  lemma WriteKeepsInv(s: State, t: Tid)
    requires Inv(s) && t in s.windows
    ensures Inv(Next(s, WriteEvent(t)))
  {
  }

  lemma SetQuitKeepsInv(s: State, t: Tid)
    requires Inv(s) && Enabled(s, SetQuit(t))
    ensures Inv(Next(s, SetQuit(t)))
  {
    var s' := Next(s, SetQuit(t));
    if Signalled(s, AfterPush) { KeepsSignal(s, s', AfterPush); }
    if !IsInLoopThread(s, t) {
      assert t in s'.windows && s'.windows[t] == AfterQuit;
    }
  }

  lemma PushKeepsInvUnlessLost(s: State, t: Tid, task: Task)
    requires Inv(s) && Enabled(s, Push(t, task))
    ensures Inv(Next(s, Push(t, task))) <==> !LosesWakeup(s, Push(t, task))
  {
    var s' := Next(s, Push(t, task));
    if Signalled(s, AfterQuit) { KeepsSignal(s, s', AfterQuit); }
    if Signalled(s, AfterPush) { KeepsSignal(s, s', AfterPush); }
    if !IsInLoopThread(s, t) || s.executing {
      assert t in s'.windows && s'.windows[t] == AfterPush;
    } else if LosesWakeup(s, Push(t, task)) {
      assert s'.windows == s.windows && s'.pending != [];
      assert !Signalled(s', AfterPush);
    }
  }

  /** Every step keeps the invariant, except exactly the one that loses a wake-up. */
  lemma StepKeepsInvExactly(s: State, a: Action)
    requires Inv(s) && Enabled(s, a)
    ensures Inv(Next(s, a)) <==> !LosesWakeup(s, a)
  {
    match a
    case Push(t, task) => PushKeepsInvUnlessLost(s, t, task);
    case SetQuit(t) => SetQuitKeepsInv(s, t);
    case WriteEvent(t) => WriteKeepsInv(s, t);
    case _ => OtherStepKeepsInv(s, a);
  }

  /** No step of the run loses a wake-up. */
  predicate Careful(s: State, run: seq<Action>)
    requires Legal(s, run)
    decreases |run|
  {
    run == [] || (!LosesWakeup(s, run[0]) && Careful(Next(s, run[0]), run[1..]))
  }

  lemma {:induction false} CarefulRunKeepsInv(s: State, run: seq<Action>)
    requires Inv(s) && Legal(s, run) && Careful(s, run)
    ensures Inv(After(s, run))
    decreases |run|
  {
    if run != [] {
      StepKeepsInvExactly(s, run[0]);
      CarefulRunKeepsInv(Next(s, run[0]), run[1..]);
    }
  }

  /** No wake-up is lost in any interleaving of any number of threads, provided the
      loop thread does not queue tasks for itself before it loops. */
  lemma NoWakeupIsLost(s: State, run: seq<Action>)
    requires Init(s) && Legal(s, run) && Careful(s, run)
    ensures NoLostWakeup(After(s, run))
    ensures After(s, run).phase == Handling(true) ==> After(s, run).eventfd > 0
  {
    CarefulRunKeepsInv(s, run);
  }

  /** The proviso is needed: after that one step the loop can go to poll with the task
      in its list, nothing on the eventfd and no thread about to write it. */
  lemma PrequeuedTaskSleeps(s: State, a: Action)
    requires Inv(s) && Enabled(s, a) && LosesWakeup(s, a)
    ensures var run := [a, StartLoop, CheckQuit];
            Legal(s, run) && After(s, run).phase.Polling? && !NoLostWakeup(After(s, run))
  {
    var s1 := Next(s, a);
    var s2 := Next(s1, StartLoop);
    var s3 := Next(s2, CheckQuit);
    var run := [a, StartLoop, CheckQuit];
    assert run[1..] == [StartLoop, CheckQuit] && run[1..][1..] == [CheckQuit];
    assert After(s2, [CheckQuit]) == After(s3, []) == s3;
    assert After(s1, [StartLoop, CheckQuit]) == After(s2, [CheckQuit]);
    assert s3.windows == s.windows && s3.eventfd == 0 && s3.pending != [];
  }

  /** A quit stored before `loop()` is forgotten: starting the loop clears it. */
  lemma EarlyQuitIsForgotten(s: State, t: Tid)
    requires Init(s) && t != s.threadId
    ensures var run := [SetQuit(t), StartLoop, CheckQuit];
            Legal(s, run) && After(s, run).phase.Polling? && !After(s, run).quit
  {
    var s1 := Next(s, SetQuit(t));
    var s2 := Next(s1, StartLoop);
    var s3 := Next(s2, CheckQuit);
    var run := [SetQuit(t), StartLoop, CheckQuit];
    assert run[1..] == [StartLoop, CheckQuit] && run[1..][1..] == [CheckQuit];
    assert After(s2, [CheckQuit]) == After(s3, []) == s3;
    assert After(s1, [StartLoop, CheckQuit]) == After(s2, [CheckQuit]);
  }

  // ------------------------------------------------------ a wake-up is delivered

  lemma {:induction false} RunConcat(s: State, first: seq<Action>, rest: seq<Action>)
    requires Legal(s, first) && Legal(After(s, first), rest)
    ensures Legal(s, first + rest) && After(s, first + rest) == After(After(s, first), rest)
    decreases |first|
  {
    if first == [] {
      assert first + rest == rest;
    } else {
      RunConcat(Next(s, first[0]), first[1..], rest);
      assert (first + rest)[1..] == first[1..] + rest;
    }
  }

  function RunTasks(n: nat): seq<Action> {
    if n == 0 then [] else [RunTask] + RunTasks(n - 1)
  }

  lemma {:induction false} BatchRuns(s: State)
    requires LoopThreadFree(s) && s.phase.Executing?
    ensures Legal(s, RunTasks(|s.batch|))
    ensures After(s, RunTasks(|s.batch|)) == s.(executed := s.executed + s.batch, batch := [])
    decreases |s.batch|
  {
    if s.batch == [] {
      assert s.executed + s.batch == s.executed;
    } else {
      var s1 := Next(s, RunTask);
      assert s1.executed + s1.batch == s.executed + s.batch;
      BatchRuns(s1);
      assert RunTasks(|s.batch|) == [RunTask] + RunTasks(|s1.batch|);
      assert RunTasks(|s.batch|)[1..] == RunTasks(|s1.batch|);
    }
  }

  /** The loop's body from a wake-up to the swapped list, and from its end to the next poll. */
  function PassFront(): seq<Action> {
    [PollReturn(true), ReadEvent, EndHandling, Swap]
  }

  function PassBack(): seq<Action> {
    [EndExecuting, CheckQuit]
  }

  function WakefulPass(tasks: nat): seq<Action> {
    PassFront() + RunTasks(tasks) + PassBack()
  }

  lemma PassFrontSwaps(s: State)
    requires LoopThreadFree(s) && s.phase.Polling? && s.eventfd > 0
    ensures Legal(s, PassFront())
    ensures After(s, PassFront()) == s.(phase := Executing, eventfd := s.eventfd - 1, executing := true,
                                        batch := s.pending, pending := [])
  {
    var s1 := Next(s, PollReturn(true));
    var s2 := Next(s1, ReadEvent);
    var s3 := Next(s2, EndHandling);
    var s4 := Next(s3, Swap);
    assert PassFront()[1..] == [ReadEvent, EndHandling, Swap];
    assert [ReadEvent, EndHandling, Swap][1..] == [EndHandling, Swap];
    assert [EndHandling, Swap][1..] == [Swap];
    assert After(s3, [Swap]) == After(s4, []) == s4;
    assert After(s2, [EndHandling, Swap]) == s4;
    assert After(s1, [ReadEvent, EndHandling, Swap]) == s4;
  }

  lemma PassBackChecksQuit(s: State)
    requires LoopThreadFree(s) && s.phase.Executing? && s.batch == []
    ensures Legal(s, PassBack())
    ensures After(s, PassBack()) == s.(executing := false, phase := if s.quit then Idle else Polling)
  {
    var s1 := Next(s, EndExecuting);
    var s2 := Next(s1, CheckQuit);
    assert PassBack()[1..] == [CheckQuit];
    assert After(s1, [CheckQuit]) == After(s2, []) == s2;
  }

  /** In the poll phase, once no thread is between its store and its write, pending
      tasks or a quit make poll return for the eventfd itself, not on its timeout;
      and the loop's next pass, undisturbed, begins every task queued so far and
      leaves the loop if quit was stored. */
  lemma StoredWorkIsDelivered(s: State)
    requires Inv(s) && Conserved(s) && s.phase.Polling? && s.windows == map[]
    requires s.pending != [] || s.quit
    ensures Legal(s, WakefulPass(|s.pending|))
    ensures var s' := After(s, WakefulPass(|s.pending|));
            && s'.executed == s.pushed && s'.pending == []
            && s'.phase == if s.quit then Idle else Polling
  {
    hide Next, Enabled, Legal, After, RunTasks, PassFront, PassBack;
    assert s.eventfd > 0;
    PassFrontSwaps(s);
    var s1 := After(s, PassFront());
    BatchRuns(s1);
    PassBackChecksQuit(After(s1, RunTasks(|s.pending|)));
    RunConcat(s, PassFront(), RunTasks(|s.pending|));
    RunConcat(s, PassFront() + RunTasks(|s.pending|), PassBack());
    assert s.executed + [] + s.pending == s.executed + s.pending;
  }

  /** So a `quit_mt` while the loop polls wakes it and ends it with that pass, every task
      queued so far begun. */
  lemma QuitWakesAndEnds(s: State, t: Tid)
    requires Inv(s) && Conserved(s) && s.phase.Polling? && s.windows == map[] && t != s.threadId
    ensures var run := [SetQuit(t), WriteEvent(t)];
            && Legal(s, run) && After(s, run).eventfd > 0
            && Legal(After(s, run), WakefulPass(|s.pending|))
            && After(After(s, run), WakefulPass(|s.pending|)).phase.Idle?
            && After(After(s, run), WakefulPass(|s.pending|)).executed == s.pushed
  {
    var first, second := SetQuit(t), WriteEvent(t);
    var s1 := Next(s, first);
    var s2 := Next(s1, second);
    var run := [first, second];
    assert run[1..] == [second] && [second][1..] == [];
    assert After(s1, [second]) == After(s2, []) == s2;
    SetQuitKeepsInv(s, t);
    WriteKeepsInv(s1, t);
    StepConserves(s, first);
    StepConserves(s1, second);
    assert s2.windows == map[];
    StoredWorkIsDelivered(s2);
  }

  // -------------------------------------------------------------- the eventfd

  function Writes(run: seq<Action>): nat {
    if run == [] then 0 else (if run[0].WriteEvent? then 1 else 0) + Writes(run[1..])
  }

  function Reads(run: seq<Action>): nat {
    if run == [] then 0 else (if run[0].ReadEvent? then 1 else 0) + Reads(run[1..])
  }

  /** The loop reads the eventfd only while it is positive. */
  predicate Readable(s: State) {
    s.phase == Handling(true) ==> s.eventfd > 0
  }

  /** Its value is the number of writes less that of reads, over any run, and every read
      finds it positive. */
  lemma {:induction false} EventfdCounts(s: State, run: seq<Action>)
    requires Readable(s) && Legal(s, run)
    ensures After(s, run).eventfd == s.eventfd + Writes(run) - Reads(run)
    ensures Readable(After(s, run))
    decreases |run|
  {
    if run != [] {
      EventfdCounts(Next(s, run[0]), run[1..]);
    }
  }

  // ------------------------------------------------- delivery despite other threads

  /** Every task of `due` has been begun, or is in the batch that is being executed. */
  predicate Underway(s: State, due: seq<Task>) {
    due <= s.executed || (s.phase.Executing? && due <= s.executed + s.batch)
  }

  lemma StepKeepsUnderway(s: State, a: Action, due: seq<Task>)
    requires Conserved(s) && Enabled(s, a) && Underway(s, due)
    ensures Underway(Next(s, a), due)
    ensures a.EndExecuting? || due <= s.executed ==> due <= Next(s, a).executed
  {
    if a.RunTask? {
      assert s.executed + [s.batch[0]] + s.batch[1..] == s.executed + s.batch;
    } else if a.EndExecuting? {
      assert s.executed + s.batch == s.executed;
    }
  }

  lemma {:induction false} RunFinishesBatch(s: State, run: seq<Action>, due: seq<Task>)
    requires Conserved(s) && Legal(s, run) && Underway(s, due)
    ensures EndExecuting in run || due <= s.executed ==> due <= After(s, run).executed
    decreases |run|
  {
    hide Enabled, Next, Conserved, Underway;
    if run != [] {
      StepConserves(s, run[0]);
      StepKeepsUnderway(s, run[0], due);
      assert run == [run[0]] + run[1..];
      RunFinishesBatch(Next(s, run[0]), run[1..], due);
    }
  }

  lemma {:induction false} PushedGrows(s: State, run: seq<Action>)
    requires Legal(s, run)
    ensures s.pushed <= After(s, run).pushed
    decreases |run|
  {
    if run != [] {
      PushedGrows(Next(s, run[0]), run[1..]);
    }
  }

  /** Whatever other threads push, store and write meanwhile: every task queued by now has
      been begun once the loop has come to its next swap and finished the batch it took. */
  lemma QueuedWorkIsDone(s: State, first: seq<Action>, rest: seq<Action>)
    requires Conserved(s) && Legal(s, first) && Enabled(After(s, first), Swap)
    requires Legal(Next(After(s, first), Swap), rest) && EndExecuting in rest
    ensures s.pushed <= After(Next(After(s, first), Swap), rest).executed
  {
    var m := After(s, first);
    TasksRunOnceInOrder(s, first);
    PushedGrows(s, first);
    StepConserves(m, Swap);
    hide Legal, After;
    var m' := Next(m, Swap);
    assert m'.executed + m'.batch + [] == m'.executed + m'.batch;
    RunFinishesBatch(m', rest, s.pushed);
  }

  // ---------------------------------------------------------------- the object

  /** The object the threads share.  Each method is one atomic step of one thread,
      with `phase`, `batch`, `windows` and the histories the ghost record of where
      the threads are. */
  class Loop {
    const threadId: Tid
    var quit: bool                 // m_quit
    var executing: bool            // m_executingAsyncTask
    var pending: seq<Task>         // m_asyncTaskList
    var batch: seq<Task>           // taskList in executeAsyncTasks
    var eventfd: nat               // the kernel's counter behind m_asyncTaskFd
    ghost var phase: Phase
    ghost var windows: map<Tid, Window>
    ghost var pushed: seq<Task>
    ghost var executed: seq<Task>

    ghost function View(): State
      reads this
    {
      State(threadId, phase, quit, executing, pending, batch, eventfd, windows, pushed, executed)
    }

    constructor (threadId: Tid)
      ensures Init(View()) && this.threadId == threadId
      ensures Inv(View()) && Conserved(View())
    {
      this.threadId := threadId;
      quit, executing, pending, batch, eventfd := false, false, [], [], 0;
      phase, windows, pushed, executed := Idle, map[], [], [];
    }

    /** `queueTask` up to the unlock; says whether the thread goes on to write the eventfd. */
    method PushTask(t: Tid, task: Task) returns (wake: bool)
      requires Enabled(View(), Push(t, task))
      modifies this
      ensures View() == Next(old(View()), Push(t, task))
      ensures pending == old(pending) + [task]
      ensures wake <==> t in windows
    {
      pending := pending + [task];
      pushed := pushed + [task];
      wake := t != threadId || executing;
      if wake { windows := windows[t := AfterPush]; }
    }

    method StoreQuit(t: Tid) returns (wake: bool)
      requires Enabled(View(), SetQuit(t))
      modifies this
      ensures View() == Next(old(View()), SetQuit(t))
      ensures quit && (wake <==> t in windows)
    {
      quit := true;
      wake := t != threadId;
      if wake { windows := windows[t := AfterQuit]; }
    }

    method SetAsyncTaskEvent(t: Tid)
      requires Enabled(View(), WriteEvent(t))
      modifies this
      ensures View() == Next(old(View()), WriteEvent(t))
    {
      eventfd := eventfd + 1;
      windows := windows - {t};
    }

    /** A semaphore eventfd gives out one unit a read; reading it empty fails. */
    method ResetAsyncTaskEvent() returns (ok: bool)
      requires Enabled(View(), ReadEvent)
      modifies this
      ensures View() == Next(old(View()), ReadEvent)
      ensures old(Inv(View())) ==> ok
    {
      ok := eventfd > 0;
      if ok { eventfd := eventfd - 1; }
      phase := Handling(false);
    }

    /** `executeAsyncTasks` with no other thread in between: every task in the list
        is begun, in order, and the list is left empty. */
    method ExecuteAsyncTasks()
      requires Enabled(View(), EndHandling) && Conserved(View()) && Inv(View())
      modifies this
      ensures View() == old(View()).(phase := Checking, pending := [], executed := pushed)
    {
      executing := true;
      phase := Swapping;
      batch, pending := pending, [];
      phase := Executing;
      while batch != []
        invariant executed + batch == old(executed) + old(pending)
        invariant phase == Executing && executing && pending == []
        invariant quit == old(quit) && eventfd == old(eventfd)
        invariant windows == old(windows) && pushed == old(pushed)
        decreases |batch|
      {
        executed := executed + [batch[0]];
        batch := batch[1..];
      }
      executing := false;
      phase := Checking;
      assert old(executed) + [] + old(pending) == old(executed) + old(pending);
    }
  }
}
