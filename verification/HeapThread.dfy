/**
  The timer thread over the heap engine, as a state machine like the one of ListThread.  The
  lock is released for one action at a time, and what the thread waits for is the head of the
  heap: so it is in time as long as the heap is ordered, and not always otherwise.
 */
module HeapThread {
  import opened Lifecycle
  import opened Sequences
  import opened Threads
  import opened BinaryHeap
  import opened HeapPass
  import H = HeapSpec

  /** `now` is the reading of the clock that the thread works with while it runs actions. */
  datatype State<T(==)> = State(engine: H.State<T>, started: bool, shutdown: bool, phase: Phase, now: int)

  ghost predicate Inv<T>(s: State<T>) {
    && H.Inv(s.engine)
    && (s.started <==> s.phase != Stopped)
    && (s.phase.Executing? <==> s.engine.exec != [])
    && (s.phase.Waiting? ==> !s.shutdown)
    && (s.phase == Finished ==> s.shutdown)
  }

  /** A thread that waits without a deadline has nothing to wait for, and one with a deadline
      wakes before any timer is due. */
  ghost predicate WakesInTime<T>(h: seq<Entry<T>>, deadline: Deadline) {
    match deadline
    case Never => h == []
    case At(d) => forall e :: e in h ==> d <= e.when
  }

  ghost predicate InTime<T>(s: State<T>) {
    s.phase.Waiting? ==> WakesInTime(s.engine.heap, s.phase.deadline)
  }

  // ------------------------------------------------------------------ the thread

  /** `sleep_for_next_event`, entered with the lock held. */
  function Asleep<T>(s: State<T>): State<T> {
    s.(phase := Waiting(if s.engine.heap == [] then Never else At(s.engine.heap[0].when)))
  }

  /** The end of the thread's body. */
  ghost function Ended<T>(s: State<T>): (r: State<T>)
    requires H.Inv(s.engine) && s.engine.exec == [] && s.started && s.shutdown
    ensures Inv(r)
  {
    hide H.Inv;
    s.(engine := H.AfterClear(s.engine), phase := Finished)
  }

  /** From the head of the loop of process_expired_timers until the lock is released. */
  ghost function Proceed<T>(s: State<T>): (r: State<T>)
    requires H.Inv(s.engine) && s.engine.exec == [] && s.started
    ensures Inv(r)
  {
    hide H.Inv;
    if HasElapsed(s.engine, s.now) then s.(engine := H.AfterBegin(s.engine), phase := Executing(0))
    else if s.shutdown then Ended(s)
    else Asleep(s)
  }

  /** From the head of the thread's loop until the lock is released. */
  ghost function AfterEnter<T>(s: State<T>, now: int): (r: State<T>)
    requires H.Inv(s.engine) && s.engine.exec == [] && s.started
    ensures Inv(r)
  {
    hide H.Inv, Inv;
    if s.shutdown then Ended(s) else Proceed(s.(now := now))
  }

  /** From the lock being taken again behind an action until it is released. */
  ghost function AfterResume<T>(s: State<T>): (r: State<T>)
    requires H.Inv(s.engine) && s.engine.exec != [] && s.started
    ensures Inv(r)
  {
    hide H.Inv, Inv, H.AfterFinish;
    Proceed(s.(engine := H.AfterFinish(s.engine)))
  }

  // ------------------------------------------------------------------ clients

  /** Whether the engine asks for the thread to be notified. */
  function Notifies<T>(s: H.State<T>, c: Command<T>): bool
    requires H.Inv(s)
  {
    c.timer in s.life.info && H.Answer(s, c) == Done(true)
  }

  /** Activating and rescheduling need a started thread. */
  predicate Admitted<T>(s: State<T>, c: Command<T>) {
    c.Activate? || c.Reschedule? ==> s.started
  }

  ghost function AfterCall<T>(s: State<T>, c: Command<T>): (r: State<T>)
    requires Inv(s)
    ensures Inv(r)
  {
    hide H.Inv, H.After, Notifies;
    if !Admitted(s, c) then s
    else s.(engine := H.After(s.engine, c),
            phase := if Notifies(s.engine, c) then Notified(s.phase) else s.phase)
  }

  lemma AllocateOnHeap<T>(s: H.State<T>, t: T)
    requires H.Inv(s) && t !in s.life.info
    ensures H.AfterAllocate(s, t).heap == s.heap && H.AfterAllocate(s, t).exec == s.exec
  {
  }

  ghost function AfterAllocate<T>(s: State<T>, t: T): (r: State<T>)
    requires Inv(s) && t !in s.engine.life.info
    ensures Inv(r) && r.engine.heap == s.engine.heap && r.phase == s.phase
  {
    hide H.Inv, H.AfterAllocate;
    AllocateOnHeap(s.engine, t);
    s.(engine := H.AfterAllocate(s.engine, t))
  }

  /** Steps that are not possible in a state change nothing. */
  ghost function AfterStep<T>(s: State<T>, e: Event<T>): (r: State<T>)
    requires Inv(s)
    ensures Inv(r)
  {
    hide H.Inv, AfterEnter, AfterResume, AfterCall;
    match e
    case Start => if s.started then s else s.(started := true, shutdown := false, phase := Starting)
    case Shutdown =>
      if s.started && !s.shutdown then s.(shutdown := true, phase := Notified(s.phase)) else s
    case Join => if s.phase == Finished then s.(started := false, phase := Stopped) else s
    case Allocate(t) => if t in s.engine.life.info then s else AfterAllocate(s, t)
    case Call(c) => AfterCall(s, c)
    case Enter(now) => if s.phase == Starting || s.phase == Woken then AfterEnter(s, now) else s
    case Check => s
    case Resume(_) => if s.phase.Executing? then AfterResume(s) else s
    case Timeout(now) =>
      if s.phase.Waiting? && s.phase.deadline.At? && now >= s.phase.deadline.time then s.(phase := Woken) else s
    case Spurious => if s.phase.Waiting? then s.(phase := Woken) else s
  }

  /** Any interleaving of the thread with its clients. */
  ghost function AfterRun<T>(s: State<T>, events: seq<Event<T>>): (r: State<T>)
    requires Inv(s)
    ensures Inv(r)
    decreases |events|
  {
    hide Inv, AfterStep;
    if |events| == 0 then s
    else AfterRun(AfterStep(s, events[0]), events[1..])
  }

  ghost function Initial<T>(): State<T>
    ensures Inv(Initial<T>()) && Ordered(Initial<T>().engine.heap) && !Initial<T>().phase.Waiting?
  {
    State(H.State(Ledger(map[], [], 0, 0), [], []), false, false, Stopped, 0)
  }

  /** Clients do no harm to the order of the heap. */
  predicate HarmlessStep<T>(s: State<T>, e: Event<T>) {
    e.Call? && Admitted(s, e.command) ==> Harmless(s.engine, e.command)
  }

  ghost predicate HarmlessRun<T>(s: State<T>, events: seq<Event<T>>)
    requires Inv(s)
    decreases |events|
  {
    hide Inv, AfterStep;
    |events| > 0 ==>
      HarmlessStep(s, events[0]) && HarmlessRun(AfterStep(s, events[0]), events[1..])
  }

  lemma ProceedKeepsOrder<T>(s: State<T>)
    requires H.Inv(s.engine) && s.engine.exec == [] && s.started && Ordered(s.engine.heap)
    ensures Ordered(Proceed(s).engine.heap) && (s.shutdown ==> Ordered(Ended(s).engine.heap))
  {
    hide H.Inv, Remove, H.AfterBegin;
    if HasElapsed(s.engine, s.now) {
      BeginOnHeap(s.engine);
      RemoveKeepsOrder(s.engine.heap, 1);
    }
  }

  /** A step leaves an ordered heap ordered exactly when it is not a harmful call. */
  lemma StepKeepsOrder<T>(s: State<T>, e: Event<T>)
    requires Inv(s) && Ordered(s.engine.heap)
    ensures Ordered(AfterStep(s, e).engine.heap) <==> HarmlessStep(s, e)
  {
    hide H.Inv, Ordered, Proceed, Ended, H.After, Notifies, Harmless, Add;
    match e
    case Call(c) => CallKeepsOrder(s.engine, c);
    case Enter(now) =>
      if s.phase == Starting || s.phase == Woken {
        ProceedKeepsOrder(s.(now := now));
        ProceedKeepsOrder(s);
      }
    case Resume(_) =>
      if s.phase.Executing? {
        FinishOnHeap(s.engine);
        AddKeepsOrder(s.engine.heap, Next(s.engine.exec[0]));
        ProceedKeepsOrder(s.(engine := H.AfterFinish(s.engine)));
      }
    case _ =>
  }

  // ------------------------------------------------------------------ wakeups

  /** Calls bring at most their own entry into the heap; one that does is told whether that
      is the head now. */
  lemma CallAdds<T>(s: H.State<T>, c: Command<T>, f: Entry<T>)
    requires H.Inv(s) && f in H.After(s, c).heap && f !in s.heap
    ensures f.timer == c.timer && c.timer in s.life.info
    ensures H.Answer(s, c) == Done(H.IsHead(H.After(s, c), c.timer))
  {
    hide H.Inv, Add, Remove, H.AfterActivate, H.AfterReschedule, H.AfterDeactivate;
    CallOnHeap(s, c);
    var p := H.PositionOf(s.heap, c.timer);
    if p > 0 {
      RemoveMembers(s.heap, p);
    }
    if c.Activate? || c.Reschedule? {
      var e := Entry(c.timer, c.clock + c.pause, c.period);
      AddMembers(s.heap, e);
      if p > 0 {
        AddMembers(Remove(s.heap, p), e);
      }
    }
  }

  /** A call that does not notify leaves no timer earlier than all those there were, if it
      leaves the heap ordered. */
  lemma QuietCall<T>(s: H.State<T>, c: Command<T>, deadline: Deadline)
    requires H.Inv(s) && WakesInTime(s.heap, deadline) && !Notifies(s, c) && Ordered(H.After(s, c).heap)
    ensures WakesInTime(H.After(s, c).heap, deadline)
  {
    hide H.Inv, H.After, Ordered, H.Answer;
    var h := H.After(s, c).heap;
    forall f | f in h
      ensures deadline.At? && deadline.time <= f.when
    {
      if f !in s.heap {
        CallAdds(s, c, f);
        assert h[0] in h && h[0].timer != c.timer;
        if h[0] !in s.heap {
          CallAdds(s, c, h[0]);
        }
        OrderedHeadFirst(h);
      }
    }
    assert h != [] ==> h[0] in h;
  }

  lemma ProceedInTime<T>(s: State<T>)
    requires H.Inv(s.engine) && s.engine.exec == [] && s.started && Ordered(Proceed(s).engine.heap)
    ensures InTime(Proceed(s)) && (s.shutdown ==> InTime(Ended(s)))
  {
    hide H.Inv, Ordered;
    var h := s.engine.heap;
    if !HasElapsed(s.engine, s.now) && !s.shutdown {
      forall f | f in h
        ensures h[0].when <= f.when
      {
        OrderedHeadFirst(h);
      }
    }
  }

  lemma StepKeepsTime<T>(s: State<T>, e: Event<T>)
    requires Inv(s) && InTime(s) && Ordered(AfterStep(s, e).engine.heap)
    ensures InTime(AfterStep(s, e))
  {
    hide H.Inv, Ordered, Proceed, Ended, H.After, Notifies, WakesInTime;
    match e
    case Call(c) =>
      if s.phase.Waiting? && Admitted(s, c) && !Notifies(s.engine, c) {
        QuietCall(s.engine, c, s.phase.deadline);
      }
    case Enter(now) =>
      if s.phase == Starting || s.phase == Woken {
        if s.shutdown { EndedIsOver(s); } else { ProceedInTime(s.(now := now)); }
      }
    case Resume(_) =>
      if s.phase.Executing? {
        ProceedInTime(s.(engine := H.AfterFinish(s.engine)));
      }
    case _ =>
  }

  lemma EndedIsOver<T>(s: State<T>)
    requires H.Inv(s.engine) && s.engine.exec == [] && s.started && s.shutdown
    ensures Ended(s).phase == Finished && Ended(s).engine.heap == []
    ensures forall t :: t in Ended(s).engine.life.info ==> Ended(s).engine.life.info[t].status == Deactivated
  {
    hide H.Inv;
  }

  lemma {:induction false} RunInTime<T>(s: State<T>, events: seq<Event<T>>)
    requires Inv(s) && Ordered(s.engine.heap) && InTime(s) && HarmlessRun(s, events)
    ensures Ordered(AfterRun(s, events).engine.heap) && InTime(AfterRun(s, events))
    decreases |events|
  {
    hide Inv, AfterStep, Ordered, InTime, HarmlessStep;
    if |events| > 0 {
      StepKeepsOrder(s, events[0]);
      StepKeepsTime(s, events[0]);
      RunInTime(AfterStep(s, events[0]), events[1..]);
    }
  }

  /** As long as no call harms the order of the heap, no interleaving loses a wakeup: a waiting
      thread has not been told to shut down, and it wakes before any timer of the engine is due,
      or there is none. */
  lemma NoLostWakeup<T>(events: seq<Event<T>>)
    requires HarmlessRun(Initial(), events)
    ensures var s := AfterRun(Initial(), events);
            && Ordered(s.engine.heap)
            && (s.phase.Waiting? ==>
                  && !s.shutdown && s.engine.exec == []
                  && (match s.phase.deadline
                      case Never => s.engine.heap == []
                      case At(d) => forall e :: e in s.engine.heap ==> d <= e.when))
  {
    RunInTime(Initial<T>(), events);
  }

  // ------------------------------------------------------------------ passes

  function Resumes<T>(n: nat): seq<Event<T>> {
    seq(n, _ => Resume(0))
  }

  lemma ResumesAgain<T>(n: nat)
    requires n > 0
    ensures Resumes<T>(n)[0] == Resume(0) && Resumes<T>(n)[1..] == Resumes<T>(n - 1)
  {
  }

  /** A thread that does nothing but wait, or has ended, is not resumed. */
  lemma {:induction false} NothingToResume<T>(s: State<T>, n: nat)
    requires Inv(s) && !s.phase.Executing?
    ensures AfterRun(s, Resumes(n)) == s
    decreases n
  {
    hide Inv;
    if n > 0 {
      ResumesAgain<T>(n);
      NothingToResume(s, n - 1);
    }
  }

  lemma InvParts<T>(s: State<T>)
    requires Inv(s)
    ensures H.Inv(s.engine) && (s.phase != Stopped ==> s.started) && (!s.phase.Executing? ==> s.engine.exec == [])
  {
  }

  /** What the thread does when it has run one action that left the heap alone. */
  lemma ResumeTurns<T>(s: State<T>)
    requires H.Inv(s.engine) && s.engine.exec == [] && s.started && HasElapsed(s.engine, s.now)
    ensures Proceed(s).phase.Executing?
    ensures var next := s.(engine := H.AfterTurn(s.engine, []), phase := Executing(0));
            AfterStep(Proceed(s), Resume(0)) == Proceed(next)
  {
    hide H.Inv, H.AfterBegin, H.AfterFinish;
    assert H.AfterAll(H.AfterBegin(s.engine), []) == H.AfterBegin(s.engine);
  }

  /** Left alone, the thread makes as many turns as it takes, and then waits or ends. */
  lemma {:induction false} LoopRuns<T>(s: State<T>, i: nat, n: nat)
    requires H.Inv(s.engine) && s.engine.exec == [] && s.started
    requires !HasElapsed(AfterTurns(s.engine, s.now, [], i, n), s.now)
    ensures var done := s.(engine := AfterTurns(s.engine, s.now, [], i, n));
            AfterRun(Proceed(s), Resumes(n)) == if s.shutdown then Ended(done) else Asleep(done)
    decreases n
  {
    hide H.Inv, Inv, H.AfterTurn, AfterStep, AfterTurns, FiredInTurns, H.AfterClear;
    TurnsStep(s.engine, s.now, [], i, n);
    if HasElapsed(s.engine, s.now) {
      ResumesAgain<T>(n);
      ResumeTurns(s);
      LoopRuns(s.(engine := H.AfterTurn(s.engine, []), phase := Executing(0)), i + 1, n - 1);
    } else {
      NothingToResume(Proceed(s), n);
    }
  }

  /** So a thread that enters its loop and is left alone runs one pass of the engine, if that
      ends, and then waits. */
  lemma PassIsRun<T>(s: State<T>, now: int)
    requires Inv(s) && (s.phase == Starting || s.phase == Woken) && !s.shutdown && Ends(s.engine, now, [], 0)
    ensures AfterRun(AfterStep(s, Enter(now)), Resumes(TurnsOf(s.engine, now, [], 0)))
         == Asleep(s.(engine := AfterPass(s.engine, now, [], 0), now := now))
  {
    hide H.Inv, AfterTurns, FiredInTurns, Asleep, AfterRun, Ends, Proceed, HasElapsed;
    InvParts(s);
    hide Inv;
    LoopRuns(s.(now := now), 0, TurnsOf(s.engine, now, [], 0));
  }

  /** A timer that is due while the thread waits is served, if the heap is ordered and the
      thread in time: the wait can end, and the pass that follows runs every timer that is due,
      as often as it is due, and leaves the thread waiting for the first one that is not. */
  lemma DueTimerIsServed<T>(s: State<T>, e: Entry<T>, now: int)
    requires Inv(s) && s.phase.Waiting? && Ordered(s.engine.heap) && InTime(s)
    requires e in s.engine.heap && e.when < now && Ready(s.engine, now, [])
    ensures var woken := AfterStep(s, Timeout(now));
            && woken.phase == Woken && woken.engine == s.engine
            && (var r := AfterRun(AfterStep(woken, Enter(now)), Resumes(TurnsOf(s.engine, now, [], 0)));
                && r.phase.Waiting? && r.engine == AfterPass(s.engine, now, [], 0) && InTime(r)
                && (r.phase.deadline.At? ==> r.phase.deadline.time >= now))
            && WhensOf(FiredInPass(s.engine, now, [], 0), e.timer) == DueSeq(e.when, e.period, now) != []
  {
    hide H.Inv, Ordered, Ready, AfterPass, FiredInPass, AfterRun, AfterEnter, DueSeq, HarmlessScript, Remaining;
    PassIsRun(AfterStep(s, Timeout(now)), now);
    AdditivePass(s.engine, now, [], e);
    AdditiveIsHarmless(s.engine, now, [], 0);
    PassIsExact(s.engine, now, [], e.timer);
    var h := AfterPass(s.engine, now, [], 0).heap;
    forall f | f in h
      ensures h[0].when <= f.when
    {
      OrderedHeadFirst(h);
    }
    assert h != [] ==> W(h, 1) >= now;
  }

  /** A thread that has just been started enters its loop: it runs the head of the heap if its time
      has passed, and otherwise waits for it. */
  lemma StartedServes<T>(s: State<T>, now: int)
    requires Inv(s) && s.phase == Stopped
    ensures var h := s.engine.heap;
            var r := AfterStep(AfterStep(s, Start), Enter(now));
            if h != [] && now > h[0].when then r.phase.Executing? && r.engine.exec == [h[0]]
            else r.engine == s.engine && r.phase == Waiting(if h == [] then Never else At(h[0].when))
  {
    hide H.Inv, Remove, H.Linked;
  }

  /** A thread that waits for the head of the heap, and is left alone, runs it when its time has
      passed. */
  lemma DeadlineIsServed<T>(s: State<T>, now: int)
    requires Inv(s) && s.engine.heap != [] && s.phase == Waiting(At(s.engine.heap[0].when))
    requires now > s.engine.heap[0].when
    ensures var r := AfterStep(AfterStep(s, Timeout(now)), Enter(now));
            r.phase.Executing? && r.engine.exec == [s.engine.heap[0]]
  {
    hide H.Inv, Remove, H.Linked;
  }

  /** The thread ends only when it has been told to. */
  lemma FinishedMeansShutdown<T>(events: seq<Event<T>>)
    ensures AfterRun(Initial(), events).phase == Finished ==> AfterRun(Initial(), events).shutdown
  {
    hide H.Inv;
    var s := AfterRun(Initial<T>(), events);
    assert Inv(s);
  }

  /** A thread that has not been started takes no activation and no rescheduling; every other call
      reaches the engine, and so do all of them from the start on, even while actions run. */
  lemma CallsArrive<T>(s: State<T>, c: Command<T>)
    requires Inv(s)
    ensures AfterStep(s, Event.Call(c)).engine ==
            if s.phase == Stopped && (c.Activate? || c.Reschedule?) then s.engine else H.After(s.engine, c)
    ensures var phase := AfterStep(s, Event.Call(c)).phase;
            phase == s.phase || (s.phase.Waiting? && phase == Woken)
  {
    hide H.Inv, H.After, Notifies;
  }

  /** A wait that ends for no reason is taken up again with the same deadline, and nothing else
      comes of it, if the head is not due. */
  lemma SpuriousWakeup<T>(s: State<T>, now: int)
    requires Inv(s) && s.phase == Waiting(if s.engine.heap == [] then Never else At(s.engine.heap[0].when))
    requires s.engine.heap != [] ==> now <= s.engine.heap[0].when
    ensures AfterStep(s, Spurious).phase == Woken
    ensures AfterStep(AfterStep(s, Spurious), Enter(now)) == s.(now := now)
  {
    hide H.Inv;
  }

  /** A new timer can be allocated at any time; nobody else notices. */
  lemma AllocateArrives<T>(s: State<T>, t: T)
    requires Inv(s) && t !in s.engine.life.info
    ensures var r := AfterStep(s, Event.Allocate(t));
            && t in r.engine.life.info && r.engine.life.info[t] == Info(Deactivated, 0, 1, 1)
            && (forall u :: u in s.engine.life.info ==> u in r.engine.life.info
                                                        && r.engine.life.info[u] == s.engine.life.info[u])
            && r.engine.heap == s.engine.heap && r.phase == s.phase
  {
    hide H.Linked, Sound;
  }

  /** When the thread has ended it can be joined, and started again. */
  lemma StartsAgain<T>(s: State<T>)
    requires Inv(s) && s.phase == Finished
    ensures Inv(AfterStep(s, Join))
    ensures var r := AfterStep(AfterStep(s, Join), Start);
            r.phase == Starting && !r.shutdown && r.engine == s.engine
  {
    hide H.Inv;
  }

  /** The loop asks for a time that has passed: a thread that wakes at the very time of the head
      runs nothing, and waits for the same time once more. */
  lemma WakesTooEarly<T>(s: State<T>)
    requires Inv(s) && s.engine.heap != [] && s.phase == Waiting(At(s.engine.heap[0].when))
    ensures var d := s.engine.heap[0].when;
            AfterStep(AfterStep(s, Timeout(d)), Enter(d)) == s.(now := d)
  {
    hide H.Inv;
  }

  /** A shutdown ends a thread that waits, or has not entered its loop yet, at its next step. */
  lemma ShutdownIsServed<T>(s: State<T>, now: int)
    requires Inv(s) && (s.phase.Waiting? || s.phase == Starting || s.phase == Woken)
    ensures var told := AfterStep(s, Shutdown);
            var r := AfterStep(told, Enter(now));
            && r.phase == Finished && r.engine.heap == []
            && forall t :: t in r.engine.life.info ==> r.engine.life.info[t].status == Deactivated
  {
    hide H.Inv;
  }

  /** ... and a thread that is running actions when the pass is over, if it ends. */
  lemma ShutdownDuringActions<T>(s: State<T>)
    requires Inv(s) && s.phase.Executing? && s.shutdown && Ends(H.AfterFinish(s.engine), s.now, [], 0)
    ensures var n := TurnsOf(H.AfterFinish(s.engine), s.now, [], 0);
            var r := AfterRun(AfterStep(s, Resume(0)), Resumes(n));
            r.phase == Finished && r.engine.heap == []
  {
    hide H.Inv, AfterTurns, FiredInTurns, H.AfterFinish, AfterRun, Ends, Ended, Asleep, Proceed;
    var next := s.(engine := H.AfterFinish(s.engine));
    LoopRuns(next, 0, TurnsOf(next.engine, s.now, [], 0));
    EndedIsOver(next.(engine := AfterPass(next.engine, s.now, [], 0)));
  }

  // ------------------------------------------------------------------ a wakeup that comes too late

  lemma RunStep<T>(s: State<T>, e: Event<T>, rest: seq<Event<T>>)
    requires Inv(s)
    ensures AfterRun(s, [e] + rest) == AfterRun(AfterStep(s, e), rest)
  {
    hide Inv, AfterStep;
    assert ([e] + rest)[1..] == rest;
  }

  lemma {:induction false} RunInTwo<T>(s: State<T>, a: seq<Event<T>>, b: seq<Event<T>>)
    requires Inv(s)
    ensures AfterRun(s, a + b) == AfterRun(AfterRun(s, a), b)
    decreases |a|
  {
    hide Inv, AfterStep;
    if a == [] {
      assert a + b == b;
    } else {
      RunInTwo(AfterStep(s, a[0]), a[1..], b);
      assert a + b == [a[0]] + (a[1..] + b);
      RunStep(s, a[0], a[1..] + b);
    }
  }

  /** Single-shot timers are made and activated, each named after the time it is due. */
  function Activations(whens: seq<int>): seq<Event<int>> {
    if whens == [] then []
    else [Event.Allocate(whens[0])] + ([Event.Call(Activate(whens[0], 0, whens[0], 0))] + Activations(whens[1..]))
  }

  /** A started thread that has not entered its loop, and what is in its heap. */
  ghost predicate Filled(s: State<int>, whens: seq<int>) {
    && Inv(s) && s.phase == Starting && !s.shutdown && s.engine.heap == Shots(whens)
    && forall t :: t in s.engine.life.info ==> t in whens
  }

  lemma OneMoreFilled(s: State<int>, whens: seq<int>, w: int)
    requires Filled(s, whens) && w !in whens && Ordered(Shots(whens + [w]))
    ensures Filled(AfterStep(AfterStep(s, Event.Allocate(w)), Event.Call(Activate(w, 0, w, 0))), whens + [w])
  {
    hide H.Inv, Ordered, H.AfterAllocate, Shots, Add;
    var known := AfterStep(s, Event.Allocate(w));
    Allocated(s.engine, w);
    Activated(known.engine, w);
    AddBehind(whens, w);
  }

  lemma Allocated(s: H.State<int>, w: int)
    requires H.Inv(s) && w !in s.life.info
    ensures var r := H.AfterAllocate(s, w);
            && w in r.life.info && r.life.info[w].status == Deactivated && r.heap == s.heap
            && forall t :: t in r.life.info ==> t == w || t in s.life.info
  {
  }

  lemma Activated(s: H.State<int>, w: int)
    requires H.Inv(s) && w in s.life.info && s.life.info[w].status == Deactivated
    ensures var r := H.After(s, Activate(w, 0, w, 0));
            && r.heap == Add(s.heap, Entry(w, w, 0))
            && forall t :: t in r.life.info ==> t in s.life.info
  {
    hide Add, H.Linked;
  }

  lemma AddBehind(whens: seq<int>, w: int)
    requires Ordered(Shots(whens + [w]))
    ensures Add(Shots(whens), Entry(w, w, 0)) == Shots(whens + [w])
  {
    hide Permuted;
    var h := Shots(whens + [w]);
    assert Shots(whens) + [Entry(w, w, 0)] == h;
    RiseStep(h, |h|);
    assert |h| > 1 ==> Below(h, |h|);
  }

  lemma {:induction false} AllFilled(s: State<int>, before: seq<int>, whens: seq<int>)
    requires Filled(s, before) && Ordered(Shots(before + whens)) && Distinct(before + whens)
    ensures Filled(AfterRun(s, Activations(whens)), before + whens)
    decreases |whens|
  {
    hide Inv, AfterStep, Ordered, Shots, Distinct, AfterRun;
    if whens == [] {
      assert before + whens == before;
      NoStep(s);
    } else {
      var w, more := whens[0], whens[1..];
      var a, b := Event.Allocate(w), Event.Call(Activate(w, 0, w, 0));
      assert before + whens == before + [w] + more;
      Prefix(before + [w], more);
      NotBefore(before, w, more);
      OneMoreFilled(s, before, w);
      RunStep(s, a, [b] + Activations(more));
      RunStep(AfterStep(s, a), b, Activations(more));
      AllFilled(AfterStep(AfterStep(s, a), b), before + [w], more);
    }
  }

  lemma NoStep<T>(s: State<T>)
    requires Inv(s)
    ensures AfterRun(s, []) == s
  {
  }

  lemma NotBefore(before: seq<int>, w: int, after: seq<int>)
    requires Distinct(before + [w] + after)
    ensures w !in before
  {
    assert (before + [w] + after)[|before|] == w;
    assert forall i :: 0 <= i < |before| ==> (before + [w] + after)[i] == before[i];
  }

  lemma Prefix(a: seq<int>, b: seq<int>)
    requires Ordered(Shots(a + b))
    ensures Ordered(Shots(a))
  {
    forall p | 2 <= p <= |a|
      ensures Below(Shots(a), p)
    {
      assert Below(Shots(a + b), p);
    }
  }

  /** Seven timers, in order. */
  function Seven(): seq<int> {
    [1, 4, 2, 5, 6, 7, 3]
  }

  lemma SevenDiffer()
    ensures Distinct(Seven())
  {
  }

  lemma SevenInOrder()
    ensures Ordered(Shots(Seven())) && Shots(Seven())[0].when == 1
  {
    hide Ordered, Ready;
    SevenShots();
  }

  lemma FilledAfterRun()
    ensures Filled(AfterRun(Initial(), [Start] + Activations(Seven())), Seven())
  {
    hide Inv, H.Inv, AfterRun, Ordered, Shots, AfterStep, Ready, Distinct, Seven, Activations, Filled, Initial;
    SevenInOrder();
    SevenDiffer();
    StartedIsFilled();
    assert [] + Seven() == Seven();
    AllFilled(AfterStep(Initial(), Start), [], Seven());
    RunStep(Initial(), Start, Activations(Seven()));
  }

  lemma StartedIsFilled()
    ensures Filled(AfterStep(Initial(), Start), [])
  {
    hide H.Inv;
    assert Shots([]) == [];
  }

  /** The thread goes to sleep, the timer due at 5 is deactivated, and the first time comes. */
  lemma WokenTooLate(s: State<int>)
    requires Filled(s, Seven())
    ensures var r := AfterStep(AfterStep(AfterStep(s, Enter(0)), Event.Call(Deactivate(5))), Timeout(4));
            r.phase == Woken && !r.shutdown && r.engine.heap == Shots([1, 4, 2, 3, 6, 7]) && Ready(r.engine, 4, [])
  {
    hide H.Inv, Ready, H.After, Ordered;
    SevenInOrder();
    ShotsReady(s.engine, Seven());
    WithoutFifth(s.engine);
  }

  /** It wakes at 4, and sleeps until 4 with a timer in the heap that is due at 3. */
  lemma SleepsAgain(s: State<int>) returns (n: nat)
    requires Inv(s) && s.phase == Woken && !s.shutdown && Ready(s.engine, 4, [])
    requires s.engine.heap == Shots([1, 4, 2, 3, 6, 7])
    ensures var r := AfterRun(AfterStep(s, Enter(4)), Resumes(n));
            r.phase == Waiting(At(4)) && r.now == 4 && exists e :: e in r.engine.heap && e.when < 4
  {
    hide Inv, H.Inv, AfterRun, Shots, Ready, AfterStep, Ends, AfterPass, Resumes, TurnsOf, HasElapsed;
    InvParts(s);
    n := TurnsOf(s.engine, 4, [], 0);
    PassIsRun(s, 4);
    MissedTimer(s.engine);
    ShotsAt([4, 3, 7, 6], 0);
    ShotsAt([4, 3, 7, 6], 1);
  }

  /** A run after which the thread waits for time 4 although a timer is due before: of seven
      timers in order the one due at 5 is deactivated while the thread waits for the first of
      them; it wakes at 4, runs the timers due at 1 and 2, and goes to sleep. */
  lemma WakeupCanBeLate() returns (events: seq<Event<int>>)
    ensures var s := AfterRun(Initial(), events);
            s.phase == Waiting(At(4)) && s.now == 4 && exists e :: e in s.engine.heap && e.when < 4
  {
    hide Inv, H.Inv, AfterRun, Ordered, Shots, Ready, AfterStep, Seven, Filled, Activations, Initial;
    var a, b, c := Enter(0), Event.Call(Deactivate(5)), Timeout(4);
    var front := [Start] + Activations(Seven());
    FilledAfterRun();
    var s := AfterRun(Initial(), front);
    WokenTooLate(s);
    var woken := AfterStep(AfterStep(AfterStep(s, a), b), c);
    var n := SleepsAgain(woken);
    var last := [Enter(4)] + Resumes(n);
    events := front + ([a] + ([b] + ([c] + last)));
    RunInTwo(Initial(), front, [a] + ([b] + ([c] + last)));
    RunStep(s, a, [b] + ([c] + last));
    RunStep(AfterStep(s, a), b, [c] + last);
    RunStep(AfterStep(AfterStep(s, a), b), c, last);
    RunStep(woken, Enter(4), Resumes(n));
  }
}
