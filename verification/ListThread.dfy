/**
  The timer thread over the list engine, as a state machine.  Every step is what one party
  does while it holds the lock, or the check of one timer while the thread runs actions
  without it; the steps can be interleaved in any way.
 */
module ListThread {
  import opened Lifecycle
  import opened Sequences
  import opened Threads
  import L = ListSpec

  datatype State<T(==)> = State(engine: L.State<T>, started: bool, shutdown: bool, phase: Phase)

  ghost predicate Inv<T>(s: State<T>) {
    && L.Inv(s.engine) && Counted(s.engine.life)
    && (s.started <==> s.phase != Stopped)
    && (match s.phase
        case Executing(i) => s.engine.exec != [] && i <= |s.engine.exec|
        case _ => s.engine.exec == [])
    && (s.phase.Waiting? ==> !s.shutdown && WakesInTime(s.engine.queue, s.phase.deadline))
    && (s.phase == Finished ==> s.shutdown)
  }

  /** A thread that waits without a deadline has nothing to wait for, and one with a deadline
      wakes before any timer is due. */
  ghost predicate WakesInTime<T>(queue: seq<L.Entry<T>>, deadline: Deadline) {
    match deadline
    case Never => queue == []
    case At(d) => forall i :: 0 <= i < |queue| ==> d <= queue[i].when
  }

  // ------------------------------------------------------------------ the thread

  /** `sleep_for_next_event`, entered with the lock held. */
  function Asleep<T>(s: State<T>): State<T> {
    s.(phase := Waiting(if s.engine.queue == [] then Never else At(s.engine.queue[0].when)))
  }

  /** The end of the thread's body. */
  ghost function Ended<T>(s: State<T>): State<T>
    requires L.Inv(s.engine) && s.engine.exec == []
  {
    s.(engine := L.AfterClear(s.engine), phase := Finished)
  }

  /** From the head of the loop until the lock is released. */
  ghost function AfterEnter<T>(s: State<T>, now: int): State<T>
    requires L.Inv(s.engine) && s.engine.exec == []
  {
    if s.shutdown then Ended(s)
    else
      var begun := L.AfterBegin(s.engine, now);
      if begun.exec == [] then Asleep(s) else s.(engine := begun, phase := Executing(0))
  }

  /** From the lock being taken again behind the last action until it is released. */
  ghost function AfterResume<T>(s: State<T>): State<T>
    requires L.Inv(s.engine)
  {
    var done := s.(engine := L.AfterFinish(s.engine));
    if s.shutdown then Ended(done) else Asleep(done)
  }

  // ------------------------------------------------------------------ clients

  /** Whether the engine asks for the thread to be notified. */
  function Notifies<T>(s: L.State<T>, c: Command<T>): bool
    requires L.Inv(s)
  {
    c.timer in s.life.info &&
    match c
    case Activate(t, clock, pause, period) => L.ActivateOutcome(s, t, clock + pause, period) == Done(true)
    case Reschedule(t, clock, pause, period) => L.RescheduleOutcome(s, t, clock + pause, period) == Done(true)
    case _ => false
  }

  /** A call by a client or by an action.  Activating and rescheduling need a started thread. */
  ghost function AfterCall<T>(s: State<T>, c: Command<T>): State<T>
    requires L.Inv(s.engine)
  {
    if (c.Activate? || c.Reschedule?) && !s.started then s
    else s.(engine := L.After(s.engine, c),
            phase := if Notifies(s.engine, c) then Notified(s.phase) else s.phase)
  }

  /** Steps that are not possible in a state change nothing. */
  ghost function AfterStep<T>(s: State<T>, e: Event<T>): State<T>
    requires Inv(s)
  {
    match e
    case Start => if s.started then s else s.(started := true, shutdown := false, phase := Starting)
    case Shutdown =>
      if s.started && !s.shutdown then s.(shutdown := true, phase := Notified(s.phase)) else s
    case Join => if s.phase == Finished then s.(started := false, phase := Stopped) else s
    case Allocate(t) => if t in s.engine.life.info then s else s.(engine := L.AfterAllocate(s.engine, t))
    case Call(c) => AfterCall(s, c)
    case Enter(now) => if s.phase == Starting || s.phase == Woken then AfterEnter(s, now) else s
    case Check =>
      if s.phase.Executing? && s.phase.i < |s.engine.exec| then s.(phase := Executing(s.phase.i + 1)) else s
    case Resume(_) => if s.phase.Executing? && s.phase.i == |s.engine.exec| then AfterResume(s) else s
    case Timeout(now) =>
      if s.phase.Waiting? && s.phase.deadline.At? && now >= s.phase.deadline.time then s.(phase := Woken) else s
    case Spurious => if s.phase.Waiting? then s.(phase := Woken) else s
  }

  lemma EndedKeepsInv<T>(s: State<T>)
    requires L.Inv(s.engine) && s.engine.exec == [] && s.started && s.shutdown
    ensures Inv(Ended(s))
  {
    L.ClearEquation(s.engine);
  }

  lemma EnterKeepsInv<T>(s: State<T>, now: int)
    requires Inv(s) && (s.phase == Starting || s.phase == Woken)
    ensures Inv(AfterEnter(s, now))
  {
    if s.shutdown {
      EndedKeepsInv(s);
    } else {
      L.BeginEquation(s.engine, now);
    }
  }

  lemma ResumeKeepsInv<T>(s: State<T>)
    requires Inv(s) && s.phase.Executing?
    ensures Inv(AfterResume(s))
  {
    hide L.AfterFinish;
    FinishCounts(s.engine.life);
    var done := s.(engine := L.AfterFinish(s.engine));
    if s.shutdown {
      EndedKeepsInv(done);
    }
  }

  /** A call that does not notify leaves no timer earlier than all those there were. */
  lemma QuietCall<T>(s: L.State<T>, c: Command<T>, deadline: Deadline)
    requires L.Inv(s) && WakesInTime(s.queue, deadline) && !Notifies(s, c)
    ensures WakesInTime(L.After(s, c).queue, deadline)
  {
  }

  lemma CallKeepsInv<T>(s: State<T>, c: Command<T>)
    requires Inv(s)
    ensures Inv(AfterCall(s, c))
  {
    hide L.Inv, Counted, L.After, Notifies, WakesInTime;
    L.CallCounts(s.engine, c);
    if s.phase.Waiting? && !Notifies(s.engine, c) {
      QuietCall(s.engine, c, s.phase.deadline);
    }
  }

  lemma StepKeepsInv<T>(s: State<T>, e: Event<T>)
    requires Inv(s)
    ensures Inv(AfterStep(s, e))
  {
    hide L.Inv, Counted, WakesInTime, AfterEnter, AfterResume, AfterCall, L.AfterAllocate;
    match e
    case Call(c) => CallKeepsInv(s, c);
    case Enter(now) =>
      if s.phase == Starting || s.phase == Woken {
        EnterKeepsInv(s, now);
      }
    case Resume(_) =>
      if s.phase.Executing? {
        ResumeKeepsInv(s);
      }
    case Allocate(t) =>
      if t !in s.engine.life.info {
        L.AllocateEquation(s.engine, t);
      }
    case _ =>
  }

  /** Any interleaving of the thread with its clients. */
  ghost function AfterRun<T>(s: State<T>, events: seq<Event<T>>): (r: State<T>)
    requires Inv(s)
    ensures Inv(r)
    decreases |events|
  {
    if |events| == 0 then s
    else
      StepKeepsInv(s, events[0]);
      AfterRun(AfterStep(s, events[0]), events[1..])
  }

  ghost function Initial<T>(): State<T>
    ensures Inv(Initial<T>())
  {
    var life: Ledger<T> := Ledger(map[], [], 0, 0);
    assert Owned(life.info, false) == {} && Owned(life.info, true) == {};
    State(L.State(life, [], []), false, false, Stopped)
  }

  /** No interleaving loses a wakeup: a waiting thread has not been told to shut down, and it
      wakes before any timer of the engine is due, or there is none. */
  lemma NoLostWakeup<T>(events: seq<Event<T>>)
    ensures var s := AfterRun(Initial(), events);
            s.phase.Waiting? ==>
              && !s.shutdown
              && s.engine.exec == []
              && (match s.phase.deadline
                  case Never => s.engine.queue == []
                            && forall t :: t in s.engine.life.info ==> s.engine.life.info[t].status == Deactivated
                  case At(d) => forall i :: 0 <= i < |s.engine.queue| ==> d <= s.engine.queue[i].when)
  {
    var s := AfterRun(Initial<T>(), events);
    if s.phase == Waiting(Never) {
      forall t | t in s.engine.life.info
        ensures s.engine.life.info[t].status == Deactivated
      {
        assert t !in L.Timers(s.engine.queue);
      }
    }
  }

  /** The thread ends only when it has been told to. */
  lemma FinishedMeansShutdown<T>(events: seq<Event<T>>)
    ensures AfterRun(Initial(), events).phase == Finished ==> AfterRun(Initial(), events).shutdown
  {
    hide L.Inv, Counted;
    var s := AfterRun(Initial<T>(), events);
    assert Inv(s);
  }

  lemma EarliestWakes<T>(queue: seq<L.Entry<T>>, deadline: Deadline, k: nat, now: int)
    requires WakesInTime(queue, deadline) && k < |queue| && queue[k].when <= now
    ensures deadline.At? && deadline.time <= now
  {
  }

  /** So a timer that is due while the thread waits is served: the wait can end, and the
      thread then takes the timer into its execution list. */
  lemma DueTimerIsServed<T>(s: State<T>, k: nat, now: int)
    requires Inv(s) && s.phase.Waiting? && k < |s.engine.queue| && s.engine.queue[k].when <= now
    ensures var woken := AfterStep(s, Timeout(now));
            && Inv(woken) && woken.phase == Woken
            && var r := AfterStep(woken, Enter(now));
               r.phase == Executing(0) && s.engine.queue[k] in r.engine.exec
  {
    hide L.Inv, Counted, WakesInTime, L.AfterBegin;
    StepKeepsInv(s, Timeout(now));
    L.DueExactly(s.engine, now);
    var begun, queue := L.AfterBegin(s.engine, now), s.engine.queue;
    EarliestWakes(queue, s.phase.deadline, k, now);
    assert begun.exec[k] == queue[k];
  }

  /** A thread that enters its loop takes the timers that are due, and only those, into its
      execution list; if there is none, it waits for the first timer there is. */
  lemma EnterServes<T>(s: State<T>, now: int)
    requires Inv(s) && (s.phase == Starting || s.phase == Woken) && !s.shutdown
    ensures var r := AfterStep(s, Enter(now));
            && r.engine.exec + r.engine.queue == s.engine.queue
            && (forall e :: e in r.engine.exec ==> e.when <= now)
            && (forall e :: e in r.engine.queue ==> e.when > now)
            && if r.engine.exec != [] then r.phase == Executing(0)
               else WaitsForFirst(r)
  {
    hide L.Inv, Counted, L.AfterBegin;
    L.DueExactly(s.engine, now);
    L.QueueSorted(s.engine);
    if s.engine.queue != [] { FirstIsEarliest(s.engine.queue); }
  }

  /** The thread waits for the earliest timer; without a deadline if there is none. */
  ghost predicate WaitsForFirst<T>(s: State<T>) {
    s.phase.Waiting? &&
    match s.phase.deadline
    case Never => s.engine.queue == []
    case At(d) => (exists e :: e in s.engine.queue && e.when == d) && forall e :: e in s.engine.queue ==> d <= e.when
  }

  lemma FirstIsEarliest<T>(queue: seq<L.Entry<T>>)
    requires L.Sorted(queue) && queue != []
    ensures queue[0] in queue && forall e :: e in queue ==> queue[0].when <= e.when
  {
  }

  /** So does one that has just been started. */
  lemma StartedServes<T>(s: State<T>, now: int)
    requires Inv(s) && s.phase == Stopped
    ensures Inv(AfterStep(s, Start))
    ensures var r := AfterStep(AfterStep(s, Start), Enter(now));
            && r.engine.exec + r.engine.queue == s.engine.queue
            && (forall e :: e in r.engine.exec ==> e.when <= now)
            && (forall e :: e in r.engine.queue ==> e.when > now)
            && if r.engine.exec != [] then r.phase == Executing(0)
               else WaitsForFirst(r)
  {
    hide L.Inv, Counted, WaitsForFirst;
    StepKeepsInv(s, Start);
    EnterServes(AfterStep(s, Start), now);
  }

  /** A thread that is left alone while it waits for the first timer runs one when that time
      comes. */
  lemma DeadlineIsServed<T>(s: State<T>)
    requires Inv(s) && WaitsForFirst(s) && s.phase.deadline.At?
    ensures Inv(AfterStep(s, Timeout(s.phase.deadline.time)))
    ensures var d := s.phase.deadline.time;
            var r := AfterStep(AfterStep(s, Timeout(d)), Enter(d));
            r.phase == Executing(0) && r.engine.exec != [] && forall e :: e in r.engine.exec ==> e.when == d
  {
    hide L.Inv, Counted, AfterEnter, WakesInTime;
    var d := s.phase.deadline.time;
    StepKeepsInv(s, Timeout(d));
    EnterServes(AfterStep(s, Timeout(d)), d);
    var r := AfterStep(AfterStep(s, Timeout(d)), Enter(d));
    assert forall e :: e in s.engine.queue <==> e in r.engine.exec || e in r.engine.queue;
  }

  /** A thread that has not been started takes no activation and no rescheduling; every other call
      reaches the engine, and so do all of them from the start on, even while actions run. */
  lemma CallsArrive<T>(s: State<T>, c: Command<T>)
    requires Inv(s)
    ensures AfterStep(s, Event.Call(c)).engine ==
            if s.phase == Stopped && (c.Activate? || c.Reschedule?) then s.engine else L.After(s.engine, c)
    ensures var phase := AfterStep(s, Event.Call(c)).phase;
            phase == s.phase || (s.phase.Waiting? && phase == Woken)
  {
    hide L.Inv, Counted, L.After, Notifies;
  }

  /** A wait that ends for no reason is taken up again with the same deadline, and nothing else
      comes of it, if no timer is due. */
  lemma SpuriousWakeup<T>(s: State<T>, now: int)
    requires Inv(s) && s.phase == Waiting(if s.engine.queue == [] then Never else At(s.engine.queue[0].when))
    requires forall e :: e in s.engine.queue ==> now < e.when
    ensures Inv(AfterStep(s, Spurious)) && AfterStep(s, Spurious).phase == Woken
    ensures AfterStep(AfterStep(s, Spurious), Enter(now)) == s
  {
    hide L.Inv, Counted, L.AfterBegin;
    StepKeepsInv(s, Spurious);
    L.BeginEquation(s.engine, now) by { assert Inv(s); }
  }

  /** A new timer can be allocated at any time; nobody else notices. */
  lemma AllocateArrives<T>(s: State<T>, t: T)
    requires Inv(s) && t !in s.engine.life.info
    ensures var r := AfterStep(s, Event.Allocate(t));
            && t in r.engine.life.info && r.engine.life.info[t] == Info(Deactivated, 0, 1, 1)
            && (forall u :: u in s.engine.life.info ==> u in r.engine.life.info
                                                        && r.engine.life.info[u] == s.engine.life.info[u])
            && r.engine.queue == s.engine.queue && r.phase == s.phase
  {
    hide L.Linked, Sound;
  }

  /** When the thread has ended it can be joined, and started again. */
  lemma StartsAgain<T>(s: State<T>)
    requires Inv(s) && s.phase == Finished
    ensures Inv(AfterStep(s, Join))
    ensures var r := AfterStep(AfterStep(s, Join), Start);
            r.phase == Starting && !r.shutdown && r.engine == s.engine
  {
    hide L.Inv, Counted;
    StepKeepsInv(s, Join);
  }

  // ------------------------------------------------------------------ passes

  function CallsOf<T>(cs: seq<Command<T>>): (es: seq<Event<T>>)
    ensures |es| == |cs| && forall i :: 0 <= i < |cs| ==> es[i] == Event.Call(cs[i])
  {
    seq(|cs|, i requires 0 <= i < |cs| => Event.Call(cs[i]))
  }

  /** The checks number `i` to `n - 1`, and the calls that clients make before each of them and
      behind the last one. */
  function Interleaved<T>(script: seq<seq<Command<T>>>, i: nat, n: nat): seq<Event<T>>
    requires i <= n
    decreases n - i
  {
    CallsOf(Lifecycle.At(script, i)) + if i == n then [] else [Check] + Interleaved(script, i + 1, n)
  }

  lemma {:induction false} RunInTwo<T>(s: State<T>, a: seq<Event<T>>, b: seq<Event<T>>)
    requires Inv(s)
    ensures AfterRun(s, a + b) == AfterRun(AfterRun(s, a), b)
    decreases |a|
  {
    hide Inv, AfterStep;
    if a == [] {
      assert a + b == b;
    } else {
      StepKeepsInv(s, a[0]);
      RunInTwo(AfterStep(s, a[0]), a[1..], b);
      assert (a + b)[0] == a[0] && (a + b)[1..] == a[1..] + b;
    }
  }

  lemma RunOne<T>(s: State<T>, e: Event<T>)
    requires Inv(s)
    ensures AfterRun(s, [e]) == AfterStep(s, e)
  {
    hide Inv, AfterStep;
    StepKeepsInv(s, e);
    assert [e][1..] == [];
  }

  lemma {:induction false} RunCalls<T>(s: State<T>, cs: seq<Command<T>>)
    requires Inv(s) && s.phase.Executing?
    ensures AfterRun(s, CallsOf(cs)) == s.(engine := L.AfterAll(s.engine, cs))
    decreases |cs|
  {
    hide L.Inv, Counted, L.After, Notifies;
    if cs != [] {
      StepKeepsInv(s, Event.Call(cs[0]));
      assert CallsOf(cs)[0] == Event.Call(cs[0]) && CallsOf(cs)[1..] == CallsOf(cs[1..]);
      RunCalls(AfterStep(s, Event.Call(cs[0])), cs[1..]);
    }
  }

  lemma Checking<T>(s: State<T>, i: nat)
    requires Inv(s) && s.phase == Executing(i)
    ensures L.Inv(s.engine) && i <= |s.engine.exec|
    ensures i < |s.engine.exec| ==> AfterStep(s, Check) == s.(phase := Executing(i + 1)) && Inv(AfterStep(s, Check))
  {
    hide L.Inv, Counted;
    StepKeepsInv(s, Check);
  }

  lemma {:induction false} RunChecks<T>(s: State<T>, script: seq<seq<Command<T>>>, i: nat)
    requires Inv(s) && s.phase == Executing(i)
    ensures i <= |s.engine.exec|
    ensures AfterRun(s, Interleaved(script, i, |s.engine.exec|))
         == s.(engine := L.AfterChecks(s.engine, i, script), phase := Executing(|s.engine.exec|))
    decreases |s.engine.exec| - i
  {
    hide L.Inv, Inv, AfterStep, AfterRun, L.AfterAll, L.AfterChecks, Lifecycle.AfterAll, CallsOf;
    Checking(s, i);
    var n, calls := |s.engine.exec|, CallsOf(Lifecycle.At(script, i));
    RunCalls(s, Lifecycle.At(script, i));
    L.ChecksStep(s.engine, i, script);
    var called := s.(engine := L.AfterAll(s.engine, Lifecycle.At(script, i)));
    if i == n {
      assert calls + [] == calls;
    } else {
      var rest := Interleaved(script, i + 1, n);
      RunInTwo(s, calls, [Check] + rest);
      RunInTwo(called, [Check], rest);
      RunOne(called, Check);
      Checking(called, i);
      RunChecks(AfterStep(called, Check), script, i + 1);
    }
  }

  /** A thread that enters its loop makes one pass of the engine, whatever calls are made while
      it runs the actions, and then waits for the first timer. */
  lemma PassIsRun<T>(s: State<T>, now: int, script: seq<seq<Command<T>>>)
    requires Inv(s) && (s.phase == Starting || s.phase == Woken) && !s.shutdown
    requires L.AfterBegin(s.engine, now).exec != []
    ensures var n := |L.AfterBegin(s.engine, now).exec|;
            var r := AfterRun(s, [Enter(now)] + Interleaved(script, 0, n) + [Resume(0)]);
            r.engine == L.AfterPass(s.engine, now, script) && WaitsForFirst(r) && !r.shutdown
  {
    hide L.Inv, Counted, AfterRun, L.AfterBegin, L.AfterChecks, L.AfterFinish, Interleaved;
    var n := |L.AfterBegin(s.engine, now).exec|;
    var entered := AfterStep(s, Enter(now));
    StepKeepsInv(s, Enter(now));
    RunInTwo(s, [Enter(now)] + Interleaved(script, 0, n), [Resume(0)]);
    RunInTwo(s, [Enter(now)], Interleaved(script, 0, n));
    RunOne(s, Enter(now));
    RunChecks(entered, script, 0);
    var checked := AfterRun(entered, Interleaved(script, 0, n));
    RunOne(checked, Resume(0));
    var q := L.AfterPass(s.engine, now, script).queue;
    L.QueueSorted(L.AfterPass(s.engine, now, script));
    if q != [] { FirstIsEarliest(q); }
  }

  /** A shutdown ends a thread that waits, or has not entered its loop yet, at its next step. */
  lemma ShutdownIsServed<T>(s: State<T>, now: int)
    requires Inv(s) && (s.phase.Waiting? || s.phase == Starting || s.phase == Woken)
    ensures var told := AfterStep(s, Shutdown);
            && Inv(told)
            && var r := AfterStep(told, Enter(now));
               && r.phase == Finished && r.engine.queue == []
               && forall t :: t in r.engine.life.info ==> r.engine.life.info[t].status == Deactivated
  {
    StepKeepsInv(s, Shutdown);
    ClearedAreDeactivated(s.engine);
  }

  lemma ClearedAreDeactivated<T>(s: L.State<T>)
    requires L.Inv(s) && s.exec == []
    ensures forall t :: t in L.AfterClear(s).life.info ==> L.AfterClear(s).life.info[t].status == Deactivated
  {
    assert forall t :: t in s.life.info ==> !InExec(s.life.info[t]);
  }

  function Checks<T>(n: nat): seq<Event<T>> {
    seq(n, _ => Check)
  }

  /** ... and a thread that is running actions when they are all done. */
  lemma {:induction false} ShutdownDuringActions<T>(s: State<T>, clock: int)
    requires Inv(s) && s.phase.Executing? && s.shutdown
    ensures AfterRun(s, Checks(|s.engine.exec| - s.phase.i) + [Resume(clock)]).phase == Finished
    decreases if s.phase.Executing? then |s.engine.exec| - s.phase.i else 0
  {
    hide L.Inv, Counted, L.AfterFinish, L.AfterClear;
    var n := |s.engine.exec| - s.phase.i;
    var rest := Checks<T>(n) + [Resume(clock)];
    if n == 0 {
      assert rest == [Resume(clock)] && rest[1..] == [];
    } else {
      assert rest[0] == Check && rest[1..] == Checks<T>(n - 1) + [Resume(clock)];
      StepKeepsInv(s, Check);
      ShutdownDuringActions(AfterStep(s, Check), clock);
    }
  }
}
