/**
  The timer thread over the wheel engine, as a state machine like the one of ListThread.  One
  reading of the clock can take the thread through several ticks, and in each of them the lock
  can be released for the actions.
 */
module WheelThread {
  import opened Lifecycle
  import opened Sequences
  import opened Threads
  import opened WheelClock
  import W = WheelSpec

  /** `now` is the reading of the clock that the thread works with while it runs actions. */
  datatype State<T(==)> = State(clocked: Clocked<T>, started: bool, shutdown: bool, phase: Phase, now: int)

  ghost predicate Inv<T>(s: State<T>) {
    && W.Inv(s.clocked.wheel) && Counted(s.clocked.wheel.life)
    && (s.started <==> s.phase != Stopped)
    && (match s.phase
        case Executing(i) => s.clocked.wheel.life.exec != [] && i <= |s.clocked.wheel.life.exec| && !s.clocked.processed
        case _ => s.clocked.wheel.life.exec == [])
    && (s.phase.Waiting? ==> !s.shutdown && s.clocked.processed && WakesInTime(s.clocked, s.phase.deadline))
    && (s.phase == Finished ==> s.shutdown)
  }

  /** A thread that waits without a deadline has no timer; otherwise it wakes when the current
      tick ends. */
  ghost predicate WakesInTime<T>(c: Clocked<T>, deadline: Deadline) {
    match deadline
    case Never => IsEmpty(c)
    case At(d) => d == c.border
  }

  /** `empty`: the engine looks at its counters. */
  predicate IsEmpty<T>(c: Clocked<T>) {
    c.wheel.life.single == 0 && c.wheel.life.periodic == 0
  }

  // ------------------------------------------------------------------ the thread

  /** What process_current_wheel_position leaves to be done after the slot of a tick. */
  function Advanced<T>(c: Clocked<T>): Clocked<T> {
    Clocked(c.wheel.(position := W.NextPosition(c.wheel)), c.border, true)
  }

  lemma AdvancedKeepsInv<T>(c: Clocked<T>)
    requires W.Inv(c.wheel)
    ensures W.Inv(Advanced(c).wheel)
  {
  }

  /** The loop of process_expired_timers, up to its end or to the next actions. */
  ghost function Proceed<T>(c: Clocked<T>, now: int): (r: Clocked<T>)
    requires Ready(c)
    ensures W.Inv(r.wheel)
    ensures r.wheel.life.exec == [] ==> r.processed && now < r.border
    ensures r.wheel.life.exec != [] ==> !r.processed
    decreases now - c.border + c.wheel.granularity
  {
    var begun := if c.processed then c.wheel else W.AfterBegin(c.wheel);
    if begun.life.exec != [] then c.(wheel := begun)
    else
      AdvancedKeepsInv(c.(wheel := begun));
      Onward(if c.processed then c else Advanced(c.(wheel := begun)), now)
  }

  /** The second half of that loop: on to the next tick if the clock has passed the border. */
  ghost function Onward<T>(c: Clocked<T>, now: int): (r: Clocked<T>)
    requires Ready(c) && c.processed
    ensures W.Inv(r.wheel)
    ensures r.wheel.life.exec == [] ==> r.processed && now < r.border
    ensures r.wheel.life.exec != [] ==> !r.processed
    decreases now - c.border + c.wheel.granularity, 0
  {
    if now >= c.border then Proceed(c.(border := c.border + c.wheel.granularity, processed := false), now) else c
  }

  /** `sleep_for_next_event`, entered with the lock held. */
  function Asleep<T>(s: State<T>): State<T> {
    s.(phase := Waiting(if IsEmpty(s.clocked) then Never else At(s.clocked.border)))
  }

  /** The end of the thread's body. */
  ghost function Ended<T>(s: State<T>, clock: int): State<T>
    requires Ready(s.clocked)
  {
    var wheel := W.AfterClear(s.clocked.wheel);
    s.(clocked := Clocked(wheel, clock + wheel.granularity, s.clocked.processed), phase := Finished)
  }

  /** Where the lock is released inside or behind the loop over the ticks. */
  ghost function Released<T>(s: State<T>, c: Clocked<T>, now: int, clock: int): State<T>
    requires W.Inv(c.wheel)
  {
    var r := s.(clocked := c, now := now);
    if c.wheel.life.exec != [] then r.(phase := Executing(0))
    else if s.shutdown then Ended(r, clock)
    else Asleep(r)
  }

  /** From the head of the thread's loop until the lock is released. */
  ghost function AfterEnter<T>(s: State<T>, now: int): State<T>
    requires Ready(s.clocked)
  {
    if s.shutdown then Ended(s, now) else Released(s, Proceed(s.clocked, now), now, now)
  }

  /** What one tick leaves when its actions are done. */
  ghost function TickDone<T>(c: Clocked<T>): (r: Clocked<T>)
    requires W.Inv(c.wheel)
    ensures Ready(r) && r.processed
  {
    var done := c.(wheel := W.AfterFinish(c.wheel));
    AdvancedKeepsInv(done);
    Advanced(done)
  }

  /** From the lock being taken again behind the last action until it is released. */
  ghost function AfterResume<T>(s: State<T>, clock: int): State<T>
    requires W.Inv(s.clocked.wheel)
  {
    Released(s, Onward(TickDone(s.clocked), s.now), s.now, clock)
  }

  // ------------------------------------------------------------------ clients

  function Notifies<T>(s: W.State<T>, c: Command<T>): bool
    requires W.Inv(s)
  {
    c.timer in s.life.info &&
    match c
    case Activate(t, _, pause, period) => W.ActivateOutcome(s, t, pause, period) == Done(true)
    case Reschedule(t, _, pause, period) => W.RescheduleOutcome(s, t, pause, period) == Done(true)
    case _ => false
  }

  ghost function AfterCall<T>(s: State<T>, c: Command<T>): State<T>
    requires W.Inv(s.clocked.wheel)
  {
    if (c.Activate? || c.Reschedule?) && !s.started then s
    else s.(clocked := s.clocked.(wheel := W.After(s.clocked.wheel, c)),
            phase := if Notifies(s.clocked.wheel, c) then Notified(s.phase) else s.phase)
  }

  /** Steps that are not possible in a state change nothing. */
  ghost function AfterStep<T>(s: State<T>, e: Event<T>): State<T>
    requires Inv(s)
  {
    var exec := s.clocked.wheel.life.exec;
    match e
    case Start => if s.started then s else s.(started := true, shutdown := false, phase := Starting)
    case Shutdown =>
      if s.started && !s.shutdown then s.(shutdown := true, phase := Notified(s.phase)) else s
    case Join => if s.phase == Finished then s.(started := false, phase := Stopped) else s
    case Allocate(t) =>
      if t in s.clocked.wheel.life.info then s
      else s.(clocked := s.clocked.(wheel := W.AfterAllocate(s.clocked.wheel, t)))
    case Call(c) => AfterCall(s, c)
    case Enter(now) => if s.phase == Starting || s.phase == Woken then AfterEnter(s, now) else s
    case Check => if s.phase.Executing? && s.phase.i < |exec| then s.(phase := Executing(s.phase.i + 1)) else s
    case Resume(clock) => if s.phase.Executing? && s.phase.i == |exec| then AfterResume(s, clock) else s
    case Timeout(now) =>
      if s.phase.Waiting? && s.phase.deadline.At? && now >= s.phase.deadline.time then s.(phase := Woken) else s
    case Spurious => if s.phase.Waiting? then s.(phase := Woken) else s
  }

  // ------------------------------------------------------------------ what every step keeps

  lemma AdvancedCounts<T>(c: Clocked<T>)
    ensures var r := Advanced(c);
            && r.wheel.life == c.wheel.life && r.border == c.border && r.processed
            && r.wheel.granularity == c.wheel.granularity
  {
  }

  lemma {:induction false} ProceedCounts<T>(c: Clocked<T>, now: int)
    requires Ready(c) && Counted(c.wheel.life)
    ensures Counted(Proceed(c, now).wheel.life)
    decreases now - c.border + c.wheel.granularity
  {
    hide W.Inv, Counted, W.AfterBegin, Advanced;
    if !c.processed {
      W.BeginEquation(c.wheel);
      AdvancedCounts(c.(wheel := W.AfterBegin(c.wheel)));
      AdvancedKeepsInv(c.(wheel := W.AfterBegin(c.wheel)));
    }
    var begun := if c.processed then c.wheel else W.AfterBegin(c.wheel);
    if begun.life.exec == [] {
      OnwardCounts(if c.processed then c else Advanced(c.(wheel := begun)), now);
    }
  }

  lemma {:induction false} OnwardCounts<T>(c: Clocked<T>, now: int)
    requires Ready(c) && c.processed && Counted(c.wheel.life)
    ensures Counted(Onward(c, now).wheel.life)
    decreases now - c.border + c.wheel.granularity, 0
  {
    hide Counted, Proceed;
    if now >= c.border {
      ProceedCounts(c.(border := c.border + c.wheel.granularity, processed := false), now);
    }
  }

  lemma EndedKeepsInv<T>(s: State<T>, clock: int)
    requires Ready(s.clocked) && s.started && s.shutdown
    ensures Inv(Ended(s, clock))
  {
    hide W.Inv, Counted;
    W.ClearEquation(s.clocked.wheel);
  }

  lemma ReleasedKeepsInv<T>(s: State<T>, c: Clocked<T>, now: int, clock: int)
    requires s.started && W.Inv(c.wheel) && Counted(c.wheel.life)
    requires c.processed <==> c.wheel.life.exec == []
    ensures Inv(Released(s, c, now, clock))
  {
    hide W.Inv, Counted;
    if c.wheel.life.exec == [] && s.shutdown {
      EndedKeepsInv(s.(clocked := c, now := now), clock);
    }
  }

  lemma EnterKeepsInv<T>(s: State<T>, now: int)
    requires Inv(s) && (s.phase == Starting || s.phase == Woken)
    ensures Inv(AfterEnter(s, now))
  {
    hide W.Inv, Counted, Proceed, Ended, Released;
    if s.shutdown {
      EndedKeepsInv(s, now);
    } else {
      ProceedCounts(s.clocked, now);
      ReleasedKeepsInv(s, Proceed(s.clocked, now), now, now);
    }
  }

  lemma ResumeKeepsInv<T>(s: State<T>, clock: int)
    requires Inv(s) && s.phase.Executing?
    ensures Inv(AfterResume(s, clock))
  {
    hide W.Inv, Sound, Counted, Onward, Released;
    W.SoundInv(s.clocked.wheel);
    FinishCounts(s.clocked.wheel.life);
    var done := TickDone(s.clocked);
    OnwardCounts(done, s.now);
    ReleasedKeepsInv(s, Onward(done, s.now), s.now, clock);
  }

  /** A call that does not notify leaves an empty engine empty. */
  lemma QuietCall<T>(c: Clocked<T>, call: Command<T>, deadline: Deadline)
    requires W.Inv(c.wheel) && Counted(c.wheel.life) && WakesInTime(c, deadline) && !Notifies(c.wheel, call)
    ensures WakesInTime(c.(wheel := W.After(c.wheel, call)), deadline)
  {
    hide W.Linked, W.DurationToTicks;
    if deadline == Never {
      ZeroCountersMeanEmpty(c.wheel.life);
    }
  }

  lemma CallKeepsInv<T>(s: State<T>, c: Command<T>)
    requires Inv(s)
    ensures Inv(AfterCall(s, c))
  {
    hide W.Inv, Counted, W.After, Notifies, WakesInTime;
    W.CallKeepsCount(s.clocked.wheel, c);
    CallKeepsExec(s.clocked.wheel, c);
    if s.phase.Waiting? && !Notifies(s.clocked.wheel, c) {
      QuietCall(s.clocked, c, s.phase.deadline);
    }
  }

  lemma CallKeepsExec<T>(s: W.State<T>, c: Command<T>)
    requires W.Inv(s)
    ensures W.After(s, c).life.exec == s.life.exec
  {
    hide W.Inv, Sound;
    W.SoundInv(s);
  }

  lemma StepKeepsInv<T>(s: State<T>, e: Event<T>)
    requires Inv(s)
    ensures Inv(AfterStep(s, e))
  {
    hide W.Inv, Counted, AfterEnter, AfterResume, AfterCall, W.AfterAllocate;
    match e
    case Call(c) => CallKeepsInv(s, c);
    case Enter(now) =>
      if s.phase == Starting || s.phase == Woken {
        EnterKeepsInv(s, now);
      }
    case Resume(clock) =>
      if s.phase.Executing? {
        ResumeKeepsInv(s, clock);
      }
    case Allocate(t) =>
      if t !in s.clocked.wheel.life.info {
        W.AllocateEquation(s.clocked.wheel, t);
      }
    case _ =>
  }

  /** Any interleaving of the thread with its clients. */
  ghost function AfterRun<T>(s: State<T>, events: seq<Event<T>>): (r: State<T>)
    requires Inv(s)
    ensures Inv(r)
    decreases |events|
  {
    if |events| == 0 then s
    else
      StepKeepsInv(s, events[0]);
      AfterRun(AfterStep(s, events[0]), events[1..])
  }

  ghost function Initial<T>(size: nat, granularity: int, clock: int): State<T>
    requires 0 < size < W.UINT_RANGE && granularity > 0
    ensures Inv(Initial<T>(size, granularity, clock))
  {
    State(Clocked(W.Empty(size, granularity), clock + granularity, false), false, false, Stopped, clock)
  }

  /** No interleaving loses a wakeup: a waiting thread has not been told to shut down; if it
      has no deadline, no timer of the engine is active, and otherwise the deadline is the end
      of the current tick, which has been processed. */
  lemma NoLostWakeup<T>(size: nat, granularity: int, clock: int, events: seq<Event<T>>)
    requires 0 < size < W.UINT_RANGE && granularity > 0
    ensures var s := AfterRun(Initial(size, granularity, clock), events);
            s.phase.Waiting? ==>
              && !s.shutdown && s.clocked.processed
              && (match s.phase.deadline
                  case Never =>
                    forall t :: t in s.clocked.wheel.life.info ==>
                      s.clocked.wheel.life.info[t].status == Deactivated
                  case At(d) => d == s.clocked.border)
  {
    var s := AfterRun(Initial<T>(size, granularity, clock), events);
    ZeroCountersMeanEmpty(s.clocked.wheel.life);
  }

  /** The thread ends only when it has been told to. */
  lemma FinishedMeansShutdown<T>(size: nat, granularity: int, clock: int, events: seq<Event<T>>)
    requires 0 < size < W.UINT_RANGE && granularity > 0
    ensures var s := AfterRun(Initial(size, granularity, clock), events);
            s.phase == Finished ==> s.shutdown
  {
    hide W.Inv, Counted;
    var s := AfterRun(Initial<T>(size, granularity, clock), events);
    assert Inv(s);
  }

  /** A thread that has not been started takes no activation and no rescheduling; every other call
      reaches the engine, and so do all of them from the start on, even while actions run. */
  lemma CallsArrive<T>(s: State<T>, c: Command<T>)
    requires Inv(s)
    ensures AfterStep(s, Event.Call(c)).clocked ==
            if s.phase == Stopped && (c.Activate? || c.Reschedule?) then s.clocked
            else s.clocked.(wheel := W.After(s.clocked.wheel, c))
    ensures var phase := AfterStep(s, Event.Call(c)).phase;
            phase == s.phase || (s.phase.Waiting? && phase == Woken)
  {
    hide W.Inv, Counted, W.After, Notifies;
  }

  /** A wait that ends for no reason is taken up again with the same deadline, and nothing else
      comes of it, if the tick has not ended. */
  lemma SpuriousWakeup<T>(s: State<T>, now: int)
    requires Inv(s) && s.phase == Waiting(if IsEmpty(s.clocked) then Never else At(s.clocked.border))
    requires now < s.clocked.border
    ensures Inv(AfterStep(s, Spurious)) && AfterStep(s, Spurious).phase == Woken
    ensures AfterStep(AfterStep(s, Spurious), Enter(now)) == s.(now := now)
  {
    hide W.Inv, Counted;
    StepKeepsInv(s, Spurious);
    assert Onward(s.clocked, now) == s.clocked;
    assert Proceed(s.clocked, now) == s.clocked;
  }

  /** A new timer can be allocated at any time; nobody else notices. */
  lemma AllocateArrives<T>(s: State<T>, t: T)
    requires Inv(s) && t !in s.clocked.wheel.life.info
    ensures var r, info := AfterStep(s, Event.Allocate(t)), s.clocked.wheel.life.info;
            && t in r.clocked.wheel.life.info && r.clocked.wheel.life.info[t] == Info(Deactivated, 0, 1, 1)
            && (forall u :: u in info ==> u in r.clocked.wheel.life.info && r.clocked.wheel.life.info[u] == info[u])
            && r.clocked.wheel.marks == s.clocked.wheel.marks && r.phase == s.phase
  {
    hide W.Linked, Sound;
  }

  /** When the thread has ended it can be joined, and started again. */
  lemma StartsAgain<T>(s: State<T>)
    requires Inv(s) && s.phase == Finished
    ensures Inv(AfterStep(s, Join))
    ensures var r := AfterStep(AfterStep(s, Join), Start);
            r.phase == Starting && !r.shutdown && r.clocked == s.clocked
  {
    hide W.Inv, Counted;
    StepKeepsInv(s, Join);
  }

  // ------------------------------------------------------------------ the loop is that of WheelClock

  lemma ProceedBorder<T>(c: Clocked<T>, now: int)
    requires Ready(c)
    ensures Proceed(c, now).border >= c.border && Proceed(c, now).wheel.granularity == c.wheel.granularity > 0
    decreases now - c.border + c.wheel.granularity
  {
    hide W.Inv, W.AfterBegin;
    W.SoundInv(c.wheel);
    var begun := if c.processed then c.wheel else W.AfterBegin(c.wheel);
    if begun.life.exec == [] {
      AdvancedKeepsInv(c.(wheel := begun));
      OnwardBorder(if c.processed then c else Advanced(c.(wheel := begun)), now);
    }
  }

  lemma OnwardBorder<T>(c: Clocked<T>, now: int)
    requires Ready(c) && c.processed
    ensures var r := Onward(c, now);
            && r.border >= c.border && r.wheel.granularity == c.wheel.granularity > 0
            && (r.wheel.life.exec != [] ==> now >= c.border && r.border >= c.border + c.wheel.granularity)
    decreases now - c.border + c.wheel.granularity, 0
  {
    hide W.Inv;
    W.SoundInv(c.wheel);
    if now >= c.border {
      ProceedBorder(c.(border := c.border + c.wheel.granularity, processed := false), now);
    }
  }

  /** A tick, as the thread does it: its beginning, what happens while the lock is released, and
      its end. */
  lemma TickInParts<T>(c: Clocked<T>, script: seq<seq<Command<T>>>)
    requires Ready(c) && !c.processed
    ensures var begun := W.AfterBegin(c.wheel);
            if begun.life.exec == [] then
              Advanced(c.(wheel := begun)) == Clocked(W.AfterTick(c.wheel, script), c.border, true)
            else
              TickDone(c.(wheel := W.AfterChecks(begun, 0, script)))
              == Clocked(W.AfterTick(c.wheel, script), c.border, true)
  {
    hide W.Inv, W.AfterBegin, W.AfterChecks, W.AfterFinish;
  }

  /** The loop of WheelClock behind a tick that has been processed. */
  lemma ProcessedOnward<T>(c: Clocked<T>, now: int, scripts: seq<seq<seq<Command<T>>>>, i: nat)
    requires Ready(c) && c.processed
    ensures var next := c.(border := c.border + c.wheel.granularity, processed := false);
            Processed(c, now, scripts, i) == if now >= c.border then Processed(next, now, scripts, i) else c
  {
    hide W.Inv, Processed, Script, FiredWhile, W.FiredInTick, W.AfterTick;
    RoundEquation(c, now, scripts, i);
  }

  /** ... and in front of one that has not. */
  lemma ProcessedTick<T>(c: Clocked<T>, now: int, scripts: seq<seq<seq<Command<T>>>>, i: nat)
    requires Ready(c) && !c.processed
    ensures var done := Clocked(W.AfterTick(c.wheel, Script(scripts, i)), c.border, true);
            Ready(done) && Processed(c, now, scripts, i) == Processed(done, now, scripts, i + 1)
    ensures W.AfterTick(c.wheel, Script(scripts, i)).granularity == c.wheel.granularity
  {
    hide W.Inv, Processed, Script, W.AfterTick, FiredWhile, W.FiredInTick;
    W.SoundInv(c.wheel);
    var done := Clocked(W.AfterTick(c.wheel, Script(scripts, i)), c.border, true);
    RoundEquation(c, now, scripts, i);
    ProcessedOnward(done, now, scripts, i + 1);
  }

  /** The thread's loop up to the next actions, and the rest of the loop after them, is the loop
      of WheelClock: `j` is the number of the tick in which there are actions. */
  ghost predicate Continues<T>(
    c: Clocked<T>, r: Clocked<T>, now: int, scripts: seq<seq<seq<Command<T>>>>, i: nat, j: nat)
    requires Ready(c) && W.Inv(r.wheel)
  {
    Processed(c, now, scripts, i) ==
    if r.wheel.life.exec == [] then r
    else Processed(TickDone(r.(wheel := W.AfterChecks(r.wheel, 0, Script(scripts, j)))), now, scripts, j + 1)
  }

  lemma {:induction false} ProceedIsProcessed<T>(c: Clocked<T>, now: int, scripts: seq<seq<seq<Command<T>>>>, i: nat)
    returns (j: nat)
    requires Ready(c)
    ensures Continues(c, Proceed(c, now), now, scripts, i, j)
    decreases now - c.border + c.wheel.granularity
  {
    hide W.Inv, W.AfterBegin, W.AfterTick, W.AfterChecks, TickDone, Advanced, Script, Processed;
    j := i;
    if c.processed {
      j := OnwardIsProcessed(c, now, scripts, i);
    } else {
      TickInParts(c, Script(scripts, i));
      ProcessedTick(c, now, scripts, i);
      if W.AfterBegin(c.wheel).life.exec == [] {
        j := OnwardIsProcessed(Clocked(W.AfterTick(c.wheel, Script(scripts, i)), c.border, true), now, scripts, i + 1);
      }
    }
  }

  lemma {:induction false} OnwardIsProcessed<T>(c: Clocked<T>, now: int, scripts: seq<seq<seq<Command<T>>>>, i: nat)
    returns (j: nat)
    requires Ready(c) && c.processed
    ensures Continues(c, Onward(c, now), now, scripts, i, j)
    decreases now - c.border + c.wheel.granularity, 0
  {
    hide W.Inv, W.AfterChecks, TickDone, Script, Processed, Proceed;
    j := i;
    W.SoundInv(c.wheel);
    ProcessedOnward(c, now, scripts, i);
    if now >= c.border {
      j := ProceedIsProcessed(c.(border := c.border + c.wheel.granularity, processed := false), now, scripts, i);
    }
  }

  /** Without calls it does not matter how the ticks are numbered. */
  lemma {:induction false} IdleNumbers<T>(c: Clocked<T>, now: int, i: nat, j: nat)
    requires Ready(c)
    ensures Processed(c, now, [], i) == Processed(c, now, [], j)
    decreases now - c.border + c.wheel.granularity
  {
    hide W.Inv, W.AfterTick, Processed;
    RoundEquation(c, now, [], i);
    RoundEquation(c, now, [], j);
    if now >= c.border {
      var wheel := if c.processed then c.wheel else W.AfterTick(c.wheel, []);
      IdleNumbers(Clocked(wheel, c.border + c.wheel.granularity, false), now,
                  if c.processed then i else i + 1, if c.processed then j else j + 1);
    }
  }

  /** What is left of the loop when actions are being run and clients are idle. */
  ghost function Rest<T>(s: State<T>): (r: Clocked<T>)
    requires W.Inv(s.clocked.wheel)
    ensures Ready(r)
  {
    Processed(TickDone(s.clocked), s.now, [], 0)
  }

  lemma RestAfterResume<T>(s: State<T>)
    requires W.Inv(s.clocked.wheel)
    ensures var c := Onward(TickDone(s.clocked), s.now);
            Rest(s) == if c.wheel.life.exec == [] then c else Processed(TickDone(c), s.now, [], 0)
  {
    hide W.Inv, TickDone, Onward, Processed, W.AfterChecks;
    var c := Onward(TickDone(s.clocked), s.now);
    var j := OnwardIsProcessed(TickDone(s.clocked), s.now, [], 0);
    if c.wheel.life.exec != [] {
      W.IdleChecks(c.wheel, 0);
      IdleNumbers(TickDone(c), s.now, j + 1, 0);
    }
  }

  lemma RunOneMore<T>(s: State<T>, e: Event<T>, rest: seq<Event<T>>)
    requires Inv(s)
    ensures Inv(AfterStep(s, e)) && AfterRun(s, [e] + rest) == AfterRun(AfterStep(s, e), rest)
  {
    hide Inv, AfterStep;
    StepKeepsInv(s, e);
    assert ([e] + rest)[1..] == rest;
  }

  /** Where a thread waits that has nothing to do: for the end of the current tick, and without a
      deadline if the engine has no timer. */
  function Resting<T>(c: Clocked<T>): Phase {
    Waiting(if IsEmpty(c) then Never else At(c.border))
  }

  /** The thread that is running actions, left to itself, processes all the ticks it still owes,
      and then waits; or it ends, if it has been told to shut down. */
  lemma {:induction false} ActionsEnd<T>(s: State<T>, clock: int) returns (events: seq<Event<T>>)
    requires Inv(s) && s.phase.Executing?
    ensures forall e :: e in events ==> e == Check || e == Resume(clock)
    ensures var r := AfterRun(s, events);
            if s.shutdown then
              r.phase == Finished && r.clocked.wheel == W.AfterClear(Rest(s).wheel) && IsEmpty(r.clocked)
            else r.phase == Resting(r.clocked) && r.clocked == Rest(s)
    decreases s.now - s.clocked.border + s.clocked.wheel.granularity,
              if s.phase.Executing? then |s.clocked.wheel.life.exec| - s.phase.i else 0
  {
    hide W.Inv, Counted, W.AfterClear, AfterRun, Rest, Onward, TickDone;
    if s.phase.i < |s.clocked.wheel.life.exec| {
      var next := AfterStep(s, Check);
      RunOneMore(s, Check, []);
      SameRest(s, next);
      var rest := ActionsEnd(next, clock);
      RunOneMore(s, Check, rest);
      events := [Check] + rest;
    } else {
      var c := Onward(TickDone(s.clocked), s.now);
      var next := AfterStep(s, Resume(clock));
      RunOneMore(s, Resume(clock), []);
      RestAfterResume(s);
      TickDoneBorder(s.clocked);
      OnwardBorder(TickDone(s.clocked), s.now);
      if c.wheel.life.exec != [] {
        var rest := ActionsEnd(next, clock);
        RestIs(next);
        RunOneMore(s, Resume(clock), rest);
        events := [Resume(clock)] + rest;
      } else {
        events := [Resume(clock)];
        NoEvents(next);
        assert events == [Resume(clock)] + [];
        if s.shutdown { W.ClearEquation(c.wheel); }
      }
    }
  }

  lemma RestIs<T>(s: State<T>)
    requires W.Inv(s.clocked.wheel)
    ensures Rest(s) == Processed(TickDone(s.clocked), s.now, [], 0)
  {
  }

  lemma SameRest<T>(s: State<T>, r: State<T>)
    requires W.Inv(s.clocked.wheel) && r.clocked == s.clocked && r.now == s.now
    ensures Rest(s) == Rest(r)
  {
  }

  lemma TickDoneBorder<T>(c: Clocked<T>)
    requires W.Inv(c.wheel)
    ensures TickDone(c).border == c.border && TickDone(c).wheel.granularity == c.wheel.granularity
  {
    hide W.Inv;
  }

  /** A thread that enters its loop, and is left alone, catches up with the clock exactly as
      WheelClock says, and waits. */
  lemma EnterCatchesUp<T>(s: State<T>, now: int, clock: int) returns (events: seq<Event<T>>)
    requires Inv(s) && (s.phase == Starting || s.phase == Woken) && !s.shutdown
    ensures forall e :: e in events ==> e == Check || e == Resume(clock)
    ensures var r := AfterRun(s, [Enter(now)] + events);
            r.phase == Resting(r.clocked) && r.clocked == Processed(s.clocked, now, [], 0)
  {
    hide W.Inv, Counted, AfterRun, Proceed, Processed, TickDone, W.AfterChecks, Rest;
    var entered := AfterStep(s, Enter(now));
    RunOneMore(s, Enter(now), []);
    var j := ProceedIsProcessed(s.clocked, now, [], 0);
    events := [];
    if entered.phase.Executing? {
      W.IdleChecks(entered.clocked.wheel, 0);
      IdleNumbers(TickDone(entered.clocked), now, j + 1, 0);
      RestIs(entered);
      events := ActionsEnd(entered, clock);
    } else {
      NoEvents(entered);
    }
    RunOneMore(s, Enter(now), events);
  }

  /** So does one that has just been started, with the ticks since the engine was made. */
  lemma StartedCatchesUp<T>(s: State<T>, now: int, clock: int) returns (events: seq<Event<T>>)
    requires Inv(s) && s.phase == Stopped
    ensures forall e :: e in events ==> e == Check || e == Resume(clock)
    ensures var r := AfterRun(s, [Start, Enter(now)] + events);
            r.phase == Resting(r.clocked) && r.clocked == Processed(s.clocked, now, [], 0)
  {
    hide W.Inv, Counted, AfterRun, Processed, AfterEnter;
    RunOneMore(s, Start, []);
    events := EnterCatchesUp(AfterStep(s, Start), now, clock);
    assert [Start, Enter(now)] + events == [Start] + ([Enter(now)] + events);
    RunOneMore(s, Start, [Enter(now)] + events);
  }

  /** And so does a waiting thread once the end of the current tick has come. */
  lemma DueTicksAreServed<T>(s: State<T>, now: int, clock: int) returns (events: seq<Event<T>>)
    requires Inv(s) && s.phase.Waiting? && s.phase.deadline.At? && s.clocked.border <= now
    ensures forall e :: e in events ==> e == Check || e == Resume(clock)
    ensures var r := AfterRun(s, [Timeout(now), Enter(now)] + events);
            r.phase == Resting(r.clocked) && r.clocked == Processed(s.clocked, now, [], 0)
  {
    hide W.Inv, Counted, AfterRun, Processed, AfterEnter;
    RunOneMore(s, Timeout(now), []);
    events := EnterCatchesUp(AfterStep(s, Timeout(now)), now, clock);
    assert [Timeout(now), Enter(now)] + events == [Timeout(now)] + ([Enter(now)] + events);
    RunOneMore(s, Timeout(now), [Enter(now)] + events);
  }

  lemma NoEvents<T>(s: State<T>)
    requires Inv(s)
    ensures AfterRun(s, []) == s
  {
  }

  /** A shutdown ends a thread that waits, or has not entered its loop yet, at its next step; the
      ticks of an empty wheel are counted anew from there. */
  lemma ShutdownIsServed<T>(s: State<T>, now: int)
    requires Inv(s) && (s.phase.Waiting? || s.phase == Starting || s.phase == Woken)
    ensures var told := AfterStep(s, Shutdown);
            && Inv(told)
            && var r := AfterStep(told, Enter(now));
               && r.phase == Finished
               && (forall i :: 0 <= i < |r.clocked.wheel.slots| ==> r.clocked.wheel.slots[i] == [])
               && IsEmpty(r.clocked)
               && r.clocked.border == now + s.clocked.wheel.granularity
  {
    hide Sound, W.Linked, Counted;
    StepKeepsInv(s, Shutdown);
    W.ClearEquation(s.clocked.wheel);
  }
}
