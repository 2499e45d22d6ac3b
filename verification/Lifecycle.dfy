/**
  The life of a timer, shared by the wheel, list and heap engines: its status, its reference
  count, and the two counters every engine keeps.

  A `Ledger` is what is left of an engine when the order of its timers is forgotten.  All
  three engines are shown to refine it, so what is proved here holds of all three.
 */
module Lifecycle {
  import opened Sequences

  /** The heap engine has no status field: it uses the heap position and the pointer to the
      timer in processing instead (see HeapEngine.StatusOf). */
  datatype Status = Deactivated | Active | WaitForExecution | WaitForDeactivation

  /** `refs` is the reference count; `holders` says how many of the references do not belong
      to the engine.  A zero period means single-shot. */
  datatype Info = Info(status: Status, period: int, refs: nat, holders: nat)

  /** `info` covers the timers that have not been deleted, `exec` is the detached execution
      list, and the counters are those of timer_quantities. */
  datatype Ledger<T(==)> = Ledger(info: map<T, Info>, exec: seq<T>, single: int, periodic: int)

  /** The calls a client, in particular a timer action, can make between two steps of a pass.
      `clock` is what the call reads from the clock.  Hold and Drop stand for a smart pointer
      elsewhere that starts or stops to refer to the timer. */
  datatype Command<T> =
    | Activate(timer: T, clock: int, pause: int, period: int)
    | Reschedule(timer: T, clock: int, pause: int, period: int)
    | Deactivate(timer: T)
    | Hold(timer: T)
    | Drop(timer: T)

  /** Why a call is refused by an exception. */
  datatype Error = NullTimer | NotDeactivated | InProcessing

  /** What a call to an engine gives back: whether the timer thread must be notified. */
  datatype Outcome = Done(notify: bool) | Failed(error: Error)

  predicate InExec(i: Info) {
    i.status == WaitForExecution || i.status == WaitForDeactivation
  }

  /** The engine holds one reference from activation until final deactivation. */
  predicate Balanced(i: Info) {
    i.refs > 0 && i.refs == i.holders + (if i.status == Deactivated then 0 else 1)
  }

  /** Status agrees with membership in the execution list, and counts with ownership. */
  ghost predicate Sound<T>(s: Ledger<T>) {
    && Distinct(s.exec)
    && (forall t :: t in s.exec ==> t in s.info && InExec(s.info[t]))
    && (forall t :: t in s.info && InExec(s.info[t]) ==> t in s.exec)
    && (forall t :: t in s.info ==> Balanced(s.info[t]))
  }

  predicate OwnedAs(i: Info, periodic: bool) {
    i.status != Deactivated && (i.period != 0) == periodic
  }

  /** The timers of one kind that the engine owns. */
  ghost function Owned<T>(info: map<T, Info>, periodic: bool): set<T> {
    set t | t in info && OwnedAs(info[t], periodic)
  }

  ghost predicate Counted<T>(s: Ledger<T>) {
    && s.single == |Owned(s.info, false)|
    && s.periodic == |Owned(s.info, true)|
  }

  /** A timer object is deleted when its count reaches zero. */
  function Put<T>(info: map<T, Info>, t: T, i: Info): map<T, Info> {
    if i.refs == 0 then info - {t} else info[t := i]
  }

  // ------------------------------------------------------------------ single operations

  /** The counters after `delta` timers of the given period came in. */
  function Tally<T>(s: Ledger<T>, period: int, delta: int): Ledger<T> {
    if period == 0 then s.(single := s.single + delta) else s.(periodic := s.periodic + delta)
  }

  /** `allocate`: the returned smart pointer is the first holder. */
  function AfterAllocate<T>(s: Ledger<T>, t: T): (r: Ledger<T>)
    requires Sound(s) && t !in s.info
    ensures Sound(r)
  {
    s.(info := s.info[t := Info(Deactivated, 0, 1, 1)])
  }

  function AfterActivate<T>(s: Ledger<T>, t: T, period: int): (r: Ledger<T>)
    requires Sound(s) && t in s.info
    ensures Sound(r)
  {
    if s.info[t].status != Deactivated then s
    else
      var i := s.info[t].(status := Active, period := period, refs := s.info[t].refs + 1);
      Tally(s, period, 1).(info := s.info[t := i])
  }

  function AfterReschedule<T>(s: Ledger<T>, t: T, period: int): (r: Ledger<T>)
    requires Sound(s) && t in s.info
    ensures Sound(r)
  {
    if s.info[t].status == Deactivated then AfterActivate(s, t, period)
    else if s.info[t].status != Active then s
    else
      Tally(Tally(s, s.info[t].period, -1), period, 1)
        .(info := s.info[t := s.info[t].(period := period)])
  }

  /** The engine lets go of the timer and gives its reference back. */
  function Released<T>(s: Ledger<T>, t: T): (r: Ledger<T>)
    requires t in s.info && s.info[t].refs > 0
  {
    var i := s.info[t].(status := Deactivated, refs := s.info[t].refs - 1);
    Tally(s, i.period, -1).(info := Put(s.info, t, i))
  }

  /** A timer of the execution list is only marked: the pass will release it. */
  function AfterDeactivate<T>(s: Ledger<T>, t: T): (r: Ledger<T>)
    requires Sound(s) && t in s.info
    ensures Sound(r)
  {
    match s.info[t].status
    case Active => Released(s, t)
    case WaitForExecution =>
      s.(info := s.info[t := s.info[t].(status := WaitForDeactivation)])
    case _ => s
  }

  function AfterHold<T>(s: Ledger<T>, t: T): (r: Ledger<T>)
    requires Sound(s) && t in s.info
    ensures Sound(r)
  {
    var i := s.info[t];
    s.(info := s.info[t := i.(refs := i.refs + 1, holders := i.holders + 1)])
  }

  function AfterDrop<T>(s: Ledger<T>, t: T): (r: Ledger<T>)
    requires Sound(s) && t in s.info
    ensures Sound(r)
  {
    var i := s.info[t];
    if i.holders == 0 then s
    else s.(info := Put(s.info, t, i.(refs := i.refs - 1, holders := i.holders - 1)))
  }

  /** A call made by a client.  Nobody can name a timer that was deleted. */
  function After<T>(s: Ledger<T>, c: Command<T>): (r: Ledger<T>)
    requires Sound(s)
    ensures Sound(r) && r.exec == s.exec
  {
    if c.timer !in s.info then s
    else match c
      case Activate(t, _, _, period) => AfterActivate(s, t, period)
      case Reschedule(t, _, _, period) => AfterReschedule(s, t, period)
      case Deactivate(t) => AfterDeactivate(s, t)
      case Hold(t) => AfterHold(s, t)
      case Drop(t) => AfterDrop(s, t)
  }

  function AfterAll<T>(s: Ledger<T>, cs: seq<Command<T>>): (r: Ledger<T>)
    requires Sound(s)
    ensures Sound(r) && r.exec == s.exec
    decreases |cs|
  {
    if |cs| == 0 then s else AfterAll(After(s, cs[0]), cs[1..])
  }

  // ------------------------------------------------------------------ one pass

  ghost predicate AllActive<T>(s: Ledger<T>, due: seq<T>) {
    forall t :: t in due ==> t in s.info && s.info[t].status == Active
  }

  function Marked<T>(info: map<T, Info>, due: seq<T>): map<T, Info> {
    map t | t in info :: if t in due then info[t].(status := WaitForExecution) else info[t]
  }

  lemma MarkedOneMore<T>(info: map<T, Info>, due: seq<T>, t: T)
    requires t in info && info[t].refs > 0 && t !in due
    ensures Marked(info, due + [t])
         == Put(Marked(info, due), t, Info(WaitForExecution, info[t].period, info[t].refs, info[t].holders))
  {
  }

  lemma MarkedNone<T>(info: map<T, Info>)
    ensures Marked(info, []) == info
  {
  }

  /** The elapsed timers, in this order, become the execution list. */
  function AfterBegin<T>(s: Ledger<T>, due: seq<T>): (r: Ledger<T>)
    requires Sound(s) && s.exec == [] && Distinct(due) && AllActive(s, due)
    ensures Sound(r) && r.exec == due
  {
    assert forall t :: t in s.info ==> !InExec(s.info[t]);
    s.(info := Marked(s.info, due), exec := due)
  }

  function At<C>(script: seq<seq<C>>, i: nat): seq<C> {
    if i < |script| then script[i] else []
  }

  /** The walk over the execution list with the lock released.  `script[i]` holds the calls
      made before the status of timer `i` is checked, and `script[|exec|]` those made after
      the last check. */
  function AfterChecks<T>(s: Ledger<T>, i: nat, script: seq<seq<Command<T>>>): (r: Ledger<T>)
    requires Sound(s) && i <= |s.exec|
    ensures Sound(r) && r.exec == s.exec
    decreases |s.exec| - i
  {
    var s1 := AfterAll(s, At(script, i));
    if i == |s.exec| then s1 else AfterChecks(s1, i + 1, script)
  }

  /** The timers whose action is run during that walk, in order. */
  function Fired<T>(s: Ledger<T>, i: nat, script: seq<seq<Command<T>>>): (r: seq<T>)
    requires Sound(s) && i <= |s.exec|
    decreases |s.exec| - i
  {
    if i == |s.exec| then []
    else
      var s1 := AfterAll(s, At(script, i));
      var t := s1.exec[i];
      (if s1.info[t].status == WaitForExecution then [t] else []) + Fired(s1, i + 1, script)
  }

  /** What follows for the head of the execution list: a periodic timer that nobody
      deactivated meanwhile is active again, every other one is released. */
  function AfterFinishOne<T>(s: Ledger<T>): (r: Ledger<T>)
    requires Sound(s) && s.exec != []
    ensures Sound(r) && r.exec == s.exec[1..]
  {
    var t := s.exec[0];
    var i := s.info[t];
    DistinctTail(s.exec);
    if i.status == WaitForExecution && i.period != 0
    then s.(info := s.info[t := i.(status := Active)], exec := s.exec[1..])
    else Released(s, t).(exec := s.exec[1..])
  }

  function AfterFinish<T>(s: Ledger<T>): (r: Ledger<T>)
    requires Sound(s)
    ensures Sound(r) && r.exec == []
    decreases |s.exec|
  {
    if s.exec == [] then s else AfterFinish(AfterFinishOne(s))
  }

  /** The timers `ts` deactivated and released; those nobody else holds are deleted. */
  function Cleared<T>(info: map<T, Info>, ts: seq<T>): map<T, Info> {
    map t | t in info && !(t in ts && info[t].refs <= 1) ::
      if t in ts then info[t].(status := Deactivated, refs := info[t].refs - 1) else info[t]
  }

  lemma ClearedNone<T>(info: map<T, Info>)
    ensures Cleared(info, []) == info
  {
  }

  lemma ClearedOneMore<T>(info: map<T, Info>, ts: seq<T>, t: T)
    requires t in info && info[t].refs > 0 && t !in ts
    ensures t in Cleared(info, ts) && Cleared(info, ts)[t] == info[t]
    ensures Cleared(info, ts + [t])
         == Put(Cleared(info, ts), t, Info(Deactivated, info[t].period, info[t].refs - 1, info[t].holders))
  {
  }

  /** `clear_all`, called when no pass is under way, goes through the linked timers. */
  function AfterClear<T>(s: Ledger<T>, linked: seq<T>): (r: Ledger<T>)
    requires Sound(s) && s.exec == [] && AllActive(s, linked)
    requires forall t :: t in s.info && s.info[t].status == Active ==> t in linked
    ensures Sound(r)
  {
    assert forall t :: t in s.info ==> !InExec(s.info[t]);
    Ledger(Cleared(s.info, linked), [], 0, 0)
  }

  // ------------------------------------------------------------------ counters

  lemma OwnedAfterUpdate<T>(info: map<T, Info>, t: T, i: Info, periodic: bool)
    ensures |Owned(info[t := i], periodic)|
         == |Owned(info - {t}, periodic)| + (if OwnedAs(i, periodic) then 1 else 0)
  {
    var rest := Owned(info - {t}, periodic);
    assert Owned(info[t := i], periodic) == if OwnedAs(i, periodic) then rest + {t} else rest;
  }

  /** How a change to one timer moves the count of one kind. */
  lemma OwnedAfterPut<T>(info: map<T, Info>, t: T, i: Info, periodic: bool)
    requires t in info && (i.refs == 0 ==> i.status == Deactivated)
    ensures |Owned(Put(info, t, i), periodic)|
         == |Owned(info, periodic)| - (if OwnedAs(info[t], periodic) then 1 else 0)
            + (if OwnedAs(i, periodic) then 1 else 0)
  {
    assert info[t := info[t]] == info;
    OwnedAfterUpdate(info, t, info[t], periodic);
    OwnedAfterUpdate(info, t, i, periodic);
  }

  lemma SameOwned<T>(a: map<T, Info>, b: map<T, Info>)
    requires forall t :: t in a && a[t].status != Deactivated ==>
      t in b && b[t].status != Deactivated && b[t].period == a[t].period
    requires forall t :: t in b && b[t].status != Deactivated ==> t in a && a[t].status != Deactivated
    ensures Owned(a, false) == Owned(b, false) && Owned(a, true) == Owned(b, true)
  {
  }

  lemma AllocateCounts<T>(s: Ledger<T>, t: T)
    requires Sound(s) && Counted(s) && t !in s.info
    ensures Counted(AfterAllocate(s, t))
  {
    SameOwned(s.info, AfterAllocate(s, t).info);
  }

  /** A call changes the books of its own timer only, and the counters accordingly. */
  lemma CallPuts<T>(s: Ledger<T>, c: Command<T>, i: Info)
    requires Sound(s) && c.timer in s.info
    requires var r := After(s, c);
             i == if c.timer in r.info then r.info[c.timer] else Info(Deactivated, s.info[c.timer].period, 0, 0)
    ensures var r, was := After(s, c), s.info[c.timer];
            && r.info == Put(s.info, c.timer, i) && (i.refs == 0 ==> i.status == Deactivated)
            && r.single == s.single - (if OwnedAs(was, false) then 1 else 0) + (if OwnedAs(i, false) then 1 else 0)
            && r.periodic == s.periodic - (if OwnedAs(was, true) then 1 else 0) + (if OwnedAs(i, true) then 1 else 0)
  {
    assert Balanced(s.info[c.timer]);
  }

  /** No call of a client makes a counter disagree with the timers the engine owns. */
  lemma CallCounts<T>(s: Ledger<T>, c: Command<T>)
    requires Sound(s) && Counted(s)
    ensures Counted(After(s, c))
  {
    hide Sound, Owned, OwnedAs, Put;
    if c.timer in s.info {
      hide After;
      var t := c.timer;
      var r := After(s, c);
      var i := if t in r.info then r.info[t] else Info(Deactivated, s.info[t].period, 0, 0);
      CallPuts(s, c, i);
      OwnedAfterPut(s.info, t, i, false);
      OwnedAfterPut(s.info, t, i, true);
    }
  }

  lemma {:induction false} CallsCount<T>(s: Ledger<T>, cs: seq<Command<T>>)
    requires Sound(s) && Counted(s)
    ensures Counted(AfterAll(s, cs))
    decreases |cs|
  {
    if |cs| > 0 {
      CallCounts(s, cs[0]);
      CallsCount(After(s, cs[0]), cs[1..]);
    }
  }

  lemma BeginCounts<T>(s: Ledger<T>, due: seq<T>)
    requires Sound(s) && Counted(s) && s.exec == [] && Distinct(due) && AllActive(s, due)
    ensures Counted(AfterBegin(s, due))
  {
    SameOwned(s.info, AfterBegin(s, due).info);
  }

  lemma {:induction false} ChecksCount<T>(s: Ledger<T>, i: nat, script: seq<seq<Command<T>>>)
    requires Sound(s) && Counted(s) && i <= |s.exec|
    ensures Counted(AfterChecks(s, i, script))
    decreases |s.exec| - i
  {
    CallsCount(s, At(script, i));
    if i < |s.exec| {
      ChecksCount(AfterAll(s, At(script, i)), i + 1, script);
    }
  }

  lemma FinishOneCounts<T>(s: Ledger<T>)
    requires Sound(s) && Counted(s) && s.exec != []
    ensures Counted(AfterFinishOne(s))
  {
    var t := s.exec[0];
    var r := AfterFinishOne(s);
    var i := if t in r.info then r.info[t] else Info(Deactivated, s.info[t].period, 0, 0);
    assert r.info == Put(s.info, t, i);
    OwnedAfterPut(s.info, t, i, false);
    OwnedAfterPut(s.info, t, i, true);
  }

  lemma {:induction false} FinishCounts<T>(s: Ledger<T>)
    requires Sound(s) && Counted(s)
    ensures Counted(AfterFinish(s))
    decreases |s.exec|
  {
    if s.exec != [] {
      FinishOneCounts(s);
      FinishCounts(AfterFinishOne(s));
    }
  }

  lemma ClearCounts<T>(s: Ledger<T>, linked: seq<T>)
    requires Sound(s) && s.exec == [] && AllActive(s, linked)
    requires forall t :: t in s.info && s.info[t].status == Active ==> t in linked
    ensures Counted(AfterClear(s, linked))
  {
    var r := AfterClear(s, linked);
    assert forall t :: t in s.info ==> !InExec(s.info[t]);
    assert Owned(r.info, false) == {} && Owned(r.info, true) == {};
  }

  /** The counter of an owned timer's kind is positive, so decrementing it cannot wrap. */
  lemma OwnedIsCounted<T>(s: Ledger<T>, t: T)
    requires Counted(s) && t in s.info && s.info[t].status != Deactivated
    ensures s.info[t].period == 0 ==> s.single > 0
    ensures s.info[t].period != 0 ==> s.periodic > 0
    ensures s.single >= 0 && s.periodic >= 0
  {
    assert t in Owned(s.info, s.info[t].period != 0);
  }

  /** The end of a pass for one timer, written out. */
  lemma FinishOneEquation<T>(s: Ledger<T>)
    requires Sound(s) && Counted(s) && s.exec != []
    ensures s.exec[0] in s.info && InExec(s.info[s.exec[0]])
    ensures var r, t, i := AfterFinishOne(s), s.exec[0], s.info[s.exec[0]];
            && r.exec == s.exec[1..]
            && (if i.status == WaitForExecution && i.period != 0 then
                  && r.info == s.info[t := Info(Active, i.period, i.refs, i.holders)]
                  && r.single == s.single && r.periodic == s.periodic
                else
                  && r.info == Put(s.info, t, Info(Deactivated, i.period, i.refs - 1, i.holders))
                  && r.single == s.single - (if i.period == 0 then 1 else 0)
                  && r.periodic == s.periodic - (if i.period == 0 then 0 else 1))
            && i.refs > 0 && (if i.period == 0 then s.single > 0 else s.periodic > 0)
    ensures Counted(AfterFinishOne(s))
  {
    FinishOneCounts(s);
    OwnedIsCounted(s, s.exec[0]);
  }

  /** The engine's own idea of emptiness is exact. */
  lemma ZeroCountersMeanEmpty<T>(s: Ledger<T>)
    requires Counted(s)
    ensures s.single == 0 && s.periodic == 0 <==>
            forall t :: t in s.info ==> s.info[t].status == Deactivated
  {
    if s.single == 0 && s.periodic == 0 {
      forall t | t in s.info
        ensures s.info[t].status == Deactivated
      {
        assert t !in Owned(s.info, s.info[t].period != 0);
      }
    }
    if forall t :: t in s.info ==> s.info[t].status == Deactivated {
      assert Owned(s.info, false) == {} && Owned(s.info, true) == {};
    }
  }

  // ------------------------------------------------------------------ what a pass does

  /** Some call before check number `i` deactivated the timer. */
  ghost predicate Cancelled<T>(script: seq<seq<Command<T>>>, t: T, i: nat) {
    exists k :: 0 <= k <= i && Deactivate(t) in At(script, k)
  }

  /** The timers of `due[i..]` that are not cancelled before their check, in order. */
  ghost function Executed<T>(due: seq<T>, script: seq<seq<Command<T>>>, i: nat): seq<T>
    requires i <= |due|
    decreases |due| - i
  {
    if i == |due| then []
    else (if Cancelled(script, due[i], i) then [] else [due[i]]) + Executed(due, script, i + 1)
  }

  lemma OneCallIsStable<T>(s: Ledger<T>, c: Command<T>, t: T)
    requires Sound(s) && t in s.exec
    ensures t in After(s, c).info
    ensures After(s, c).info[t].period == s.info[t].period
    ensures After(s, c).info[t].status ==
            if c == Deactivate(t) then WaitForDeactivation else s.info[t].status
  {
  }

  /** While it is in the execution list, a timer's period is fixed and its status can only
      be changed by a deactivation: activating or rescheduling it is refused. */
  lemma {:induction false} ExecIsStable<T>(s: Ledger<T>, cs: seq<Command<T>>, t: T)
    requires Sound(s) && t in s.exec
    ensures t in AfterAll(s, cs).info
    ensures AfterAll(s, cs).info[t].period == s.info[t].period
    ensures AfterAll(s, cs).info[t].status ==
            if Deactivate(t) in cs then WaitForDeactivation else s.info[t].status
    decreases |cs|
  {
    if |cs| > 0 {
      OneCallIsStable(s, cs[0], t);
      ExecIsStable(After(s, cs[0]), cs[1..], t);
      assert Deactivate(t) in cs <==> Deactivate(t) == cs[0] || Deactivate(t) in cs[1..];
    }
  }

  /** No call from check `i` to check `n` deactivates the timer. */
  ghost predicate Spared<T>(script: seq<seq<Command<T>>>, t: T, i: nat, n: nat) {
    forall k :: i <= k <= n ==> Deactivate(t) !in At(script, k)
  }

  lemma {:induction false} ChecksAreStable<T>(s: Ledger<T>, i: nat, script: seq<seq<Command<T>>>, t: T)
    requires Sound(s) && i <= |s.exec| && t in s.exec
    ensures var r := AfterChecks(s, i, script);
            && t in r.info && r.info[t].period == s.info[t].period
            && (r.info[t].status == WaitForExecution <==>
                s.info[t].status == WaitForExecution && Spared(script, t, i, |s.exec|))
    decreases |s.exec| - i
  {
    ExecIsStable(s, At(script, i), t);
    if i < |s.exec| {
      ChecksAreStable(AfterAll(s, At(script, i)), i + 1, script, t);
    }
  }

  /** The timers of `exec[i..]` await execution unless a call before check `i` cancelled them. */
  ghost predicate Pending<T>(s: Ledger<T>, i: nat, script: seq<seq<Command<T>>>)
    requires Sound(s)
  {
    forall j :: i <= j < |s.exec| ==>
      (s.info[s.exec[j]].status == WaitForExecution
       <==> forall k :: 0 <= k < i ==> Deactivate(s.exec[j]) !in At(script, k))
  }

  /** The timer that is checked next still awaits execution unless it was cancelled. */
  lemma CheckedNext<T>(s: Ledger<T>, i: nat, script: seq<seq<Command<T>>>)
    requires Sound(s) && i < |s.exec| && Pending(s, i, script)
    ensures var s1, t := AfterAll(s, At(script, i)), s.exec[i];
            t in s1.info && (s1.info[t].status == WaitForExecution <==> !Cancelled(script, t, i))
  {
    hide AfterAll, Balanced;
    var t := s.exec[i];
    ExecIsStable(s, At(script, i), t);
    if Deactivate(t) in At(script, i) {
      assert Cancelled(script, t, i);
    }
  }

  lemma StillPending<T>(s: Ledger<T>, i: nat, script: seq<seq<Command<T>>>)
    requires Sound(s) && i < |s.exec| && Pending(s, i, script)
    ensures Pending(AfterAll(s, At(script, i)), i + 1, script)
  {
    hide AfterAll, Balanced;
    var s1 := AfterAll(s, At(script, i));
    forall j | i <= j < |s.exec|
      ensures s1.info[s.exec[j]].status == WaitForExecution
        <==> forall k :: 0 <= k < i + 1 ==> Deactivate(s.exec[j]) !in At(script, k)
    {
      ExecIsStable(s, At(script, i), s.exec[j]);
    }
  }

  lemma PendingAfter<T>(s: Ledger<T>, i: nat, script: seq<seq<Command<T>>>)
    requires Sound(s) && i < |s.exec| && Pending(s, i, script)
    ensures var s1 := AfterAll(s, At(script, i));
            && Pending(s1, i + 1, script)
            && Fired(s, i, script) ==
               (if Cancelled(script, s.exec[i], i) then [] else [s.exec[i]]) + Fired(s1, i + 1, script)
  {
    hide Sound, AfterAll, Cancelled, Pending;
    CheckedNext(s, i, script);
    StillPending(s, i, script);
  }

  lemma FiredNothing<T>(s: Ledger<T>, i: nat, script: seq<seq<Command<T>>>)
    requires Sound(s) && i <= |s.exec|
    ensures i == |s.exec| ==> Fired(s, i, script) == []
  {
  }

  lemma {:induction false} ChecksExecute<T>(s: Ledger<T>, i: nat, script: seq<seq<Command<T>>>)
    requires Sound(s) && i <= |s.exec| && Pending(s, i, script)
    ensures Fired(s, i, script) == Executed(s.exec, script, i)
    decreases |s.exec| - i
  {
    hide Sound, Pending, Fired, AfterAll, Cancelled;
    FiredNothing(s, i, script);
    if i < |s.exec| {
      var s1 := AfterAll(s, At(script, i));
      PendingAfter(s, i, script);
      ChecksExecute(s1, i + 1, script);
    }
  }

  /** What the end of a pass does to one timer: reactivate it, release its one reference, or
      leave it alone. */
  ghost predicate Settled<T>(before: Ledger<T>, after: Ledger<T>, t: T)
    requires t in before.info
  {
    var i := before.info[t];
    if !InExec(i) then
      t in after.info && after.info[t] == i
    else if i.status == WaitForExecution && i.period != 0 then
      t in after.info && after.info[t] == i.(status := Active)
    else
      && (t in after.info <==> i.refs > 1)
      && (t in after.info ==> after.info[t] == Info(Deactivated, i.period, i.refs - 1, i.holders))
  }

  lemma FinishOneSettles<T>(s: Ledger<T>, t: T)
    requires Sound(s) && s.exec != [] && t in s.info
    ensures t == s.exec[0] ==> Settled(s, AfterFinishOne(s), t)
    ensures t != s.exec[0] ==> t in AfterFinishOne(s).info && AfterFinishOne(s).info[t] == s.info[t]
  {
  }

  lemma {:induction false} FinishLeavesOthers<T>(s: Ledger<T>, t: T)
    requires Sound(s) && t !in s.exec
    ensures t in AfterFinish(s).info <==> t in s.info
    ensures t in s.info ==> AfterFinish(s).info[t] == s.info[t]
    decreases |s.exec|
  {
    if s.exec != [] {
      FinishLeavesOthers(AfterFinishOne(s), t);
    }
  }

  lemma {:induction false} FinishSettles<T>(s: Ledger<T>, t: T)
    requires Sound(s) && t in s.info
    ensures Settled(s, AfterFinish(s), t)
    decreases |s.exec|
  {
    if s.exec != [] {
      FinishOneSettles(s, t);
      DistinctTail(s.exec);
      if t == s.exec[0] {
        FinishLeavesOthers(AfterFinishOne(s), t);
      } else {
        FinishSettles(AfterFinishOne(s), t);
      }
    }
  }

  lemma ExecFacts<T>(s: Ledger<T>, t: T)
    requires Sound(s) && t in s.exec
    ensures t in s.info && InExec(s.info[t]) && Balanced(s.info[t])
  {
  }

  lemma ExecMember<T>(s: Ledger<T>, due: seq<T>, t: T)
    requires Sound(s) && s.exec == [] && Distinct(due) && AllActive(s, due) && t in due
    ensures var begun := AfterBegin(s, due);
            && t in s.info && t in begun.info && begun.info[t] == s.info[t].(status := WaitForExecution)
            && begun.exec == due
            && forall j :: 0 <= j < |due| ==> due[j] in begun.info && begun.info[due[j]].status == WaitForExecution
  {
  }

  /** One pass over the elapsed timers `due`, whatever clients do while the lock is released:
      exactly the timers not cancelled before their check are run, in order; a timer is active
      again exactly when it is periodic and was never cancelled; every other one is released
      exactly once, and deleted exactly when nobody else holds it. */
  lemma PassOutcome<T>(s: Ledger<T>, due: seq<T>, script: seq<seq<Command<T>>>, i: nat)
    requires Sound(s) && s.exec == [] && Distinct(due) && AllActive(s, due) && i < |due|
    ensures var begun := AfterBegin(s, due);
            var checked := AfterChecks(begun, 0, script);
            var done := AfterFinish(checked);
            var t := due[i];
            && Fired(begun, 0, script) == Executed(due, script, 0)
            && t in checked.info
            && checked.info[t].period == s.info[t].period
            && (if s.info[t].period != 0 && Spared(script, t, 0, |due|)
                then t in done.info && done.info[t] == checked.info[t].(status := Active)
                else (t in done.info <==> checked.info[t].holders > 0)
                     && (t in done.info ==>
                           && done.info[t].status == Deactivated
                           && done.info[t].refs == checked.info[t].refs - 1 == done.info[t].holders))
  {
    hide Sound, Distinct, Executed, Fired, AfterChecks, AfterFinish;
    var begun := AfterBegin(s, due);
    var t := due[i];
    assert t in due;
    ExecMember(s, due, t);
    ChecksExecute(begun, 0, script);
    ChecksAreStable(begun, 0, script, t);
    var checked := AfterChecks(begun, 0, script);
    ExecFacts(checked, t);
    FinishSettles(checked, t);
  }

  /** Clearing releases each linked timer exactly once, deletes it exactly when nobody else
      holds it, and leaves all other timers alone. */
  lemma ClearReleases<T>(s: Ledger<T>, linked: seq<T>, t: T)
    requires Sound(s) && s.exec == [] && AllActive(s, linked) && t in s.info
    requires forall u :: u in s.info && s.info[u].status == Active ==> u in linked
    ensures var r, i := AfterClear(s, linked), s.info[t];
            if i.status == Active then
              && (t in r.info <==> i.holders > 0)
              && (t in r.info ==> r.info[t] == Info(Deactivated, i.period, i.holders, i.holders))
            else t in r.info && r.info[t] == i
  {
    assert t !in s.exec;
  }

  // ------------------------------------------------------------------ what smart pointers can rely on

  /** No smart pointer came or went, and no timer was deleted that one of them refers to. */
  ghost predicate SameHolders<T>(a: map<T, Info>, b: map<T, Info>) {
    && (forall t :: t in b ==> t in a && b[t].holders == a[t].holders)
    && (forall t :: t in a && t !in b ==> a[t].holders == 0)
  }

  /** Calls to the engine leave the smart pointers alone: each deletes its timer only if no
      smart pointer refers to it. */
  lemma CallKeepsHolders<T>(s: Ledger<T>, c: Command<T>)
    requires Sound(s) && !c.Hold? && !c.Drop?
    ensures SameHolders(s.info, After(s, c).info)
  {
    if c.timer in s.info {
      assert Balanced(s.info[c.timer]);
    }
  }

  lemma MarkedKeepsHolders<T>(info: map<T, Info>, due: seq<T>)
    ensures SameHolders(info, Marked(info, due))
  {
  }

  lemma FinishOneKeepsHolders<T>(s: Ledger<T>)
    requires Sound(s) && s.exec != []
    ensures SameHolders(s.info, AfterFinishOne(s).info)
  {
    assert s.exec[0] in s.exec && Balanced(s.info[s.exec[0]]);
  }

  lemma {:induction false} FinishKeepsHolders<T>(s: Ledger<T>)
    requires Sound(s)
    ensures SameHolders(s.info, AfterFinish(s).info)
    decreases |s.exec|
  {
    hide Sound, AfterFinishOne;
    if s.exec != [] {
      FinishOneKeepsHolders(s);
      FinishKeepsHolders(AfterFinishOne(s));
    }
  }

  lemma ClearKeepsHolders<T>(s: Ledger<T>, linked: seq<T>)
    requires Sound(s) && AllActive(s, linked)
    ensures SameHolders(s.info, Cleared(s.info, linked))
  {
    forall t | t in s.info && t in linked
      ensures s.info[t].refs <= 1 ==> s.info[t].holders == 0
    {
      assert Balanced(s.info[t]);
    }
  }

  /** What was deleted stays deleted. */
  ghost predicate OnlyDeletes<T>(a: map<T, Info>, b: map<T, Info>) {
    forall t :: t in b ==> t in a
  }

  lemma OneCallOnlyDeletes<T>(s: Ledger<T>, c: Command<T>)
    requires Sound(s)
    ensures OnlyDeletes(s.info, After(s, c).info)
  {
  }

  lemma {:induction false} CallsOnlyDelete<T>(s: Ledger<T>, cs: seq<Command<T>>)
    requires Sound(s)
    ensures OnlyDeletes(s.info, AfterAll(s, cs).info)
    decreases |cs|
  {
    hide Sound, After;
    if |cs| > 0 {
      OneCallOnlyDeletes(s, cs[0]);
      CallsOnlyDelete(After(s, cs[0]), cs[1..]);
    }
  }

  lemma {:induction false} ChecksOnlyDelete<T>(s: Ledger<T>, i: nat, script: seq<seq<Command<T>>>)
    requires Sound(s) && i <= |s.exec|
    ensures OnlyDeletes(s.info, AfterChecks(s, i, script).info)
    decreases |s.exec| - i
  {
    hide Sound, AfterAll;
    CallsOnlyDelete(s, At(script, i));
    if i < |s.exec| {
      ChecksOnlyDelete(AfterAll(s, At(script, i)), i + 1, script);
    }
  }

  lemma PassOnlyDeletes<T>(s: Ledger<T>, due: seq<T>, script: seq<seq<Command<T>>>)
    requires Sound(s) && s.exec == [] && Distinct(due) && AllActive(s, due)
    ensures OnlyDeletes(s.info, AfterFinish(AfterChecks(AfterBegin(s, due), 0, script)).info)
  {
    var checked := AfterChecks(AfterBegin(s, due), 0, script);
    ChecksOnlyDelete(AfterBegin(s, due), 0, script);
    FinishKeepsHolders(checked);
  }

  // ------------------------------------------------------------------ whole runs

  datatype Step<T> =
    | Allocate(unused: T)
    | Call(command: Command<T>)
    | Pass(due: seq<T>, script: seq<seq<Command<T>>>)
    | Clear(linked: seq<T>)

  ghost predicate Idle<T>(s: Ledger<T>) {
    Sound(s) && Counted(s) && s.exec == []
  }

  /** Steps that the engine cannot take are skipped. */
  ghost function AfterStep<T>(s: Ledger<T>, step: Step<T>): Ledger<T>
    requires Idle(s)
  {
    match step
    case Allocate(t) => if t in s.info then s else AfterAllocate(s, t)
    case Call(c) => After(s, c)
    case Pass(due, script) =>
      if Distinct(due) && AllActive(s, due)
      then AfterFinish(AfterChecks(AfterBegin(s, due), 0, script)) else s
    case Clear(linked) =>
      if AllActive(s, linked) && (forall t :: t in s.info && s.info[t].status == Active ==> t in linked)
      then AfterClear(s, linked) else s
  }

  lemma StepKeepsIdle<T>(s: Ledger<T>, step: Step<T>)
    requires Idle(s)
    ensures Idle(AfterStep(s, step))
  {
    match step
    case Allocate(t) => if t !in s.info { AllocateCounts(s, t); }
    case Call(c) => CallCounts(s, c);
    case Pass(due, script) =>
      if Distinct(due) && AllActive(s, due) {
        var begun := AfterBegin(s, due);
        BeginCounts(s, due);
        ChecksCount(begun, 0, script);
        FinishCounts(AfterChecks(begun, 0, script));
      }
    case Clear(linked) =>
      if AllActive(s, linked) && (forall t :: t in s.info && s.info[t].status == Active ==> t in linked) {
        ClearCounts(s, linked);
      }
  }

  /** Every state a run can reach between two passes conserves references and counters. */
  ghost function AfterRun<T>(s: Ledger<T>, steps: seq<Step<T>>): (r: Ledger<T>)
    requires Idle(s)
    ensures Idle(r)
    decreases |steps|
  {
    if |steps| == 0 then s
    else
      StepKeepsIdle(s, steps[0]);
      AfterRun(AfterStep(s, steps[0]), steps[1..])
  }
}
