/**
  What the list engine does to its timers, on values: a queue kept in firing order by an
  insertion that walks from the tail, and a pass that detaches the elapsed prefix.
 */
module ListSpec {
  import opened Lifecycle
  import opened Sequences

  /** A timer together with its m_when. */
  datatype Entry<T> = Entry(timer: T, when: int)

  /** `queue` and `exec` give the linked list and the detached execution list in order. */
  datatype State<T(==)> = State(life: Ledger<T>, queue: seq<Entry<T>>, exec: seq<Entry<T>>)

  function Timers<T>(q: seq<Entry<T>>): (r: seq<T>)
    ensures |r| == |q|
  {
    seq(|q|, i requires 0 <= i < |q| => q[i].timer)
  }

  predicate Sorted<T>(q: seq<Entry<T>>) {
    forall i, j :: 0 <= i < j < |q| ==> q[i].when <= q[j].when
  }

  // ------------------------------------------------------------------ sorted insertion

  /** Where the walk from the tail stops: behind the last entry that is not later. */
  function Place<T>(q: seq<Entry<T>>, when: int): (k: nat)
    ensures k <= |q|
    ensures k > 0 ==> q[k - 1].when <= when
    ensures forall i :: k <= i < |q| ==> q[i].when > when
  {
    if q == [] || q[|q| - 1].when <= when then |q| else Place(q[..|q| - 1], when)
  }

  function Insert<T>(q: seq<Entry<T>>, e: Entry<T>): seq<Entry<T>> {
    InsertAt(q, Place(q, e.when), e)
  }

  function IndexOf<T(==)>(q: seq<Entry<T>>, t: T): (k: nat)
    ensures k <= |q|
    ensures k < |q| ==> q[k].timer == t
    ensures k == |q| <==> t !in Timers(q)
  {
    if q == [] then 0
    else if q[0].timer == t then assert Timers(q)[0] == t; 0
    else
      assert Timers(q) == [q[0].timer] + Timers(q[1..]);
      1 + IndexOf(q[1..], t)
  }

  function Remove<T(==)>(q: seq<Entry<T>>, t: T): seq<Entry<T>> {
    var k := IndexOf(q, t);
    if k == |q| then q else RemoveAt(q, k)
  }

  /** The entries with the given time, in queue order: what stability is about. */
  function AtTime<T>(q: seq<Entry<T>>, when: int): seq<Entry<T>> {
    if q == [] then []
    else (if q[0].when == when then [q[0]] else []) + AtTime(q[1..], when)
  }

  /** `r` is `q` sorted by time, entries with equal times staying in order. */
  ghost predicate StablySorted<T>(r: seq<Entry<T>>, q: seq<Entry<T>>) {
    Sorted(r) && forall when :: AtTime(r, when) == AtTime(q, when)
  }

  lemma AtTimeNothing<T>(when: int)
    ensures AtTime<T>([], when) == []
  {
  }

  lemma AtTimeCons<T>(q: seq<Entry<T>>, when: int)
    requires q != []
    ensures AtTime(q, when) == (if q[0].when == when then [q[0]] else []) + AtTime(q[1..], when)
  {
  }

  lemma {:induction false} AtTimeConcat<T>(a: seq<Entry<T>>, b: seq<Entry<T>>, when: int)
    ensures AtTime(a + b, when) == AtTime(a, when) + AtTime(b, when)
  {
    hide AtTime;
    if a == [] {
      assert a + b == b;
      AtTimeNothing<T>(when);
    } else {
      AtTimeConcat(a[1..], b, when);
      AtTimeCons(a, when);
      AtTimeCons(a + b, when);
      assert (a + b)[0] == a[0] && (a + b)[1..] == a[1..] + b;
    }
  }

  lemma {:induction false} AtTimeNone<T>(q: seq<Entry<T>>, when: int)
    requires forall i :: 0 <= i < |q| ==> q[i].when != when
    ensures AtTime(q, when) == []
  {
    if q != [] {
      AtTimeNone(q[1..], when);
    }
  }

  lemma InsertSorts<T>(q: seq<Entry<T>>, e: Entry<T>)
    requires Sorted(q)
    ensures Sorted(Insert(q, e))
  {
  }

  /** An entry may be exchanged with later ones that are due strictly later. */
  lemma PassOver<T>(a: seq<Entry<T>>, e: Entry<T>, b: seq<Entry<T>>, when: int)
    requires forall i :: 0 <= i < |b| ==> b[i].when > e.when
    ensures AtTime(a + [e] + b, when) == AtTime(a + b + [e], when)
  {
    AtTimeConcat(a + [e], b, when);
    AtTimeConcat(a, [e], when);
    AtTimeConcat(a + b, [e], when);
    AtTimeConcat(a, b, when);
    var x, y, z := AtTime(a, when), AtTime(b, when), AtTime([e], when);
    if e.when == when {
      AtTimeNone(b, when);
      assert x + z + y == x + y + z;
    } else {
      AtTimeNone([e], when);
      assert x + z + y == x + y + z;
    }
  }

  /** Insertion is stable: the new entry goes behind all the entries due at the same time. */
  lemma InsertIsStable<T>(q: seq<Entry<T>>, e: Entry<T>, when: int)
    ensures AtTime(Insert(q, e), when) == AtTime(q + [e], when)
  {
    var k := Place(q, e.when);
    assert q[..k] + q[k..] == q;
    InsertAtSlices(q, k, e);
    PassOver(q[..k], e, q[k..], when);
  }

  lemma {:induction false} FirstAtTime<T>(q: seq<Entry<T>>, when: int)
    requires Sorted(q) && q != [] && q[0].when == when
    ensures AtTime(q, when) != [] && AtTime(q, when)[0] == q[0]
  {
  }

  /** Two sorted queues that agree at every time have the same head. */
  lemma SameHead<T>(a: seq<Entry<T>>, b: seq<Entry<T>>)
    requires StablySorted(a, b) && Sorted(b)
    ensures a == [] <==> b == []
    ensures a != [] ==> a[0] == b[0]
  {
    if a != [] {
      FirstAtTime(a, a[0].when);
      if b == [] || b[0].when > a[0].when {
        AtTimeNone(b, a[0].when);
      }
    }
    if b != [] {
      FirstAtTime(b, b[0].when);
      if a == [] || a[0].when > b[0].when {
        AtTimeNone(a, b[0].when);
      }
    }
  }

  /** Stable sorting has one result: a sorted queue is determined by the order of the entries
      that share a time. */
  lemma {:induction false} SortedIsUnique<T>(a: seq<Entry<T>>, b: seq<Entry<T>>)
    requires StablySorted(a, b) && Sorted(b)
    ensures a == b
    decreases |a|
  {
    SameHead(a, b);
    if a != [] {
      forall when
        ensures AtTime(a[1..], when) == AtTime(b[1..], when)
      {
        var h := if a[0].when == when then [a[0]] else [];
        assert AtTime(a, when) == h + AtTime(a[1..], when);
        assert AtTime(b, when) == h + AtTime(b[1..], when);
        assert AtTime(a[1..], when) == AtTime(a, when)[|h|..];
      }
      SortedIsUnique(a[1..], b[1..]);
      assert a == [a[0]] + a[1..];
    }
  }

  /** Appending in turn and then sorting stably: the reference for repeated insertion. */
  function InsertAll<T>(q: seq<Entry<T>>, es: seq<Entry<T>>): seq<Entry<T>>
    decreases |es|
  {
    if |es| == 0 then q else InsertAll(Insert(q, es[0]), es[1..])
  }

  lemma {:induction false} InsertAllIsStable<T>(q: seq<Entry<T>>, es: seq<Entry<T>>)
    requires Sorted(q)
    ensures StablySorted(InsertAll(q, es), q + es)
    decreases |es|
  {
    if |es| == 0 {
      assert q + es == q;
    } else {
      InsertSorts(q, es[0]);
      InsertAllIsStable(Insert(q, es[0]), es[1..]);
      forall when
        ensures AtTime(InsertAll(q, es), when) == AtTime(q + es, when)
      {
        InsertIsStable(q, es[0], when);
        AtTimeConcat(Insert(q, es[0]), es[1..], when);
        AtTimeConcat(q + [es[0]], es[1..], when);
        assert q + es == q + [es[0]] + es[1..];
      }
    }
  }

  // ------------------------------------------------------------------ the engine's state

  ghost predicate Inv<T>(s: State<T>) {
    && Sound(s.life)
    && s.life.exec == Timers(s.exec)
    && Linked(s.life, s.queue)
    && Sorted(s.queue)
  }

  /** Status agrees with membership: exactly the active timers are in the queue, once each. */
  ghost predicate Linked<T>(life: Ledger<T>, queue: seq<Entry<T>>) {
    && Distinct(Timers(queue))
    && AllActive(life, Timers(queue))
    && (forall t :: t in life.info && life.info[t].status == Active ==> t in Timers(queue))
  }

  lemma TimersOfInsert<T>(q: seq<Entry<T>>, e: Entry<T>)
    requires Distinct(Timers(q)) && e.timer !in Timers(q)
    ensures Distinct(Timers(Insert(q, e)))
    ensures forall t :: t in Timers(Insert(q, e)) ==> t == e.timer || t in Timers(q)
    ensures forall t :: t in Timers(q) ==> t in Timers(Insert(q, e))
    ensures e.timer in Timers(Insert(q, e))
  {
    var k := Place(q, e.when);
    assert Timers(Insert(q, e)) == InsertAt(Timers(q), k, e.timer);
    InsertAtMembers(Timers(q), k, e.timer);
    InsertAtDistinct(Timers(q), k, e.timer);
  }

  lemma TimersOfRemove<T>(q: seq<Entry<T>>, t: T)
    requires Distinct(Timers(q)) && t in Timers(q)
    ensures Distinct(Timers(Remove(q, t))) && t !in Timers(Remove(q, t))
    ensures forall u :: u in Timers(Remove(q, t)) ==> u in Timers(q)
    ensures forall u :: u in Timers(q) && u != t ==> u in Timers(Remove(q, t))
    ensures Sorted(q) ==> Sorted(Remove(q, t))
  {
    var k := IndexOf(q, t);
    assert Timers(Remove(q, t)) == RemoveAt(Timers(q), k);
    RemoveAtMembers(Timers(q), k);
    RemoveAtDistinct(Timers(q), k);
  }

  /** The timer is linked again, for the given time; its period is already in the ledger. */
  function Relinked<T>(s: State<T>, life: Ledger<T>, t: T, when: int): (r: State<T>)
    requires Linked(s.life, s.queue) && Sorted(s.queue)
    requires t in life.info && life.info[t].status == Active && t !in Timers(s.queue)
    requires forall u :: u in s.life.info && u != t ==> u in life.info && life.info[u] == s.life.info[u]
    requires forall u :: u in life.info && u != t ==> u in s.life.info
    ensures Linked(r.life, r.queue) && Sorted(r.queue)
  {
    TimersOfInsert(s.queue, Entry(t, when));
    InsertSorts(s.queue, Entry(t, when));
    s.(life := life, queue := Insert(s.queue, Entry(t, when)))
  }

  function AfterAllocate<T>(s: State<T>, t: T): (r: State<T>)
    requires Inv(s) && t !in s.life.info
    ensures Inv(r)
  {
    s.(life := Lifecycle.AfterAllocate(s.life, t))
  }

  lemma AllocateEquation<T>(s: State<T>, t: T)
    requires Inv(s) && Counted(s.life) && t !in s.life.info
    ensures AfterAllocate(s, t) ==
            s.(life := s.life.(info := s.life.info[t := Info(Deactivated, 0, 1, 1)]))
    ensures Counted(AfterAllocate(s, t).life)
  {
    AllocateCounts(s.life, t);
  }

  function AfterActivate<T>(s: State<T>, t: T, when: int, period: int): (r: State<T>)
    requires Inv(s) && t in s.life.info
    ensures Inv(r)
  {
    if s.life.info[t].status != Deactivated then s
    else Relinked(s, Lifecycle.AfterActivate(s.life, t, period), t, when)
  }

  /** The state after an activation that is not refused, written out. */
  lemma ActivateEquation<T>(s: State<T>, t: T, when: int, period: int)
    requires Inv(s) && t in s.life.info && s.life.info[t].status == Deactivated
    ensures var i := s.life.info[t];
            AfterActivate(s, t, when, period) ==
            State(Ledger(s.life.info[t := Info(Active, period, i.refs + 1, i.holders)], s.life.exec,
                         s.life.single + (if period == 0 then 1 else 0),
                         s.life.periodic + (if period == 0 then 0 else 1)),
                  Insert(s.queue, Entry(t, when)), s.exec)
    ensures Counted(s.life) ==> Counted(AfterActivate(s, t, when, period).life)
  {
    if Counted(s.life) {
      Lifecycle.CallCounts(s.life, Activate(t, when, 0, period));
    }
  }

  function AfterDeactivate<T>(s: State<T>, t: T): (r: State<T>)
    requires Inv(s) && t in s.life.info
    ensures Inv(r)
  {
    if s.life.info[t].status == Active then
      TimersOfRemove(s.queue, t);
      s.(life := Lifecycle.AfterDeactivate(s.life, t), queue := Remove(s.queue, t))
    else s.(life := Lifecycle.AfterDeactivate(s.life, t))
  }

  lemma DeactivateEquation<T>(s: State<T>, t: T)
    requires Inv(s) && Counted(s.life) && t in s.life.info
    ensures var i, r := s.life.info[t], AfterDeactivate(s, t);
            match i.status
            case Active =>
              && r == State(Ledger(Put(s.life.info, t, Info(Deactivated, i.period, i.refs - 1, i.holders)),
                                   s.life.exec,
                                   s.life.single - (if i.period == 0 then 1 else 0),
                                   s.life.periodic - (if i.period == 0 then 0 else 1)),
                            Remove(s.queue, t), s.exec)
              && (if i.period == 0 then s.life.single > 0 else s.life.periodic > 0)
            case WaitForExecution =>
              r == s.(life := s.life.(info :=
                        Put(s.life.info, t, Info(WaitForDeactivation, i.period, i.refs, i.holders))))
            case _ => r == s
    ensures Counted(AfterDeactivate(s, t).life)
  {
    hide Counted, Linked, Sorted, Timers, Remove, Owned;
    Lifecycle.CallCounts(s.life, Deactivate(t));
    if s.life.info[t].status == Active {
      OwnedIsCounted(s.life, t);
    }
  }

  function AfterReschedule<T>(s: State<T>, t: T, when: int, period: int): (r: State<T>)
    requires Inv(s) && t in s.life.info
    ensures Inv(r)
  {
    match s.life.info[t].status
    case Deactivated => AfterActivate(s, t, when, period)
    case Active =>
      TimersOfRemove(s.queue, t);
      var q := Remove(s.queue, t);
      TimersOfInsert(q, Entry(t, when));
      InsertSorts(q, Entry(t, when));
      s.(life := Lifecycle.AfterReschedule(s.life, t, period), queue := Insert(q, Entry(t, when)))
    case _ => s
  }

  /** An activation notifies the thread exactly when the new timer is the earliest one. */
  lemma ActivateNotifies<T>(s: State<T>, t: T, when: int, period: int)
    requires Inv(s) && t in s.life.info
    ensures ActivateOutcome(s, t, when, period) ==
            if s.life.info[t].status != Deactivated then Failed(NotDeactivated)
            else Done(forall i :: 0 <= i < |s.queue| ==> when < s.queue[i].when)
  {
    if s.life.info[t].status == Deactivated && s.queue != [] {
      assert Timers(s.queue)[0] == s.queue[0].timer;
      if Place(s.queue, when) == 0 {
        assert forall i :: 0 <= i < |s.queue| ==> when < s.queue[i].when;
      } else {
        assert s.queue[0].when <= s.queue[Place(s.queue, when) - 1].when;
      }
    }
  }

  lemma HeadInserted<T>(q: seq<Entry<T>>, e: Entry<T>)
    requires Sorted(q) && e.timer !in Timers(q)
    ensures Insert(q, e) != []
    ensures Insert(q, e)[0].timer == e.timer <==> forall i :: 0 <= i < |q| ==> e.when < q[i].when
  {
    var k := Place(q, e.when);
    if k > 0 {
      assert Timers(q)[0] == q[0].timer && q[0].when <= q[k - 1].when;
    }
  }

  /** So does a rescheduling, when the timer is earlier than all others. */
  lemma RescheduleNotifies<T>(s: State<T>, t: T, when: int, period: int)
    requires Inv(s) && t in s.life.info
    ensures RescheduleOutcome(s, t, when, period) ==
            if InExec(s.life.info[t]) then Failed(InProcessing)
            else Done(forall e :: e in s.queue && e.timer != t ==> when < e.when)
  {
    hide Insert, Remove, Inv, Timers, AfterActivate;
    if s.life.info[t].status == Deactivated {
      ActivateNotifies(s, t, when, period);
      NotQueued(s, t);
    } else if s.life.info[t].status == Active {
      RescheduledQueue(s, t, when, period);
      assert IsHead(AfterReschedule(s, t, when, period), t)
        <==> Insert(Remove(s.queue, t), Entry(t, when)) != []
             && Insert(Remove(s.queue, t), Entry(t, when))[0].timer == t;
      HeadInserted(Remove(s.queue, t), Entry(t, when));
      RemovedOthers(s.queue, t);
    }
  }

  lemma RescheduledQueue<T>(s: State<T>, t: T, when: int, period: int)
    requires Inv(s) && t in s.life.info && s.life.info[t].status == Active
    ensures var q := Remove(s.queue, t);
            && AfterReschedule(s, t, when, period).queue == Insert(q, Entry(t, when))
            && Sorted(q) && t !in Timers(q) && Distinct(Timers(s.queue))
  {
    hide Insert, Remove;
    TimersOfRemove(s.queue, t);
  }

  lemma NotQueued<T>(s: State<T>, t: T)
    requires Inv(s) && t in s.life.info && s.life.info[t].status != Active
    ensures forall e :: e in s.queue ==> e.timer != t
  {
    forall e | e in s.queue
      ensures e.timer != t
    {
      var k :| 0 <= k < |s.queue| && s.queue[k] == e;
      assert Timers(s.queue)[k] == e.timer;
    }
  }

  lemma RemovedOthers<T>(q: seq<Entry<T>>, t: T)
    requires Distinct(Timers(q))
    ensures forall e :: e in Remove(q, t) <==> e in q && e.timer != t
  {
    var k, r, ts := IndexOf(q, t), Remove(q, t), Timers(q);
    forall e | e in q && e.timer != t
      ensures e in r
    {
      var i :| 0 <= i < |q| && q[i] == e;
      if k < |q| { assert i != k && r[if i < k then i else i - 1] == e; }
    }
    forall e | e in r
      ensures e in q && e.timer != t
    {
      var i :| 0 <= i < |r| && r[i] == e;
      var j := if k < |q| && i >= k then i + 1 else i;
      assert q[j] == e && ts[j] == e.timer;
      if k < |q| { assert ts[k] == t && j != k; }
    }
  }

  lemma RescheduleEquation<T>(s: State<T>, t: T, when: int, period: int)
    requires Inv(s) && Counted(s.life) && t in s.life.info && s.life.info[t].status == Active
    ensures var i, r := s.life.info[t], AfterReschedule(s, t, when, period);
            && r.life.info == s.life.info[t := Info(Active, period, i.refs, i.holders)]
            && r.life.single == s.life.single - (if i.period == 0 then 1 else 0) + (if period == 0 then 1 else 0)
            && r.life.periodic == s.life.periodic - (if i.period == 0 then 0 else 1) + (if period == 0 then 0 else 1)
            && r.life.exec == s.life.exec && r.exec == s.exec
            && r.queue == Insert(Remove(s.queue, t), Entry(t, when))
            && (if i.period == 0 then s.life.single > 0 else s.life.periodic > 0)
    ensures Counted(AfterReschedule(s, t, when, period).life)
  {
    Lifecycle.CallCounts(s.life, Reschedule(t, when, 0, period));
    OwnedIsCounted(s.life, t);
  }

  /** `activate` and `reschedule` answer whether the timer is now the head of the queue. */
  function ActivateOutcome<T(==)>(s: State<T>, t: T, when: int, period: int): Outcome
    requires Inv(s) && t in s.life.info
  {
    if s.life.info[t].status != Deactivated then Failed(NotDeactivated)
    else Done(IsHead(AfterActivate(s, t, when, period), t))
  }

  function RescheduleOutcome<T(==)>(s: State<T>, t: T, when: int, period: int): Outcome
    requires Inv(s) && t in s.life.info
  {
    if InExec(s.life.info[t]) then Failed(InProcessing)
    else Done(IsHead(AfterReschedule(s, t, when, period), t))
  }

  predicate IsHead<T(==)>(s: State<T>, t: T) {
    s.queue != [] && s.queue[0].timer == t
  }

  function After<T>(s: State<T>, c: Command<T>): (r: State<T>)
    requires Inv(s)
    ensures Inv(r) && r.exec == s.exec && r.life == Lifecycle.After(s.life, c)
  {
    if c.timer !in s.life.info then s
    else match c
      case Activate(t, clock, pause, period) => AfterActivate(s, t, clock + pause, period)
      case Reschedule(t, clock, pause, period) => AfterReschedule(s, t, clock + pause, period)
      case Deactivate(t) => AfterDeactivate(s, t)
      case Hold(t) => s.(life := AfterHold(s.life, t))
      case Drop(t) => s.(life := AfterDrop(s.life, t))
  }

  lemma CallCounts<T>(s: State<T>, c: Command<T>)
    requires Inv(s) && Counted(s.life)
    ensures Counted(After(s, c).life)
  {
    Lifecycle.CallCounts(s.life, c);
  }

  lemma HoldEquation<T>(s: State<T>, c: Command<T>)
    requires Inv(s) && c.timer in s.life.info
    ensures var i := s.life.info[c.timer];
            match c
            case Hold(t) =>
              After(s, c) == s.(life := s.life.(info :=
                Put(s.life.info, t, Info(i.status, i.period, i.refs + 1, i.holders + 1))))
            case Drop(t) => i.holders > 0 ==>
              After(s, c) == s.(life := s.life.(info :=
                Put(s.life.info, t, Info(i.status, i.period, i.refs - 1, i.holders - 1))))
            case _ => true
  {
  }

  /** What the call gives back. */
  function Answer<T>(s: State<T>, c: Command<T>): Outcome
    requires Inv(s) && c.timer in s.life.info
  {
    match c
    case Activate(t, clock, pause, period) => ActivateOutcome(s, t, clock + pause, period)
    case Reschedule(t, clock, pause, period) => RescheduleOutcome(s, t, clock + pause, period)
    case _ => Done(false)
  }

  function AfterAll<T>(s: State<T>, cs: seq<Command<T>>): (r: State<T>)
    requires Inv(s)
    ensures Inv(r) && r.exec == s.exec && r.life == Lifecycle.AfterAll(s.life, cs)
    decreases |cs|
  {
    if |cs| == 0 then s else AfterAll(After(s, cs[0]), cs[1..])
  }

  // ------------------------------------------------------------------ one pass

  /** The walk from the head to the first timer that has not elapsed. */
  function Elapsed<T>(q: seq<Entry<T>>, now: int): (k: nat)
    ensures k <= |q|
    ensures forall i :: 0 <= i < k ==> q[i].when <= now
    ensures k < |q| ==> now < q[k].when
  {
    if q == [] || now < q[0].when then 0 else 1 + Elapsed(q[1..], now)
  }

  function AfterBegin<T>(s: State<T>, now: int): (r: State<T>)
    requires Inv(s) && s.exec == []
    ensures Inv(r)
  {
    var k := Elapsed(s.queue, now);
    var ts := Timers(s.queue);
    assert Timers(s.queue[..k]) == ts[..k] && Timers(s.queue[k..]) == ts[k..] && ts == ts[..k] + ts[k..];
    State(Lifecycle.AfterBegin(s.life, ts[..k]), s.queue[k..], s.queue[..k])
  }

  lemma BeginEquation<T>(s: State<T>, now: int)
    requires Inv(s) && Counted(s.life) && s.exec == []
    ensures var r, k := AfterBegin(s, now), Elapsed(s.queue, now);
            && r.queue == s.queue[k..] && r.exec == s.queue[..k] && r.life.exec == Timers(s.queue)[..k]
            && r.life.single == s.life.single && r.life.periodic == s.life.periodic
            && r.life.info == Marked(s.life.info, Timers(s.queue)[..k])
            && (k == 0 ==> r == s)
    ensures Counted(AfterBegin(s, now).life)
  {
    var ts := Timers(s.queue);
    var k := Elapsed(s.queue, now);
    assert ts == ts[..k] + ts[k..];
    BeginCounts(s.life, ts[..k]);
    MarkedNone(s.life.info);
  }

  function AfterChecks<T>(s: State<T>, i: nat, script: seq<seq<Command<T>>>): (r: State<T>)
    requires Inv(s) && i <= |s.exec|
    ensures Inv(r) && r.exec == s.exec
    ensures r.life == Lifecycle.AfterChecks(s.life, i, script)
    decreases |s.exec| - i
  {
    var s1 := AfterAll(s, At(script, i));
    if i == |s.exec| then s1 else AfterChecks(s1, i + 1, script)
  }

  function AfterFinishOne<T>(s: State<T>): (r: State<T>)
    requires Inv(s) && s.exec != []
    ensures Inv(r) && r.exec == s.exec[1..] && r.life == Lifecycle.AfterFinishOne(s.life)
  {
    var e := s.exec[0];
    assert Timers(s.exec)[0] == e.timer;
    var i := s.life.info[e.timer];
    assert Timers(s.exec[1..]) == Timers(s.exec)[1..];
    var life := Lifecycle.AfterFinishOne(s.life);
    if i.status == WaitForExecution && i.period != 0
    then Relinked(s, life, e.timer, e.when + i.period).(exec := s.exec[1..])
    else s.(life := life, exec := s.exec[1..])
  }

  /** The timers whose action is run from check `i` on. */
  function FiredFrom<T>(s: State<T>, i: nat, script: seq<seq<Command<T>>>): seq<T>
    requires Inv(s) && i <= |s.exec|
  {
    Fired(s.life, i, script)
  }

  lemma ChecksStep<T>(s: State<T>, i: nat, script: seq<seq<Command<T>>>)
    requires Inv(s) && i <= |s.exec|
    ensures var s1 := AfterAll(s, At(script, i));
            if i == |s.exec| then AfterChecks(s, i, script) == s1 && FiredFrom(s, i, script) == []
            else
              && s.exec[i].timer in s1.life.info
              && AfterChecks(s, i, script) == AfterChecks(s1, i + 1, script)
              && FiredFrom(s, i, script) ==
                 (if s1.life.info[s.exec[i].timer].status == WaitForExecution then [s.exec[i].timer] else [])
                 + FiredFrom(s1, i + 1, script)
  {
    if i < |s.exec| {
      assert Timers(s.exec)[i] == s.exec[i].timer;
    }
  }

  lemma FinishOneEquation<T>(s: State<T>)
    requires Inv(s) && Counted(s.life) && s.exec != []
    ensures s.exec[0].timer in s.life.info
    ensures var r, e, i := AfterFinishOne(s), s.exec[0], s.life.info[s.exec[0].timer];
            && r.life.exec == Timers(s.exec)[1..] && r.exec == s.exec[1..]
            && (if i.status == WaitForExecution && i.period != 0 then
                  && r.life.info == s.life.info[e.timer := Info(Active, i.period, i.refs, i.holders)]
                  && r.life.single == s.life.single && r.life.periodic == s.life.periodic
                  && r.queue == Insert(s.queue, Entry(e.timer, e.when + i.period))
                else
                  && i.refs > 0
                  && r.life.info == Put(s.life.info, e.timer, Info(Deactivated, i.period, i.refs - 1, i.holders))
                  && r.life.single == s.life.single - (if i.period == 0 then 1 else 0)
                  && r.life.periodic == s.life.periodic - (if i.period == 0 then 0 else 1)
                  && r.queue == s.queue)
            && (if i.period == 0 then s.life.single > 0 else s.life.periodic > 0)
    ensures Counted(AfterFinishOne(s).life)
  {
    hide Sound, Counted, Put, Insert, Lifecycle.AfterFinishOne;
    assert Timers(s.exec)[0] == s.exec[0].timer;
    Lifecycle.FinishOneEquation(s.life);
  }

  function AfterFinish<T>(s: State<T>): (r: State<T>)
    requires Inv(s)
    ensures Inv(r) && r.exec == [] && r.life == Lifecycle.AfterFinish(s.life)
    decreases |s.exec|
  {
    if s.exec == [] then s else AfterFinish(AfterFinishOne(s))
  }

  /** `process_expired_timers`: when nothing has elapsed the lock is never released. */
  function AfterPass<T>(s: State<T>, now: int, script: seq<seq<Command<T>>>): (r: State<T>)
    requires Inv(s) && s.exec == []
    ensures Inv(r) && r.exec == []
  {
    var begun := AfterBegin(s, now);
    if begun.exec == [] then s else AfterFinish(AfterChecks(begun, 0, script))
  }

  function FiredInPass<T>(s: State<T>, now: int, script: seq<seq<Command<T>>>): seq<T>
    requires Inv(s) && s.exec == []
  {
    var begun := AfterBegin(s, now);
    if begun.exec == [] then [] else FiredFrom(begun, 0, script)
  }

  lemma PassOnlyDeletes<T>(s: State<T>, now: int, script: seq<seq<Command<T>>>)
    requires Inv(s) && s.exec == []
    ensures OnlyDeletes(s.life.info, AfterPass(s, now, script).life.info)
  {
    var due := Timers(s.queue)[..Elapsed(s.queue, now)];
    BeginIs(s, now);
    Lifecycle.PassOnlyDeletes(s.life, due, script);
  }

  lemma BeginIs<T>(s: State<T>, now: int)
    requires Inv(s) && s.exec == []
    ensures var due := Timers(s.queue)[..Elapsed(s.queue, now)];
            && Distinct(due) && AllActive(s.life, due) && s.life.exec == []
            && AfterBegin(s, now).life == Lifecycle.AfterBegin(s.life, due)
  {
    var ts, k := Timers(s.queue), Elapsed(s.queue, now);
    assert forall t :: t in ts[..k] ==> t in ts;
  }

  function AfterClear<T>(s: State<T>): (r: State<T>)
    requires Inv(s) && s.exec == []
    ensures Inv(r)
  {
    State(Lifecycle.AfterClear(s.life, Timers(s.queue)), [], [])
  }

  lemma ClearEquation<T>(s: State<T>)
    requires Inv(s) && s.exec == []
    ensures AfterClear(s) == State(Ledger(Cleared(s.life.info, Timers(s.queue)), [], 0, 0), [], [])
    ensures Counted(AfterClear(s).life)
  {
    ClearCounts(s.life, Timers(s.queue));
  }

  // ------------------------------------------------------------------ what a pass does

  /** The timer awaits its next execution: it is periodic and nobody cancelled it. */
  predicate Repeats<T>(life: Ledger<T>, t: T) {
    t in life.info && life.info[t].status == WaitForExecution && life.info[t].period != 0
  }

  /** The entries the end of a pass puts back, each one period later than it was due. */
  function PutBack<T>(life: Ledger<T>, exec: seq<Entry<T>>): seq<Entry<T>> {
    if exec == [] then []
    else
      var t := exec[0].timer;
      (if Repeats(life, t) then [Entry(t, exec[0].when + life.info[t].period)] else [])
      + PutBack(life, exec[1..])
  }

  lemma {:induction false} PutBackDepends<T>(a: Ledger<T>, b: Ledger<T>, exec: seq<Entry<T>>)
    requires forall i :: 0 <= i < |exec| ==> exec[i].timer in a.info && exec[i].timer in b.info
    requires forall i :: 0 <= i < |exec| ==> a.info[exec[i].timer] == b.info[exec[i].timer]
    ensures PutBack(a, exec) == PutBack(b, exec)
  {
    if exec != [] {
      PutBackDepends(a, b, exec[1..]);
    }
  }

  lemma PutBackFirst<T>(life: Ledger<T>, exec: seq<Entry<T>>, queue: seq<Entry<T>>)
    requires exec != []
    ensures var t := exec[0].timer;
            InsertAll(queue, PutBack(life, exec)) ==
              InsertAll(if Repeats(life, t)
                        then Insert(queue, Entry(t, exec[0].when + life.info[t].period)) else queue,
                        PutBack(life, exec[1..]))
  {
    if Repeats(life, exec[0].timer) {
      assert PutBack(life, exec)[1..] == PutBack(life, exec[1..]);
    } else {
      assert PutBack(life, exec) == PutBack(life, exec[1..]);
    }
  }

  lemma RestIsUntouched<T>(s: State<T>)
    requires Inv(s) && s.exec != []
    ensures PutBack(AfterFinishOne(s).life, s.exec[1..]) == PutBack(s.life, s.exec[1..])
  {
    var life := Lifecycle.AfterFinishOne(s.life);
    var rest := s.exec[1..];
    forall i | 0 <= i < |rest|
      ensures rest[i].timer in s.life.info && rest[i].timer in life.info
      ensures life.info[rest[i].timer] == s.life.info[rest[i].timer]
    {
      assert rest[i].timer == s.life.exec[i + 1];
      FinishOneSettles(s.life, rest[i].timer);
    }
    PutBackDepends(s.life, life, rest);
  }

  lemma FinishOneInserts<T>(s: State<T>)
    requires Inv(s) && s.exec != []
    ensures var s1 := AfterFinishOne(s);
            InsertAll(s.queue, PutBack(s.life, s.exec))
            == InsertAll(s1.queue, PutBack(s1.life, s1.exec))
  {
    RestIsUntouched(s);
    PutBackFirst(s.life, s.exec, s.queue);
    assert s.life.exec[0] == s.exec[0].timer;
  }

  lemma {:induction false} FinishInserts<T>(s: State<T>)
    requires Inv(s)
    ensures AfterFinish(s).queue == InsertAll(s.queue, PutBack(s.life, s.exec))
    decreases |s.exec|
  {
    if s.exec != [] {
      FinishOneInserts(s);
      FinishInserts(AfterFinishOne(s));
    }
  }

  /** Whatever clients do during a pass, the pass leaves the queue as the stable sort of what
      clients left in it followed by the timers put back. */
  lemma PassSortsStably<T>(s: State<T>, now: int, script: seq<seq<Command<T>>>)
    requires Inv(s) && s.exec == [] && AfterBegin(s, now).exec != []
    ensures var checked := AfterChecks(AfterBegin(s, now), 0, script);
            StablySorted(AfterPass(s, now, script).queue,
                            checked.queue + PutBack(checked.life, checked.exec))
  {
    var checked := AfterChecks(AfterBegin(s, now), 0, script);
    FinishInserts(checked);
    InsertAllIsStable(checked.queue, PutBack(checked.life, checked.exec));
  }

  /** A pass detaches exactly the timers with m_when <= now. */
  lemma DueExactly<T>(s: State<T>, now: int)
    requires Inv(s) && s.exec == []
    ensures var begun := AfterBegin(s, now);
            && begun.exec + begun.queue == s.queue
            && (forall i :: 0 <= i < |begun.exec| ==> begun.exec[i].when <= now)
            && (forall i :: 0 <= i < |begun.queue| ==> now < begun.queue[i].when)
  {
    hide Inv, Elapsed, Lifecycle.AfterBegin, Timers;
    var q, k := s.queue, Elapsed(s.queue, now);
    BeginQueues(s, now);
    QueueSorted(s);
    assert q[..k] + q[k..] == q;
    forall i | 0 <= i < |q[k..]|
      ensures now < q[k..][i].when
    {
      assert q[k..][i] == q[k + i] && (i > 0 ==> q[k].when <= q[k + i].when);
    }
  }

  lemma BeginQueues<T>(s: State<T>, now: int)
    requires Inv(s) && s.exec == []
    ensures AfterBegin(s, now).exec == s.queue[..Elapsed(s.queue, now)]
    ensures AfterBegin(s, now).queue == s.queue[Elapsed(s.queue, now)..]
  {
    hide Inv, Lifecycle.AfterBegin;
  }

  lemma QueueSorted<T>(s: State<T>)
    requires Inv(s)
    ensures Sorted(s.queue)
  {
  }

  /** Whatever clients do, a pass runs the timers that were due and not cancelled before their
      check, each once and in queue order. */
  lemma PassFires<T>(s: State<T>, now: int, script: seq<seq<Command<T>>>)
    requires Inv(s) && s.exec == []
    ensures FiredInPass(s, now, script) == Executed(Timers(AfterBegin(s, now).exec), script, 0)
  {
    var begun := AfterBegin(s, now);
    forall j | 0 <= j < |begun.life.exec|
      ensures begun.life.info[begun.life.exec[j]].status == WaitForExecution
    {
      assert begun.life.exec[j] in begun.life.exec;
    }
    ChecksExecute(begun.life, 0, script);
  }

  /** A pass that clients leave alone runs each due timer once, in queue order, even if a
      period is so short that a timer is due again at once. */
  lemma IdlePassFires<T>(s: State<T>, now: int)
    requires Inv(s) && s.exec == []
    ensures FiredInPass(s, now, []) == Timers(AfterBegin(s, now).exec)
  {
    var begun := AfterBegin(s, now);
    if begun.exec != [] {
      IdleFires(begun.life, 0);
    }
  }

  /** ... and merges the periodic ones stably into the timers that were not due. */
  lemma IdlePassQueue<T>(s: State<T>, now: int)
    requires Inv(s) && s.exec == [] && AfterBegin(s, now).exec != []
    ensures var begun := AfterBegin(s, now);
            StablySorted(AfterPass(s, now, []).queue, begun.queue + PutBack(begun.life, begun.exec))
  {
    IdleChecks(AfterBegin(s, now), 0);
    PassSortsStably(s, now, []);
  }

  lemma {:induction false} IdleFires<T>(s: Ledger<T>, i: nat)
    requires Sound(s) && i <= |s.exec|
    requires forall j :: i <= j < |s.exec| ==> s.info[s.exec[j]].status == WaitForExecution
    ensures Fired(s, i, []) == s.exec[i..]
    decreases |s.exec| - i
  {
    if i < |s.exec| {
      IdleFires(s, i + 1);
    }
  }

  lemma {:induction false} IdleChecks<T>(s: State<T>, i: nat)
    requires Inv(s) && i <= |s.exec|
    ensures AfterChecks(s, i, []) == s
    decreases |s.exec| - i
  {
    if i < |s.exec| {
      IdleChecks(s, i + 1);
    }
  }

  // ------------------------------------------------------------------ what was asked for

  lemma {:induction false} AtTimeMembers<T>(q: seq<Entry<T>>, e: Entry<T>)
    ensures e in AtTime(q, e.when) <==> e in q
  {
    if q != [] {
      AtTimeMembers(q[1..], e);
      assert q == [q[0]] + q[1..];
    }
  }

  lemma SortedMembers<T>(r: seq<Entry<T>>, q: seq<Entry<T>>, e: Entry<T>)
    requires StablySorted(r, q)
    ensures e in r <==> e in q
  {
    AtTimeMembers(r, e);
    AtTimeMembers(q, e);
    assert AtTime(r, e.when) == AtTime(q, e.when);
  }

  /** What is put back of one timer. */
  lemma {:induction false} PutBackMembers<T>(life: Ledger<T>, exec: seq<Entry<T>>, k: nat)
    requires k < |exec| && Repeats(life, exec[k].timer)
    ensures Entry(exec[k].timer, exec[k].when + life.info[exec[k].timer].period) in PutBack(life, exec)
  {
    if k > 0 { PutBackMembers(life, exec[1..], k - 1); }
  }

  lemma EntryIsActive<T>(s: State<T>, e: Entry<T>)
    requires Inv(s) && e in s.queue
    ensures e.timer in s.life.info && s.life.info[e.timer].status == Active && e.timer in Timers(s.queue)
  {
    var k :| 0 <= k < |s.queue| && s.queue[k] == e;
    assert Timers(s.queue)[k] == e.timer;
  }

  /** A timer of the queue that is not due stays where it is in a pass that clients leave alone;
      one that is due is run, and goes back for one period later if it has one. */
  lemma EntryInPass<T>(s: State<T>, e: Entry<T>, now: int)
    requires Inv(s) && s.exec == [] && e in s.queue
    ensures e.timer in s.life.info
    ensures e.timer in FiredInPass(s, now, []) <==> e.when <= now
    ensures var r, period := AfterPass(s, now, []), s.life.info[e.timer].period;
            if e.when > now then e in r.queue
            else if period != 0 then Entry(e.timer, e.when + period) in r.queue
            else e.timer !in Timers(r.queue)
  {
    hide Inv, AfterPass, FiredInPass, AfterBegin, StablySorted, PutBack, Repeats;
    EntryIsActive(s, e);
    DueExactly(s, now);
    IdlePassFires(s, now);
    var begun := AfterBegin(s, now);
    var k := EntryBegun(s, e, now);
    if begun.exec == [] {
      NothingBegun(s, now);
    } else {
      IdlePassQueue(s, now);
      if e.when > now {
        SortedMembers(AfterPass(s, now, []).queue, begun.queue + PutBack(begun.life, begun.exec), e);
      } else if s.life.info[e.timer].period != 0 {
        var back := Entry(e.timer, e.when + s.life.info[e.timer].period);
        PutBackMembers(begun.life, begun.exec, k);
        SortedMembers(AfterPass(s, now, []).queue, begun.queue + PutBack(begun.life, begun.exec), back);
      } else {
        SingleShotIsDone(s, e, now);
      }
    }
  }

  lemma SingleShotIsDone<T>(s: State<T>, e: Entry<T>, now: int)
    requires Inv(s) && s.exec == [] && e in s.queue && e.when <= now
    requires e.timer in s.life.info && s.life.info[e.timer].period == 0
    ensures e.timer !in Timers(AfterPass(s, now, []).queue)
  {
    hide Elapsed, Fired, Executed, Lifecycle.AfterFinish, Lifecycle.AfterChecks, Lifecycle.AfterBegin, AfterFinish;
    var k := EntryBegun(s, e, now);
    var due := Timers(s.queue)[..Elapsed(s.queue, now)];
    DueTimers(s, now);
    assert due[k] == e.timer;
    PassOutcome(s.life, due, [], k);
  }

  lemma DueTimers<T>(s: State<T>, now: int)
    requires Inv(s) && s.exec == []
    ensures var due := Timers(s.queue)[..Elapsed(s.queue, now)];
            && Timers(AfterBegin(s, now).exec) == due && Distinct(due) && AllActive(s.life, due)
            && AfterBegin(s, now).life == Lifecycle.AfterBegin(s.life, due)
  {
    hide Elapsed, Lifecycle.AfterBegin;
  }

  lemma NothingBegun<T>(s: State<T>, now: int)
    requires Inv(s) && s.exec == [] && AfterBegin(s, now).exec == []
    ensures AfterPass(s, now, []) == s && FiredInPass(s, now, []) == []
  {
    hide Inv, AfterBegin;
  }

  /** Where the entry is when the due timers have been detached. */
  lemma EntryBegun<T>(s: State<T>, e: Entry<T>, now: int) returns (k: nat)
    requires Inv(s) && s.exec == [] && e in s.queue
    ensures var begun := AfterBegin(s, now);
            if e.when <= now then
              && k < |begun.exec| && begun.exec[k] == e && e.timer in Timers(begun.exec)
              && e.timer in s.life.info && e.timer in begun.life.info
              && begun.life.info[e.timer].period == s.life.info[e.timer].period
              && begun.life.info[e.timer].status == WaitForExecution
            else
              e in begun.queue && e.timer !in Timers(begun.exec)
  {
    hide Elapsed, Sound;
    DueExactly(s, now);
    var begun := AfterBegin(s, now);
    var j :| 0 <= j < |s.queue| && s.queue[j] == e;
    assert Timers(s.queue)[j] == e.timer;
    if e.when <= now {
      k := j;
      assert Timers(begun.exec)[k] == e.timer;
      DueTimers(s, now);
      assert begun.life.exec[k] == e.timer && e.timer in Timers(s.queue)[..Elapsed(s.queue, now)];
    } else {
      k := 0;
      assert begun.queue[j - |begun.exec|] == e;
    }
  }

  /** The engine takes the timer: it is not active, or it is to be moved. */
  predicate Accepts<T>(s: State<T>, c: Command<T>) {
    c.timer in s.life.info &&
    match c
    case Activate(t, _, _, _) => s.life.info[t].status == Deactivated
    case Reschedule(t, _, _, _) => !InExec(s.life.info[t])
    case _ => false
  }

  lemma AskedEntry<T>(s: State<T>, c: Command<T>)
    requires Inv(s) && Accepts(s, c)
    ensures var r := After(s, c);
            && Entry(c.timer, c.clock + c.pause) in r.queue
            && c.timer in r.life.info && r.life.info[c.timer].period == c.period
  {
    hide Place;
    var q := if s.life.info[c.timer].status == Active then Remove(s.queue, c.timer) else s.queue;
    var e := Entry(c.timer, c.clock + c.pause);
    assert Insert(q, e)[Place(q, e.when)] == e;
  }

  /** A timer that is activated or rescheduled between passes is run by a pass that clients leave
      alone if and only if the clock has reached the time of the call and the pause; and then it
      is queued for one period later if it has one, and for nothing else. */
  lemma FiresAsAsked<T>(s: State<T>, c: Command<T>, now: int)
    requires Inv(s) && s.exec == [] && Accepts(s, c)
    ensures After(s, c).exec == []
    ensures var r, t, due := After(s, c), c.timer, c.clock + c.pause;
            && (t in FiredInPass(r, now, []) <==> now >= due)
            && var q := AfterPass(r, now, []).queue;
               && (now < due ==> Entry(t, due) in q)
               && (now >= due && c.period != 0 ==> Entry(t, due + c.period) in q)
               && (now >= due && c.period == 0 ==> t !in Timers(q))
  {
    hide Inv, After, AfterPass, FiredInPass, Timers;
    AskedEntry(s, c);
    EntryInPass(After(s, c), Entry(c.timer, c.clock + c.pause), now);
  }
}
