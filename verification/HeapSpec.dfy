/**
  What the heap engine does to its timers, on values.  A pass runs one timer at a time: it is
  taken from the heap, its action is run with the lock released, and if it is still wanted it
  goes back with its next time.
 */
module HeapSpec {
  import opened Lifecycle
  import opened Sequences
  import opened BinaryHeap

  /** `exec` holds the timer in processing, if there is one. */
  datatype State<T(==)> = State(life: Ledger<T>, heap: seq<Entry<T>>, exec: seq<Entry<T>>)

  ghost predicate Inv<T>(s: State<T>) {
    && Sound(s.life)
    && Linked(s.life, s.heap)
    && Processing(s)
  }

  ghost predicate Processing<T>(s: State<T>) {
    && |s.exec| <= 1
    && s.life.exec == (if s.exec == [] then [] else [s.exec[0].timer])
    && (s.exec != [] ==> s.exec[0].timer in s.life.info && s.life.info[s.exec[0].timer].period == s.exec[0].period)
  }

  /** Status agrees with membership: exactly the active timers are in the heap, once each. */
  ghost predicate Linked<T>(life: Ledger<T>, h: seq<Entry<T>>) {
    Members(life, multiset(Timers(h))) && PeriodsAgree(life, h)
  }

  ghost predicate Members<T>(life: Ledger<T>, ts: multiset<T>) {
    && (forall t :: t in ts ==> ts[t] == 1 && t in life.info && life.info[t].status == Active)
    && (forall t :: t in life.info && life.info[t].status == Active ==> t in ts)
  }

  ghost predicate PeriodsAgree<T>(life: Ledger<T>, h: seq<Entry<T>>) {
    forall e :: e in h ==> e.timer in life.info && life.info[e.timer].period == e.period
  }

  /** The ledgers differ at most in what they say of `t`. */
  ghost predicate SameBut<T>(a: Ledger<T>, b: Ledger<T>, t: T) {
    && (forall u :: u in a.info && u != t ==> u in b.info && b.info[u] == a.info[u])
    && (forall u :: u in b.info && u != t ==> u in a.info)
  }

  /** The 1-based position of a timer in the heap, 0 if it is not there. */
  function PositionOf<T>(h: seq<Entry<T>>, t: T): (p: nat)
    ensures p <= |h|
    ensures p > 0 ==> h[p - 1].timer == t
    ensures p > 0 <==> t in Timers(h)
  {
    if h == [] then 0
    else if h[|h| - 1].timer == t then assert Timers(h)[|h| - 1] == t; |h|
    else
      assert Timers(h) == Timers(h[..|h| - 1]) + [h[|h| - 1].timer];
      PositionOf(h[..|h| - 1], t)
  }

  lemma MembersAdd<T>(a: Ledger<T>, b: Ledger<T>, ts: multiset<T>, t: T)
    requires Members(a, ts) && SameBut(a, b, t)
    requires t in a.info ==> a.info[t].status != Active
    requires t in b.info && b.info[t].status == Active
    ensures Members(b, ts + multiset{t})
  {
  }

  lemma MembersRemove<T>(a: Ledger<T>, b: Ledger<T>, ts: multiset<T>, t: T)
    requires Members(a, ts + multiset{t}) && SameBut(a, b, t)
    requires t in b.info ==> b.info[t].status != Active
    ensures Members(b, ts) && t !in ts
  {
    assert (ts + multiset{t})[t] == ts[t] + 1;
    assert forall u :: u in ts ==> u in ts + multiset{t};
    forall u | u in b.info && b.info[u].status == Active
      ensures u in ts
    {
      assert u in ts + multiset{t};
    }
  }

  lemma LinkedAdd<T>(a: Ledger<T>, b: Ledger<T>, h: seq<Entry<T>>, e: Entry<T>)
    requires Linked(a, h) && SameBut(a, b, e.timer)
    requires e.timer in a.info ==> a.info[e.timer].status != Active
    requires e.timer in b.info && b.info[e.timer].status == Active && b.info[e.timer].period == e.period
    ensures Linked(b, Add(h, e))
  {
    hide Add, Timers;
    MembersAdd(a, b, multiset(Timers(h)), e.timer);
    forall f | f in Add(h, e)
      ensures f.timer in b.info && b.info[f.timer].period == f.period
    {
      assert f in multiset(Add(h, e));
      if f != e { InTimers(h, f); }
    }
  }

  lemma InTimers<T>(h: seq<Entry<T>>, e: Entry<T>)
    requires e in h
    ensures e.timer in Timers(h)
  {
    var i :| 0 <= i < |h| && h[i] == e;
    assert Timers(h)[i] == e.timer;
  }

  lemma LinkedRemove<T>(a: Ledger<T>, b: Ledger<T>, h: seq<Entry<T>>, p: nat)
    requires 1 <= p <= |h| && Linked(a, h) && SameBut(a, b, h[p - 1].timer)
    requires h[p - 1].timer in b.info ==> b.info[h[p - 1].timer].status != Active
    ensures Linked(b, Remove(h, p))
  {
    hide Remove, Timers;
    var r, t := Remove(h, p), h[p - 1].timer;
    MembersRemove(a, b, multiset(Timers(r)), t);
    forall f | f in r
      ensures f.timer in b.info && b.info[f.timer].period == f.period
    {
      assert f in multiset(r) && f in multiset(h);
      InTimers(r, f);
    }
  }

  /** The entries of the heap belong to active timers. */
  lemma EntryIsActive<T>(life: Ledger<T>, h: seq<Entry<T>>, p: nat)
    requires 1 <= p <= |h| && Linked(life, h)
    ensures var t := h[p - 1].timer;
            t in life.info && life.info[t].status == Active && life.info[t].period == h[p - 1].period
  {
    InTimers(h, h[p - 1]);
  }

  lemma LinkedSame<T>(a: Ledger<T>, b: Ledger<T>, h: seq<Entry<T>>, t: T)
    requires Linked(a, h) && SameBut(a, b, t)
    requires t in a.info && a.info[t].status == Active ==>
      t in b.info && b.info[t].status == Active && b.info[t].period == a.info[t].period
    requires t in b.info && b.info[t].status == Active ==> t in a.info && a.info[t].status == Active
    ensures Linked(b, h)
  {
    forall f | f in h
      ensures f.timer in b.info && b.info[f.timer].period == f.period
    {
      InTimers(h, f);
    }
  }

  // ------------------------------------------------------------------ calls

  lemma ActiveIsPlaced<T>(life: Ledger<T>, h: seq<Entry<T>>, t: T)
    requires Linked(life, h) && t in life.info && life.info[t].status == Active
    ensures PositionOf(h, t) > 0
  {
    hide PositionOf;
    assert t in multiset(Timers(h));
  }

  /** The entry joins the heap. */
  function Pushed<T>(s: State<T>, life: Ledger<T>, e: Entry<T>): (r: State<T>)
    requires Linked(s.life, s.heap) && SameBut(s.life, life, e.timer)
    requires e.timer in s.life.info ==> s.life.info[e.timer].status != Active
    requires e.timer in life.info && life.info[e.timer].status == Active && life.info[e.timer].period == e.period
    requires Sound(life) && Processing(s.(life := life))
    ensures Inv(r) && r == State(life, Add(s.heap, e), s.exec)
  {
    LinkedAdd(s.life, life, s.heap, e);
    State(life, Add(s.heap, e), s.exec)
  }

  /** The entry of a timer leaves the heap. */
  function Pulled<T>(s: State<T>, life: Ledger<T>, t: T): (r: State<T>)
    requires Linked(s.life, s.heap) && SameBut(s.life, life, t)
    requires t in s.life.info && s.life.info[t].status == Active
    requires t in life.info ==> life.info[t].status != Active
    requires Sound(life) && Processing(s.(life := life))
    ensures PositionOf(s.heap, t) > 0
    ensures Inv(r) && r == State(life, Remove(s.heap, PositionOf(s.heap, t)), s.exec)
  {
    var p := PositionOf(s.heap, t);
    LinkedRemove(s.life, life, s.heap, p);
    State(life, Remove(s.heap, p), s.exec)
  }

  lemma LinkedMove<T>(a: Ledger<T>, b: Ledger<T>, h: seq<Entry<T>>, e: Entry<T>)
    requires Linked(a, h) && SameBut(a, b, e.timer)
    requires e.timer in a.info && a.info[e.timer].status == Active
    requires e.timer in b.info && b.info[e.timer].status == Active && b.info[e.timer].period == e.period
    ensures PositionOf(h, e.timer) > 0
    ensures Linked(b, Add(Remove(h, PositionOf(h, e.timer)), e))
  {
    hide PositionOf, Add, Remove, Linked;
    ActiveIsPlaced(a, h, e.timer);
    var p := PositionOf(h, e.timer);
    var without := a.(info := a.info - {e.timer});
    LinkedRemove(a, without, h, p);
    LinkedAdd(without, b, Remove(h, p), e);
  }

  /** The entry of a timer is exchanged for another one. */
  function Moved<T>(s: State<T>, life: Ledger<T>, e: Entry<T>): State<T>
    requires PositionOf(s.heap, e.timer) > 0
  {
    State(life, Add(Remove(s.heap, PositionOf(s.heap, e.timer)), e), s.exec)
  }

  lemma MovedKeepsInv<T>(s: State<T>, life: Ledger<T>, e: Entry<T>)
    requires Linked(s.life, s.heap) && SameBut(s.life, life, e.timer)
    requires e.timer in s.life.info && s.life.info[e.timer].status == Active
    requires e.timer in life.info && life.info[e.timer].status == Active && life.info[e.timer].period == e.period
    requires Sound(life) && Processing(s.(life := life))
    ensures PositionOf(s.heap, e.timer) > 0 && Inv(Moved(s, life, e))
  {
    hide PositionOf, Add, Remove, Linked, SameBut, Sound;
    LinkedMove(s.life, life, s.heap, e);
  }

  /** The heap stays as it is. */
  function Kept<T>(s: State<T>, life: Ledger<T>, t: T): (r: State<T>)
    requires Linked(s.life, s.heap) && SameBut(s.life, life, t)
    requires t in s.life.info && s.life.info[t].status == Active ==>
      t in life.info && life.info[t].status == Active && life.info[t].period == s.life.info[t].period
    requires t in life.info && life.info[t].status == Active ==> t in s.life.info && s.life.info[t].status == Active
    requires Sound(life) && Processing(s.(life := life))
    ensures Inv(r) && r == State(life, s.heap, s.exec)
  {
    LinkedSame(s.life, life, s.heap, t);
    State(life, s.heap, s.exec)
  }

  /** A call changes the ledger for its own timer only, and nothing of the one in processing. */
  lemma CallChanges<T>(s: State<T>, c: Command<T>)
    requires Sound(s.life) && Processing(s) && c.timer in s.life.info
    ensures var life := Lifecycle.After(s.life, c);
            && SameBut(s.life, life, c.timer) && Processing(s.(life := life)) && Sound(life)
            && (c.Hold? || c.Drop? ==>
                  (c.timer in life.info ==> life.info[c.timer].status == s.life.info[c.timer].status
                                            && life.info[c.timer].period == s.life.info[c.timer].period)
                  && (s.life.info[c.timer].status == Active ==> c.timer in life.info))
  {
    if s.exec != [] {
      OneCallIsStable(s.life, c, s.exec[0].timer);
    }
    CallChangesOne(s.life, c);
  }

  lemma CallChangesOne<T>(s: Ledger<T>, c: Command<T>)
    requires Sound(s) && c.timer in s.info
    ensures var r := Lifecycle.After(s, c);
            && SameBut(s, r, c.timer)
            && (c.Hold? || c.Drop? ==>
                  (c.timer in r.info ==> r.info[c.timer].status == s.info[c.timer].status
                                         && r.info[c.timer].period == s.info[c.timer].period)
                  && (s.info[c.timer].status == Active ==> c.timer in r.info))
  {
  }

  lemma InvParts<T>(s: State<T>)
    requires Inv(s)
    ensures Sound(s.life) && Linked(s.life, s.heap) && Processing(s)
  {
  }

  function AfterAllocate<T>(s: State<T>, t: T): (r: State<T>)
    requires Inv(s) && t !in s.life.info
    ensures Inv(r)
  {
    Kept(s, Lifecycle.AfterAllocate(s.life, t), t)
  }

  function AfterActivate<T>(s: State<T>, t: T, when: int, period: int): (r: State<T>)
    requires Inv(s) && t in s.life.info
    ensures Inv(r) && r.exec == s.exec && r.life == Lifecycle.AfterActivate(s.life, t, period)
  {
    hide Linked, SameBut, Processing;
    InvParts(s);
    CallChanges(s, Activate(t, when, 0, period));
    if s.life.info[t].status != Deactivated then s
    else Pushed(s, Lifecycle.AfterActivate(s.life, t, period), Entry(t, when, period))
  }

  function AfterDeactivate<T>(s: State<T>, t: T): (r: State<T>)
    requires Inv(s) && t in s.life.info
    ensures Inv(r) && r.exec == s.exec && r.life == Lifecycle.AfterDeactivate(s.life, t)
  {
    hide Linked, SameBut, Processing;
    InvParts(s);
    CallChanges(s, Deactivate(t));
    var life := Lifecycle.AfterDeactivate(s.life, t);
    if s.life.info[t].status == Active then Pulled(s, life, t)
    else
      Kept(s, life, t)
  }

  function AfterReschedule<T>(s: State<T>, t: T, when: int, period: int): (r: State<T>)
    requires Inv(s) && t in s.life.info
    ensures Inv(r) && r.exec == s.exec && r.life == Lifecycle.AfterReschedule(s.life, t, period)
  {
    hide Linked, SameBut, Processing;
    InvParts(s);
    CallChanges(s, Reschedule(t, when, 0, period));
    match s.life.info[t].status
    case Deactivated => AfterActivate(s, t, when, period)
    case Active =>
      var life := Lifecycle.AfterReschedule(s.life, t, period);
      MovedKeepsInv(s, life, Entry(t, when, period));
      Moved(s, life, Entry(t, when, period))
    case _ => s
  }

  /** `activate` and `reschedule` answer whether the timer is now the head of the heap. */
  function ActivateOutcome<T>(s: State<T>, t: T, when: int, period: int): Outcome
    requires Inv(s) && t in s.life.info
  {
    if s.life.info[t].status != Deactivated then Failed(NotDeactivated)
    else Done(IsHead(AfterActivate(s, t, when, period), t))
  }

  function RescheduleOutcome<T>(s: State<T>, t: T, when: int, period: int): Outcome
    requires Inv(s) && t in s.life.info
  {
    if InExec(s.life.info[t]) then Failed(InProcessing)
    else Done(IsHead(AfterReschedule(s, t, when, period), t))
  }

  /** The three cases of a rescheduling. */
  lemma RescheduleCases<T>(s: State<T>, t: T, when: int, period: int)
    requires Inv(s) && t in s.life.info
    ensures var r, outcome := AfterReschedule(s, t, when, period), RescheduleOutcome(s, t, when, period);
            match s.life.info[t].status
            case Deactivated =>
              r == AfterActivate(s, t, when, period) && outcome == ActivateOutcome(s, t, when, period)
            case Active => outcome == Done(IsHead(r, t))
            case _ => r == s && outcome == Failed(InProcessing)
  {
    hide Inv, AfterActivate;
  }

  predicate IsHead<T>(s: State<T>, t: T) {
    s.heap != [] && s.heap[0].timer == t
  }

  /** A call made by a client.  No client activates the timer in processing after it was
      deactivated (see SelfActivationBreaksTheHeap): such a call is left out here. */
  function After<T>(s: State<T>, c: Command<T>): (r: State<T>)
    requires Inv(s)
    ensures Inv(r) && r.exec == s.exec && r.life == Lifecycle.After(s.life, c)
  {
    if c.timer !in s.life.info then s
    else
      hide Linked, SameBut, Processing;
      InvParts(s);
      CallChanges(s, c);
      match c
      case Activate(t, clock, pause, period) => AfterActivate(s, t, clock + pause, period)
      case Reschedule(t, clock, pause, period) => AfterReschedule(s, t, clock + pause, period)
      case Deactivate(t) => AfterDeactivate(s, t)
      case Hold(t) => Kept(s, AfterHold(s.life, t), t)
      case Drop(t) => Kept(s, AfterDrop(s.life, t), t)
  }

  /** What the call gives back. */
  function Answer<T>(s: State<T>, c: Command<T>): Outcome
    requires Inv(s) && c.timer in s.life.info
  {
    match c
    case Activate(t, clock, pause, period) => ActivateOutcome(s, t, clock + pause, period)
    case Reschedule(t, clock, pause, period) => RescheduleOutcome(s, t, clock + pause, period)
    case _ => Done(false)
  }

  function AfterAll<T>(s: State<T>, cs: seq<Command<T>>): (r: State<T>)
    requires Inv(s)
    ensures Inv(r) && r.exec == s.exec && r.life == Lifecycle.AfterAll(s.life, cs)
    decreases |cs|
  {
    if |cs| == 0 then s else AfterAll(After(s, cs[0]), cs[1..])
  }

  // ------------------------------------------------------------------ one turn of the loop

  /** The head of the heap is taken out and goes into processing. */
  function AfterBegin<T>(s: State<T>): (r: State<T>)
    requires Inv(s) && s.exec == [] && s.heap != []
    ensures Inv(r) && r.exec == [s.heap[0]]
  {
    var e := s.heap[0];
    EntryIsActive(s.life, s.heap, 1);
    var life := Lifecycle.AfterBegin(s.life, [e.timer]);
    LinkedRemove(s.life, life, s.heap, 1);
    State(life, Remove(s.heap, 1), [e])
  }

  lemma BeginBooks<T>(s: State<T>)
    requires Inv(s) && s.exec == [] && s.heap != []
    ensures var r, t := AfterBegin(s), s.heap[0].timer;
            t in s.life.info && r.life.info == Marked(s.life.info, [t]) && r.life.exec == [t]
  {
    hide Remove, Linked;
    EntryIsActive(s.life, s.heap, 1);
  }

  lemma FinishChanges<T>(s: State<T>)
    requires Inv(s) && s.exec != []
    ensures s.life.exec != []
    ensures var life, e := Lifecycle.AfterFinishOne(s.life), s.exec[0];
            && SameBut(s.life, life, e.timer) && life.exec == [] && (Repeats(s) ==> e.timer in life.info)
            && (if Repeats(s) then life.info[e.timer].status == Active && life.info[e.timer].period == e.period
                else e.timer in life.info ==> life.info[e.timer].status == Deactivated
                                              && life.info[e.timer].period == e.period)
    ensures s.exec[0].timer in s.life.info && s.life.info[s.exec[0].timer].status != Active
  {
    hide Linked;
  }

  /** After its action the timer is deactivated and released, or put back. */
  function AfterFinish<T>(s: State<T>): (r: State<T>)
    requires Inv(s) && s.exec != []
    ensures Inv(r) && r.exec == [] && r.life == Lifecycle.AfterFinishOne(s.life)
  {
    hide Linked, SameBut;
    InvParts(s);
    FinishChanges(s);
    var e := s.exec[0];
    var life := Lifecycle.AfterFinishOne(s.life);
    if Repeats(s) then Pushed(s.(exec := []), life, Entry(e.timer, e.when + e.period, e.period))
    else Kept(s.(exec := []), life, e.timer)
  }

  /** The timer in processing is periodic and nobody deactivated it. */
  predicate Repeats<T>(s: State<T>)
    requires s.exec != []
  {
    var e := s.exec[0];
    e.timer in s.life.info && s.life.info[e.timer].status == WaitForExecution && e.period != 0
  }

  function AfterTurn<T>(s: State<T>, cs: seq<Command<T>>): (r: State<T>)
    requires Inv(s) && s.exec == [] && s.heap != []
    ensures Inv(r) && r.exec == []
  {
    AfterFinish(AfterAll(AfterBegin(s), cs))
  }

  // ------------------------------------------------------------------ clearing

  lemma ActiveOnesAreInHeap<T>(s: State<T>)
    requires Inv(s) && s.exec == []
    ensures AllActive(s.life, Timers(s.heap))
    ensures forall t :: t in s.life.info && s.life.info[t].status == Active ==> t in Timers(s.heap)
  {
    var ts := Timers(s.heap);
    assert forall t :: t in ts <==> t in multiset(ts);
  }

  /** `clear_all`, called when no pass is under way. */
  function AfterClear<T>(s: State<T>): (r: State<T>)
    requires Inv(s) && s.exec == []
    ensures Inv(r) && r.exec == [] && r.heap == []
    ensures forall t :: t in r.life.info ==> r.life.info[t].status == Deactivated
  {
    ActiveOnesAreInHeap(s);
    assert forall t :: t in s.life.info ==> !InExec(s.life.info[t]);
    State(Lifecycle.AfterClear(s.life, Timers(s.heap)), [], [])
  }

  // ------------------------------------------------------------------ the steps, written out

  lemma PositionIffActive<T>(s: State<T>, t: T)
    requires Inv(s)
    ensures t in Timers(s.heap) <==> t in s.life.info && s.life.info[t].status == Active
  {
    assert t in Timers(s.heap) <==> t in multiset(Timers(s.heap));
  }

  /** A timer is in the heap once, so its position can be read off anywhere it is found. */
  lemma PositionIs<T>(life: Ledger<T>, h: seq<Entry<T>>, p: nat)
    requires 1 <= p <= |h| && Linked(life, h)
    ensures PositionOf(h, h[p - 1].timer) == p
  {
    hide PositionOf, Timers, PeriodsAgree;
    var ts, q := Timers(h), PositionOf(h, h[p - 1].timer);
    assert ts[p - 1] == h[p - 1].timer && ts[p - 1] in ts;
    assert ts[p - 1] in multiset(ts) && multiset(ts)[ts[p - 1]] == 1;
    if q < p {
      CountTwice(ts, q - 1, p - 1);
    } else if p < q {
      CountTwice(ts, p - 1, q - 1);
    }
  }

  lemma AllocateEquation<T>(s: State<T>, t: T)
    requires Inv(s) && Counted(s.life) && t !in s.life.info
    ensures AfterAllocate(s, t) == s.(life := s.life.(info := s.life.info[t := Info(Deactivated, 0, 1, 1)]))
    ensures Counted(AfterAllocate(s, t).life)
  {
    hide Linked, Processing;
    AllocateCounts(s.life, t);
  }

  lemma ActivateEquation<T>(s: State<T>, t: T, when: int, period: int)
    requires Inv(s) && Counted(s.life) && t in s.life.info && s.life.info[t].status == Deactivated
    ensures var i, r := s.life.info[t], AfterActivate(s, t, when, period);
            && r.life.info == s.life.info[t := Info(Active, period, i.refs + 1, i.holders)]
            && r.life.single == s.life.single + (if period == 0 then 1 else 0)
            && r.life.periodic == s.life.periodic + (if period == 0 then 0 else 1)
            && r.life.exec == s.life.exec && r.exec == s.exec
            && r.heap == Add(s.heap, Entry(t, when, period))
            && t !in Timers(s.heap)
    ensures Counted(AfterActivate(s, t, when, period).life)
  {
    hide Processing, Add;
    CallCounts(s.life, Activate(t, when, 0, period));
    PositionIffActive(s, t);
  }

  lemma DeactivateEquation<T>(s: State<T>, t: T)
    requires Inv(s) && Counted(s.life) && t in s.life.info
    ensures var i, r := s.life.info[t], AfterDeactivate(s, t);
            match i.status
            case Active =>
              var p := PositionOf(s.heap, t);
              && p > 0 && i.refs > 0
              && r.life.info == Put(s.life.info, t, Info(Deactivated, i.period, i.refs - 1, i.holders))
              && r.life.single == s.life.single - (if i.period == 0 then 1 else 0)
              && r.life.periodic == s.life.periodic - (if i.period == 0 then 0 else 1)
              && r.life.exec == s.life.exec && r.exec == s.exec && r.heap == Remove(s.heap, p)
              && (if i.period == 0 then s.life.single > 0 else s.life.periodic > 0)
            case WaitForExecution =>
              r == s.(life := s.life.(info :=
                        Put(s.life.info, t, Info(WaitForDeactivation, i.period, i.refs, i.holders))))
            case _ => r == s
    ensures Counted(AfterDeactivate(s, t).life)
  {
    hide Processing, Remove, Linked;
    PositionIffActive(s, t);
    CallCounts(s.life, Deactivate(t));
    if s.life.info[t].status == Active {
      OwnedIsCounted(s.life, t);
    }
  }

  lemma RescheduleEquation<T>(s: State<T>, t: T, when: int, period: int)
    requires Inv(s) && Counted(s.life) && t in s.life.info && s.life.info[t].status == Active
    ensures var i, r, p := s.life.info[t], AfterReschedule(s, t, when, period), PositionOf(s.heap, t);
            && p > 0 && i.refs > 0
            && r.life.info == s.life.info[t := Info(Active, period, i.refs, i.holders)]
            && r.life.single == s.life.single - (if i.period == 0 then 1 else 0) + (if period == 0 then 1 else 0)
            && r.life.periodic == s.life.periodic - (if i.period == 0 then 0 else 1) + (if period == 0 then 0 else 1)
            && r.life.exec == s.life.exec && r.exec == s.exec
            && r.heap == Add(Remove(s.heap, p), Entry(t, when, period))
            && (if i.period == 0 then s.life.single > 0 else s.life.periodic > 0)
    ensures Counted(AfterReschedule(s, t, when, period).life)
  {
    hide Processing, Remove, Add, Linked;
    PositionIffActive(s, t);
    CallCounts(s.life, Reschedule(t, when, 0, period));
    OwnedIsCounted(s.life, t);
  }

  lemma CallKeepsCount<T>(s: State<T>, c: Command<T>)
    requires Inv(s) && Counted(s.life)
    ensures Counted(After(s, c).life)
  {
    hide Sound, Counted, Linked, Processing;
    CallCounts(s.life, c);
  }

  lemma HoldEquation<T>(s: State<T>, t: T)
    requires Inv(s) && t in s.life.info
    ensures var i := s.life.info[t];
            && After(s, Hold(t)) == s.(life := s.life.(info :=
                Put(s.life.info, t, Info(i.status, i.period, i.refs + 1, i.holders + 1))))
            && i.refs > 0
            && (i.holders > 0 ==> After(s, Drop(t)) == s.(life := s.life.(info :=
                Put(s.life.info, t, Info(i.status, i.period, i.refs - 1, i.holders - 1)))))
            && (i.holders == 0 ==> After(s, Drop(t)) == s)
  {
    hide Inv, Linked, Processing, Sound, SameBut;
    HeldOnce(s, t);
  }

  lemma HeldOnce<T>(s: State<T>, t: T)
    requires Inv(s) && t in s.life.info
    ensures s.life.info[t].refs > 0 && s.life.info[t].holders <= s.life.info[t].refs
  {
    hide Linked, Processing;
    assert Balanced(s.life.info[t]);
  }

  lemma BeginEquation<T>(s: State<T>)
    requires Inv(s) && Counted(s.life) && s.exec == [] && s.heap != []
    ensures var r, t := AfterBegin(s), s.heap[0].timer;
            && t in s.life.info && r.exec == [s.heap[0]] && r.life.exec == [t] && r.heap == Remove(s.heap, 1)
            && r.life.single == s.life.single && r.life.periodic == s.life.periodic
            && (var i := s.life.info[t];
                r.life.info == s.life.info[t := Info(WaitForExecution, i.period, i.refs, i.holders)])
    ensures Counted(AfterBegin(s).life)
    ensures PositionOf(s.heap, s.heap[0].timer) == 1
  {
    hide Remove, Timers, Linked, Processing, SameBut;
    InvParts(s);
    EntryIsActive(s.life, s.heap, 1);
    BeginCounts(s.life, [s.heap[0].timer]);
    PositionIs(s.life, s.heap, 1);
  }

  lemma FinishEquation<T>(s: State<T>)
    requires Inv(s) && Counted(s.life) && s.exec != []
    ensures s.exec[0].timer in s.life.info
    ensures var r, e, i := AfterFinish(s), s.exec[0], s.life.info[s.exec[0].timer];
            && r.life.exec == [] && r.exec == [] && i.refs > 0 && i.period == e.period && e.timer !in Timers(s.heap)
            && (if i.status == WaitForExecution && i.period != 0 then
                  && r.life.info == s.life.info[e.timer := Info(Active, i.period, i.refs, i.holders)]
                  && r.life.single == s.life.single && r.life.periodic == s.life.periodic
                  && r.heap == Add(s.heap, Entry(e.timer, e.when + e.period, e.period))
                else
                  && r.life.info == Put(s.life.info, e.timer, Info(Deactivated, i.period, i.refs - 1, i.holders))
                  && r.life.single == s.life.single - (if i.period == 0 then 1 else 0)
                  && r.life.periodic == s.life.periodic - (if i.period == 0 then 0 else 1)
                  && r.heap == s.heap)
            && (if i.period == 0 then s.life.single > 0 else s.life.periodic > 0)
    ensures Counted(AfterFinish(s).life)
  {
    hide Sound, Counted, Put, Add, Lifecycle.AfterFinishOne;
    Lifecycle.FinishOneEquation(s.life);
    PositionIffActive(s, s.exec[0].timer);
  }

  lemma ClearEquation<T>(s: State<T>)
    requires Inv(s) && s.exec == []
    ensures AfterClear(s) == State(Ledger(Cleared(s.life.info, Timers(s.heap)), [], 0, 0), [], [])
    ensures Counted(AfterClear(s).life)
  {
    ActiveOnesAreInHeap(s);
    ClearCounts(s.life, Timers(s.heap));
  }

  // ------------------------------------------------------------------ what clients must not do

  /** All entries of a timer when its time changes in place. */
  function Retimed<T>(h: seq<Entry<T>>, t: T, when: int): (r: seq<Entry<T>>)
    ensures Timers(r) == Timers(h)
  {
    var r := seq(|h|, i requires 0 <= i < |h| => if h[i].timer == t then Entry(t, when, h[i].period) else h[i]);
    assert forall i :: 0 <= i < |h| ==> Timers(r)[i] == Timers(h)[i];
    r
  }

  /** The heap after the timer in processing was deactivated and then activated by its own
      action, and its turn has ended: HeapEngine.SelfActivation.  The activation is not refused,
      as the timer has no position, and links the timer; the end of the turn then finds it
      active, and if it is periodic changes its time, in place, and links it again. */
  function SelfActivated<T>(h: seq<Entry<T>>, t: T, when: int, period: int): seq<Entry<T>> {
    var linked := Add(h, Entry(t, when, period));
    if period == 0 then linked else Add(Retimed(linked, t, when + period), Entry(t, when + period, period))
  }

  /** No ledger agrees with that heap: a periodic timer is in it twice, and a single-shot timer
      is in it although it was released. */
  lemma SelfActivationBreaksTheHeap<T>(h: seq<Entry<T>>, life: Ledger<T>, t: T, when: int, period: int)
    requires period == 0 && t in life.info ==> life.info[t].status == Deactivated
    ensures !Linked(life, SelfActivated(h, t, when, period))
  {
    hide Add, Retimed;
    var ts := multiset(Timers(SelfActivated(h, t, when, period)));
    assert t in ts && (period != 0 ==> ts[t] >= 2);
  }
}
