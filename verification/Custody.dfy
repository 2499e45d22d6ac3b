/**
  Smart pointers and an engine together: whatever is done with either of them, each reference
  of a timer belongs to a live smart pointer or to the engine.  `Together` says so; every
  operation keeps it, and so does any run of operations.
 */
module Custody {
  import opened Lifecycle
  import opened Sequences
  import opened TimerObject
  import opened Holders
  import ListEngine
  import ListSpec
  import WheelEngine
  import WheelSpec
  import WheelClock
  import HeapEngine
  import HeapSpec
  import HeapPass

  datatype Engine =
    | ByList(list: ListEngine.ListEngine)
    | ByWheel(wheel: WheelEngine.WheelEngine)
    | ByHeap(heap: HeapEngine.HeapEngine)
  {
    ghost function Object(): object {
      match this
      case ByList(l) => l
      case ByWheel(w) => w
      case ByHeap(p) => p
    }

    /** Every timer that the engine has allocated, whether deleted meanwhile or not. */
    ghost function Timers(): set<Timer>
      reads Object()
    {
      match this
      case ByList(l) => l.timers
      case ByWheel(w) => w.timers
      case ByHeap(p) => p.timers
    }

    ghost function Life(): Ledger<Timer>
      reads Object()
    {
      match this
      case ByList(l) => l.state.life
      case ByWheel(w) => w.state.life
      case ByHeap(p) => p.state.life
    }

    /** What the engine can change. */
    ghost function Objects(): set<object>
      reads Object()
    {
      Timers() +
      match this
      case ByList(l) => {l, l.list, l.common}
      case ByWheel(w) => {w, w.common} + set x | x in w.wheel
      case ByHeap(p) => {p, p.common}
    }

    ghost predicate Valid()
      reads *
    {
      match this
      case ByList(l) => l.Valid()
      case ByWheel(w) => w.Valid()
      case ByHeap(p) => p.Valid()
    }

    /** No pass is under way. */
    ghost predicate Idle()
      reads *
    {
      match this
      case ByList(l) => l.exec == []
      case ByWheel(w) => w.exec == []
      case ByHeap(p) => p.processing == null
    }

    /** The timer is in the list, in a slot of the wheel or in the heap, or a pass is at it. */
    ghost predicate Has(t: Timer)
      reads *
    {
      match this
      case ByList(l) => t in l.list.nodes || t in l.exec
      case ByWheel(w) => (exists i :: 0 <= i < |w.wheel| && t in w.wheel[i].nodes) || t in w.exec
      case ByHeap(p) => t in p.heap || t == p.processing
    }
  }

  // ------------------------------------------------------------------ whose references they are

  /** The references of each timer are one for each live smart pointer to it and one more while
      the engine has it, at any time, also while actions are run.  So no timer is deleted that
      the engine has or that a live smart pointer refers to. */
  lemma References(e: Engine, r: Registry, t: Timer)
    requires e.Valid() && r.Accounts(e.Life().info) && t in e.Timers()
    ensures t.references > 0 ==> t.references == |r.PointingTo(t)| + if e.Has(t) then 1 else 0
    ensures t.references == 0 ==> !e.Has(t) && r.PointingTo(t) == {}
  {
    match e
    case ByList(l) => ListReferences(l, t);
    case ByWheel(w) => WheelReferences(w, t);
    case ByHeap(p) => HeapReferences(p, t);
  }

  /** This, for all timers that were ever made. */
  ghost predicate Conserved(e: Engine, r: Registry)
    reads *
  {
    forall t :: t in e.Timers() ==>
      if t.references > 0 then t.references == |r.PointingTo(t)| + if e.Has(t) then 1 else 0
      else !e.Has(t) && r.PointingTo(t) == {}
  }

  lemma AllReferences(e: Engine, r: Registry)
    requires Together(e, r)
    ensures Conserved(e, r)
  {
    hide e.Has, Registry.Accounts;
    hide ListEngine.ListEngine.Valid, WheelEngine.WheelEngine.Valid, HeapEngine.HeapEngine.Valid;
    forall t | t in e.Timers()
      ensures if t.references > 0 then t.references == |r.PointingTo(t)| + if e.Has(t) then 1 else 0
              else !e.Has(t) && r.PointingTo(t) == {}
    {
      References(e, r, t);
    }
  }

  lemma ListReferences(l: ListEngine.ListEngine, t: Timer)
    requires l.Valid() && t in l.timers
    ensures t in l.state.life.info <==> t.references > 0
    ensures t.references > 0 ==> l.state.life.info[t].holders == t.holders
                                 && t.references == t.holders + if ByList(l).Has(t) then 1 else 0
    ensures t.references == 0 ==> !ByList(l).Has(t)
  {
    hide Distinct, ListSpec.Linked, ListSpec.Sorted, Forward, Backward, ListEngine.EntriesAgree;
    l.Membership();
    if t.references > 0 {
      assert Balanced(l.state.life.info[t]);
    }
  }

  lemma WheelReferences(w: WheelEngine.WheelEngine, t: Timer)
    requires w.Valid() && t in w.timers
    ensures t in w.state.life.info <==> t.references > 0
    ensures t.references > 0 ==> w.state.life.info[t].holders == t.holders
                                 && t.references == t.holders + if ByWheel(w).Has(t) then 1 else 0
    ensures t.references == 0 ==> !ByWheel(w).Has(t)
  {
    if t.references > 0 {
      w.Placement(t);
      assert t.status == Active ==> t in w.wheel[t.position].nodes;
    }
    forall i | 0 <= i < |w.wheel| && t in w.wheel[i].nodes
      ensures t.references > 0 && t.status == Active
    {
      assert t in w.state.slots[i];
    }
  }

  lemma HeapReferences(p: HeapEngine.HeapEngine, t: Timer)
    requires p.Valid() && t in p.timers
    ensures t in p.state.life.info <==> t.references > 0
    ensures t.references > 0 ==> p.state.life.info[t].holders == t.holders
                                 && t.references == t.holders + if ByHeap(p).Has(t) then 1 else 0
    ensures t.references == 0 ==> !ByHeap(p).Has(t)
  {
    if t.references > 0 {
      p.Placement(t);
    }
  }

  // ------------------------------------------------------------------ what every operation keeps

  ghost predicate Together(e: Engine, r: Registry)
    reads *
  {
    e.Valid() && e.Idle() && r.Accounts(e.Life().info)
  }

  /** Engine and smart pointers are still together, and no timer that was deleted is back. */
  twostate predicate Kept(e: Engine, r: Registry)
    reads *
  {
    && Together(e, r)
    && e.Timers() == old(e.Timers()) && e.Objects() == old(e.Objects())
    && OnlyDeletes(old(e.Life().info), e.Life().info)
  }

  /** The books say of every timer whether it has been deleted, and its counts. */
  lemma Books(e: Engine, r: Registry, t: Timer)
    requires Together(e, r)
    ensures t in e.Life().info <==> t in e.Timers() && t.references > 0
    ensures e.Object() in e.Objects() && e.Timers() <= e.Objects()
  {
  }

  lemma SoundLife(e: Engine, r: Registry)
    requires Together(e, r)
    ensures e.Valid() && Sound(e.Life())
  {
  }

  /** The scripts are about timers of this engine only. */
  ghost predicate Nameable(scripts: seq<seq<seq<Command<Timer>>>>, timers: set<Timer>) {
    forall i, j, c :: 0 <= i < |scripts| && 0 <= j < |scripts[i]| && c in scripts[i][j] ==> c.timer in timers
  }

  /** There is one more timer, to which `h` refers. */
  twostate predicate Grown(e: Engine, r: Registry, new h: Holder)
    reads *
  {
    && Together(e, r) && h.timer != null
    && e.Timers() == old(e.Timers()) + {h.timer} && e.Objects() == old(e.Objects()) + {h.timer}
    && h.timer !in old(e.Timers()) && h.timer !in old(e.Life().info)
    && e.Life().info == old(e.Life().info)[h.timer := Info(Deactivated, 0, 1, 1)]
  }

  // ------------------------------------------------------------------ each engine

  method TakeInList(l: ListEngine.ListEngine, h: Holder, t: Timer, r: Registry)
    requires Together(ByList(l), r) && h in r.live && h.timer == null && t in l.state.life.info
    modifies l, h, t`references, t`holders
    ensures Kept(ByList(l), r) && h.timer == t
    ensures l.state.life == Lifecycle.After(old(l.state.life), Hold(t))
  {
    hide Registry.Accounts, Lifecycle.After;
    hide ListEngine.ListEngine.Valid, WheelEngine.WheelEngine.Valid, HeapEngine.HeapEngine.Valid;
    hide ListSpec.Inv, WheelSpec.Inv, HeapSpec.Inv, ListSpec.After, WheelSpec.After, HeapSpec.After;
    SoundLife(ByList(l), r);
    Books(ByList(l), r, t);
    OneCallOnlyDeletes(l.state.life, Hold(t));
    l.TakeObject(h, t, r);
  }

  method DismissInList(l: ListEngine.ListEngine, h: Holder, r: Registry)
    requires Together(ByList(l), r) && h in r.live && h.timer != null
    modifies l, h, h.timer`references, h.timer`holders
    ensures Kept(ByList(l), r) && h.timer == null
    ensures l.state.life == Lifecycle.After(old(l.state.life), Drop(old(h.timer)))
  {
    hide Registry.Accounts, Lifecycle.After;
    hide ListEngine.ListEngine.Valid, WheelEngine.WheelEngine.Valid, HeapEngine.HeapEngine.Valid;
    hide ListSpec.Inv, WheelSpec.Inv, HeapSpec.Inv, ListSpec.After, WheelSpec.After, HeapSpec.After;
    SoundLife(ByList(l), r);
    Books(ByList(l), r, h.timer);
    OneCallOnlyDeletes(l.state.life, Drop(h.timer));
    l.DismissObject(h, r);
  }

  method TakeInWheel(w: WheelEngine.WheelEngine, h: Holder, t: Timer, r: Registry)
    requires Together(ByWheel(w), r) && h in r.live && h.timer == null && t in w.state.life.info
    modifies w, h, t`references, t`holders
    ensures Kept(ByWheel(w), r) && h.timer == t
    ensures w.state.life == Lifecycle.After(old(w.state.life), Hold(t))
  {
    hide Registry.Accounts, Lifecycle.After;
    hide ListEngine.ListEngine.Valid, WheelEngine.WheelEngine.Valid, HeapEngine.HeapEngine.Valid;
    hide ListSpec.Inv, WheelSpec.Inv, HeapSpec.Inv, ListSpec.After, WheelSpec.After, HeapSpec.After;
    SoundLife(ByWheel(w), r);
    Books(ByWheel(w), r, t);
    OneCallOnlyDeletes(w.state.life, Hold(t));
    w.TakeObject(h, t, r);
  }

  method DismissInWheel(w: WheelEngine.WheelEngine, h: Holder, r: Registry)
    requires Together(ByWheel(w), r) && h in r.live && h.timer != null
    modifies w, h, h.timer`references, h.timer`holders
    ensures Kept(ByWheel(w), r) && h.timer == null
    ensures w.state.life == Lifecycle.After(old(w.state.life), Drop(old(h.timer)))
  {
    hide Registry.Accounts, Lifecycle.After;
    hide ListEngine.ListEngine.Valid, WheelEngine.WheelEngine.Valid, HeapEngine.HeapEngine.Valid;
    hide ListSpec.Inv, WheelSpec.Inv, HeapSpec.Inv, ListSpec.After, WheelSpec.After, HeapSpec.After;
    SoundLife(ByWheel(w), r);
    Books(ByWheel(w), r, h.timer);
    OneCallOnlyDeletes(w.state.life, Drop(h.timer));
    w.DismissObject(h, r);
  }

  method TakeInHeap(p: HeapEngine.HeapEngine, h: Holder, t: Timer, r: Registry)
    requires Together(ByHeap(p), r) && h in r.live && h.timer == null && t in p.state.life.info
    modifies p, h, t`references, t`holders
    ensures Kept(ByHeap(p), r) && h.timer == t
    ensures p.state.life == Lifecycle.After(old(p.state.life), Hold(t))
  {
    hide Registry.Accounts, Lifecycle.After;
    hide ListEngine.ListEngine.Valid, WheelEngine.WheelEngine.Valid, HeapEngine.HeapEngine.Valid;
    hide ListSpec.Inv, WheelSpec.Inv, HeapSpec.Inv, ListSpec.After, WheelSpec.After, HeapSpec.After;
    SoundLife(ByHeap(p), r);
    Books(ByHeap(p), r, t);
    OneCallOnlyDeletes(p.state.life, Hold(t));
    p.TakeObject(h, t, r);
  }

  method DismissInHeap(p: HeapEngine.HeapEngine, h: Holder, r: Registry)
    requires Together(ByHeap(p), r) && h in r.live && h.timer != null
    modifies p, h, h.timer`references, h.timer`holders
    ensures Kept(ByHeap(p), r) && h.timer == null
    ensures p.state.life == Lifecycle.After(old(p.state.life), Drop(old(h.timer)))
  {
    hide Registry.Accounts, Lifecycle.After;
    hide ListEngine.ListEngine.Valid, WheelEngine.WheelEngine.Valid, HeapEngine.HeapEngine.Valid;
    hide ListSpec.Inv, WheelSpec.Inv, HeapSpec.Inv, ListSpec.After, WheelSpec.After, HeapSpec.After;
    SoundLife(ByHeap(p), r);
    Books(ByHeap(p), r, h.timer);
    OneCallOnlyDeletes(p.state.life, Drop(h.timer));
    p.DismissObject(h, r);
  }

  method AllocateInList(l: ListEngine.ListEngine, r: Registry) returns (h: Holder)
    requires Together(ByList(l), r)
    modifies l, r
    ensures Grown(ByList(l), r, h)
    ensures fresh(h) && h.timer != null && fresh(h.timer) && r.live == old(r.live) + {h}
  {
    hide Registry.Accounts, Lifecycle.After;
    hide ListEngine.ListEngine.Valid, WheelEngine.WheelEngine.Valid, HeapEngine.HeapEngine.Valid;
    hide ListSpec.Inv, WheelSpec.Inv, HeapSpec.Inv, ListSpec.After, WheelSpec.After, HeapSpec.After;
    BooksOfNewInList(l);
    h := l.Allocate(r);
  }

  lemma BooksOfNewInList(l: ListEngine.ListEngine)
    requires l.Valid()
    ensures ListSpec.Inv(l.state)
    ensures forall t: Timer {:trigger ListSpec.AfterAllocate(l.state, t)} :: t !in l.state.life.info ==>
      ListSpec.AfterAllocate(l.state, t).life.info == l.state.life.info[t := Info(Deactivated, 0, 1, 1)]
  {
  }

  method AskInList(l: ListEngine.ListEngine, c: Command<Timer>, r: Registry) returns (outcome: Outcome)
    requires Together(ByList(l), r) && c.timer in l.state.life.info && !c.Hold? && !c.Drop?
    modifies l, l.list, l.common, l.timers
    ensures Kept(ByList(l), r)
    ensures ListSpec.Inv(old(l.state)) && outcome == ListSpec.Answer(old(l.state), c)
    ensures l.state.life == Lifecycle.After(old(l.state.life), c)
  {
    hide Registry.Accounts, Lifecycle.After;
    hide ListEngine.ListEngine.Valid, WheelEngine.WheelEngine.Valid, HeapEngine.HeapEngine.Valid;
    hide ListSpec.Inv, WheelSpec.Inv, HeapSpec.Inv, ListSpec.After, WheelSpec.After, HeapSpec.After;
    hide ListSpec.Answer, WheelSpec.Answer, HeapSpec.Answer, WheelSpec.Stored;
    Books(ByList(l), r, c.timer);
    outcome := l.EngineCall(c, r);
  }

  method PassInList(l: ListEngine.ListEngine, now: int, scripts: seq<seq<seq<Command<Timer>>>>, r: Registry)
    requires Together(ByList(l), r) && Nameable(scripts, l.timers)
    modifies l, l.list, l.common, l.timers, r, r.live
    ensures Kept(ByList(l), r) && r.OnlyGrew()
  {
    hide Registry.Accounts, Lifecycle.After;
    hide ListEngine.ListEngine.Valid, WheelEngine.WheelEngine.Valid, HeapEngine.HeapEngine.Valid;
    hide ListSpec.Inv, WheelSpec.Inv, HeapSpec.Inv, ListSpec.After, WheelSpec.After, HeapSpec.After;
    l.Exec();
    ListSpec.PassOnlyDeletes(l.state, now, WheelClock.Script(scripts, 0));
    var _ := l.ProcessExpiredTimers(now, WheelClock.Script(scripts, 0), r);
  }

  method ClearInList(l: ListEngine.ListEngine, now: int, r: Registry)
    requires Together(ByList(l), r)
    modifies l, l.list, l.common, l.timers
    ensures Kept(ByList(l), r)
  {
    hide Registry.Accounts, Lifecycle.After;
    hide ListEngine.ListEngine.Valid, WheelEngine.WheelEngine.Valid, HeapEngine.HeapEngine.Valid;
    hide ListSpec.Inv, WheelSpec.Inv, HeapSpec.Inv, ListSpec.After, WheelSpec.After, HeapSpec.After;
    l.ClearKeepsHolders(r);
    l.ClearAll();
  }

  method AllocateInWheel(w: WheelEngine.WheelEngine, r: Registry) returns (h: Holder)
    requires Together(ByWheel(w), r)
    modifies w, r
    ensures Grown(ByWheel(w), r, h)
    ensures fresh(h) && h.timer != null && fresh(h.timer) && r.live == old(r.live) + {h}
  {
    hide Registry.Accounts, Lifecycle.After;
    hide ListEngine.ListEngine.Valid, WheelEngine.WheelEngine.Valid, HeapEngine.HeapEngine.Valid;
    hide ListSpec.Inv, WheelSpec.Inv, HeapSpec.Inv, ListSpec.After, WheelSpec.After, HeapSpec.After;
    BooksOfNewInWheel(w);
    h := w.Allocate(r);
  }

  lemma BooksOfNewInWheel(w: WheelEngine.WheelEngine)
    requires w.Valid()
    ensures WheelSpec.Inv(w.state)
    ensures forall t: Timer {:trigger WheelSpec.AfterAllocate(w.state, t)} :: t !in w.state.life.info ==>
      WheelSpec.AfterAllocate(w.state, t).life.info == w.state.life.info[t := Info(Deactivated, 0, 1, 1)]
  {
  }

  method AskInWheel(w: WheelEngine.WheelEngine, c: Command<Timer>, r: Registry) returns (outcome: Outcome)
    requires Together(ByWheel(w), r) && c.timer in w.state.life.info && !c.Hold? && !c.Drop?
    modifies w, w.wheel, w.common, w.timers
    ensures Kept(ByWheel(w), r)
    ensures WheelSpec.Inv(old(w.state)) && outcome == WheelSpec.Answer(old(w.state), c)
    ensures w.state.life == Lifecycle.After(old(w.state.life), WheelSpec.Stored(c, old(w.state.granularity)))
  {
    hide Registry.Accounts, Lifecycle.After;
    hide ListEngine.ListEngine.Valid, WheelEngine.WheelEngine.Valid, HeapEngine.HeapEngine.Valid;
    hide ListSpec.Inv, WheelSpec.Inv, HeapSpec.Inv, ListSpec.After, WheelSpec.After, HeapSpec.After;
    hide ListSpec.Answer, WheelSpec.Answer, HeapSpec.Answer, WheelSpec.Stored;
    Books(ByWheel(w), r, c.timer);
    outcome := w.EngineCall(c, r);
  }

  method PassInWheel(w: WheelEngine.WheelEngine, now: int, scripts: seq<seq<seq<Command<Timer>>>>, r: Registry)
    requires Together(ByWheel(w), r) && Nameable(scripts, w.timers)
    modifies w, w.wheel, w.common, w.timers, r, r.live
    ensures Kept(ByWheel(w), r) && r.OnlyGrew()
  {
    hide Registry.Accounts, Lifecycle.After;
    hide ListEngine.ListEngine.Valid, WheelEngine.WheelEngine.Valid, HeapEngine.HeapEngine.Valid;
    hide ListSpec.Inv, WheelSpec.Inv, HeapSpec.Inv, ListSpec.After, WheelSpec.After, HeapSpec.After;
    hide WheelClock.Processed, WheelClock.FiredWhile, WheelClock.Ready;
    w.ClockReady();
    WheelClock.ProcessedOnlyDeletes(w.Now(), now, scripts, 0);
    var _ := w.ProcessExpiredTimers(now, scripts, r);
  }

  method ClearInWheel(w: WheelEngine.WheelEngine, now: int, r: Registry)
    requires Together(ByWheel(w), r)
    modifies w, w.wheel, w.common, w.timers
    ensures Kept(ByWheel(w), r)
  {
    hide Registry.Accounts, Lifecycle.After;
    hide ListEngine.ListEngine.Valid, WheelEngine.WheelEngine.Valid, HeapEngine.HeapEngine.Valid;
    hide ListSpec.Inv, WheelSpec.Inv, HeapSpec.Inv, ListSpec.After, WheelSpec.After, HeapSpec.After;
    w.ClearKeepsHolders(r);
    w.ClearAll(now);
  }

  method AllocateInHeap(p: HeapEngine.HeapEngine, r: Registry) returns (h: Holder)
    requires Together(ByHeap(p), r)
    modifies p, r
    ensures Grown(ByHeap(p), r, h)
    ensures fresh(h) && h.timer != null && fresh(h.timer) && r.live == old(r.live) + {h}
  {
    hide Registry.Accounts, Lifecycle.After;
    hide ListEngine.ListEngine.Valid, WheelEngine.WheelEngine.Valid, HeapEngine.HeapEngine.Valid;
    hide ListSpec.Inv, WheelSpec.Inv, HeapSpec.Inv, ListSpec.After, WheelSpec.After, HeapSpec.After;
    BooksOfNewInHeap(p);
    h := p.Allocate(r);
  }

  lemma BooksOfNewInHeap(p: HeapEngine.HeapEngine)
    requires p.Valid()
    ensures HeapSpec.Inv(p.state)
    ensures forall t: Timer {:trigger HeapSpec.AfterAllocate(p.state, t)} :: t !in p.state.life.info ==>
      HeapSpec.AfterAllocate(p.state, t).life.info == p.state.life.info[t := Info(Deactivated, 0, 1, 1)]
  {
  }

  method AskInHeap(p: HeapEngine.HeapEngine, c: Command<Timer>, r: Registry) returns (outcome: Outcome)
    requires Together(ByHeap(p), r) && c.timer in p.state.life.info && !c.Hold? && !c.Drop?
    modifies p, p.common, p.timers
    ensures Kept(ByHeap(p), r)
    ensures HeapSpec.Inv(old(p.state)) && outcome == HeapSpec.Answer(old(p.state), c)
    ensures p.state.life == Lifecycle.After(old(p.state.life), c)
  {
    hide Registry.Accounts, Lifecycle.After;
    hide ListEngine.ListEngine.Valid, WheelEngine.WheelEngine.Valid, HeapEngine.HeapEngine.Valid;
    hide ListSpec.Inv, WheelSpec.Inv, HeapSpec.Inv, ListSpec.After, WheelSpec.After, HeapSpec.After;
    hide ListSpec.Answer, WheelSpec.Answer, HeapSpec.Answer, WheelSpec.Stored;
    Books(ByHeap(p), r, c.timer);
    outcome := p.EngineCall(c, r);
  }

  method PassInHeap(p: HeapEngine.HeapEngine, now: int, scripts: seq<seq<seq<Command<Timer>>>>, turns: nat, r: Registry)
    requires Together(ByHeap(p), r) && Nameable(scripts, p.timers)
    modifies p, p.common, p.timers, r, r.live
    ensures Kept(ByHeap(p), r) && r.OnlyGrew()
  {
    hide Registry.Accounts, Lifecycle.After;
    hide ListEngine.ListEngine.Valid, WheelEngine.WheelEngine.Valid, HeapEngine.HeapEngine.Valid;
    hide ListSpec.Inv, WheelSpec.Inv, HeapSpec.Inv, ListSpec.After, WheelSpec.After, HeapSpec.After;
    hide HeapPass.AfterTurns;
    p.NoExec();
    HeapPass.TurnsOnlyDelete(p.state, now, WheelClock.Script(scripts, 0), 0, turns);
    p.SomeTurns(now, WheelClock.Script(scripts, 0), turns, r);
  }

  method ClearInHeap(p: HeapEngine.HeapEngine, now: int, r: Registry)
    requires Together(ByHeap(p), r)
    modifies p, p.common, p.timers
    ensures Kept(ByHeap(p), r)
  {
    hide Registry.Accounts, Lifecycle.After;
    hide ListEngine.ListEngine.Valid, WheelEngine.WheelEngine.Valid, HeapEngine.HeapEngine.Valid;
    hide ListSpec.Inv, WheelSpec.Inv, HeapSpec.Inv, ListSpec.After, WheelSpec.After, HeapSpec.After;
    p.ClearKeepsHolders(r);
    p.ClearAll();
  }

  // ------------------------------------------------------------------ any engine

  /** `take_object`, which the engine's books follow. */
  method Take(e: Engine, h: Holder, t: Timer, r: Registry)
    requires Together(e, r) && h in r.live && h.timer == null && t in e.Life().info
    modifies e.Object(), h, t`references, t`holders
    ensures Kept(e, r) && h.timer == t
    ensures Sound(old(e.Life())) && e.Life() == Lifecycle.After(old(e.Life()), Hold(t))
  {
    hide Together, Kept;
    SoundLife(e, r);
    match e
    case ByList(l) => TakeInList(l, h, t, r);
    case ByWheel(w) => TakeInWheel(w, h, t, r);
    case ByHeap(p) => TakeInHeap(p, h, t, r);
  }

  /** `dismiss_object`, likewise. */
  method Dismiss(e: Engine, h: Holder, r: Registry)
    requires Together(e, r) && h in r.live && h.timer != null
    modifies e.Object(), h, h.timer`references, h.timer`holders
    ensures Kept(e, r) && h.timer == null
    ensures Sound(old(e.Life())) && e.Life() == Lifecycle.After(old(e.Life()), Drop(old(h.timer)))
  {
    hide Together, Kept;
    SoundLife(e, r);
    match e
    case ByList(l) => DismissInList(l, h, r);
    case ByWheel(w) => DismissInWheel(w, h, r);
    case ByHeap(p) => DismissInHeap(p, h, r);
  }

  /** A new timer, or a new scoped object with its timer. */
  method AllocateTimer(e: Engine, r: Registry) returns (h: Holder)
    requires Together(e, r)
    modifies e.Object(), r
    ensures Grown(e, r, h)
    ensures fresh(h) && h.timer != null && fresh(h.timer) && r.live == old(r.live) + {h}
  {
    hide Together, Kept;
    match e
    case ByList(l) => h := AllocateInList(l, r);
    case ByWheel(w) => h := AllocateInWheel(w, r);
    case ByHeap(p) => h := AllocateInHeap(p, r);
  }

  /** A pass of any engine.  One over the heap need not end: it is seen after `turns` turns of
      its loop, or when it has ended. */
  method ProcessExpired(e: Engine, now: int, scripts: seq<seq<seq<Command<Timer>>>>, turns: nat, r: Registry)
    requires Together(e, r) && Nameable(scripts, e.Timers())
    modifies e.Objects(), r, r.live
    ensures Kept(e, r) && r.OnlyGrew()
  {
    hide Together, Kept, Nameable;
    match e
    case ByList(l) => PassInList(l, now, scripts, r);
    case ByWheel(w) => PassInWheel(w, now, scripts, r);
    case ByHeap(p) => PassInHeap(p, now, scripts, turns, r);
  }

  method ClearAll(e: Engine, now: int, r: Registry)
    requires Together(e, r)
    modifies e.Objects()
    ensures Kept(e, r)
  {
    hide Together, Kept;
    match e
    case ByList(l) => ClearInList(l, now, r);
    case ByWheel(w) => ClearInWheel(w, now, r);
    case ByHeap(p) => ClearInHeap(p, now, r);
  }

  // ------------------------------------------------------------------ smart pointers

  /** The default constructor. */
  method Null(e: Engine, r: Registry) returns (h: Holder)
    requires Together(e, r)
    modifies r
    ensures Kept(e, r) && fresh(h) && h.timer == null && r.live == old(r.live) + {h}
    ensures e.Life() == old(e.Life())
  {
    hide Registry.Accounts;
    hide ListEngine.ListEngine.Valid, WheelEngine.WheelEngine.Valid, HeapEngine.HeapEngine.Valid;
    h := new Holder(r, e.Life().info);
  }

  /** A smart pointer made from a raw pointer, such as that of a scoped timer. */
  method FromRaw(e: Engine, t: Timer?, r: Registry) returns (h: Holder)
    requires Together(e, r) && (t != null ==> t in e.Life().info)
    modifies e.Object(), r, Maybe(t)`references, Maybe(t)`holders
    ensures Kept(e, r) && fresh(h) && h.timer == t && r.live == old(r.live) + {h}
    ensures Sound(old(e.Life())) && e.Life() == Held(old(e.Life()), t)
  {
    SoundLife(e, r);
    h := Null(e, r);
    if t != null {
      Take(e, h, t, r);
    }
  }

  /** The ledger after a smart pointer has come, or gone. */
  ghost function Held(life: Ledger<Timer>, t: Timer?): (r: Ledger<Timer>)
    requires Sound(life)
    ensures Sound(r)
  {
    if t == null then life else Lifecycle.After(life, Hold(t))
  }

  ghost function Dropped(life: Ledger<Timer>, t: Timer?): (r: Ledger<Timer>)
    requires Sound(life)
    ensures Sound(r)
  {
    if t == null then life else Lifecycle.After(life, Drop(t))
  }

  /** No live smart pointer refers to a timer that was deleted. */
  lemma NoneDangles(e: Engine, r: Registry, h: Holder)
    requires Together(e, r) && h in r.live && h.timer != null
    ensures h.timer in e.Life().info && h.timer in e.Objects() && e.Object() in e.Objects()
  {
    r.NoDanglingPointer(e.Life().info, h);
    Books(e, r, h.timer);
  }

  /** Smart pointers are not part of an engine. */
  lemma PointersApart(e: Engine, r: Registry)
    ensures e.Object() in e.Objects() && r !in e.Objects() && r.live !! e.Objects()
  {
  }

  method Copy(e: Engine, o: Holder, r: Registry) returns (h: Holder)
    requires Together(e, r) && o in r.live
    modifies e.Object(), r, Maybe(o.timer)`references, Maybe(o.timer)`holders
    ensures Kept(e, r) && fresh(h) && h.timer == o.timer && r.live == old(r.live) + {h}
    ensures Sound(old(e.Life())) && e.Life() == Held(old(e.Life()), o.timer)
  {
    hide Together, Kept, Held;
    if o.timer != null {
      NoneDangles(e, r, o);
    }
    h := FromRaw(e, o.timer, r);
  }

  /** The move constructor leaves the counts alone. */
  method Move(e: Engine, o: Holder, r: Registry) returns (h: Holder)
    requires Together(e, r) && o in r.live
    modifies o, r
    ensures Kept(e, r) && fresh(h) && h.timer == old(o.timer) && o.timer == null && r.live == old(r.live) + {h}
    ensures e.Life() == old(e.Life())
  {
    hide Registry.Accounts;
    hide ListEngine.ListEngine.Valid, WheelEngine.WheelEngine.Valid, HeapEngine.HeapEngine.Valid;
    h := new Holder.Move(o, r, e.Life().info);
  }

  method Swap(e: Engine, h: Holder, o: Holder, r: Registry)
    requires Together(e, r) && h in r.live && o in r.live && h != o
    modifies h, o
    ensures Kept(e, r) && h.timer == old(o.timer) && o.timer == old(h.timer)
    ensures e.Life() == old(e.Life())
  {
    hide Registry.Accounts;
    hide ListEngine.ListEngine.Valid, WheelEngine.WheelEngine.Valid, HeapEngine.HeapEngine.Valid;
    h.Swap(o, r, e.Life().info);
  }

  method Reset(e: Engine, h: Holder, r: Registry)
    requires Together(e, r) && h in r.live
    modifies e.Object(), h, Maybe(h.timer)`references, Maybe(h.timer)`holders
    ensures Kept(e, r) && h.timer == null
    ensures Sound(old(e.Life())) && e.Life() == Dropped(old(e.Life()), old(h.timer))
  {
    hide e.Valid, e.Idle, Registry.Accounts, Lifecycle.After;
    SoundLife(e, r);
    if h.timer != null {
      Dismiss(e, h, r);
    }
  }

  /** A smart pointer that refers to nothing goes out of scope. */
  method Leave(e: Engine, h: Holder, r: Registry)
    requires Together(e, r) && h in r.live && h.timer == null
    modifies r
    ensures Kept(e, r) && r.live == old(r.live) - {h}
    ensures e.Life() == old(e.Life())
  {
    hide Registry.Accounts;
    hide ListEngine.ListEngine.Valid, WheelEngine.WheelEngine.Valid, HeapEngine.HeapEngine.Valid;
    h.Leave(r, e.Life().info);
  }

  /** The destructor. */
  method Destroy(e: Engine, h: Holder, r: Registry)
    requires Together(e, r) && h in r.live
    modifies e.Object(), r, h, Maybe(h.timer)`references, Maybe(h.timer)`holders
    ensures Kept(e, r) && r.live == old(r.live) - {h}
    ensures Sound(old(e.Life())) && e.Life() == Dropped(old(e.Life()), old(h.timer))
  {
    hide Together, Dropped;
    Reset(e, h, r);
    Leave(e, h, r);
  }

  /** The end of a scoped object.  Its timer goes away with it, whatever its count: nothing is
      left dangling exactly when the count is one, that of the object itself. */
  lemma ScopedEnd(e: Engine, h: Holder, r: Registry)
    requires Together(e, r) && h in r.live && h.timer != null
    ensures h.timer.references == 1 <==> !e.Has(h.timer) && r.PointingTo(h.timer) == {h}
  {
    hide Registry.Accounts, e.Has;
    NoneDangles(e, r, h);
    Books(e, r, h.timer);
    References(e, r, h.timer);
    assert h in r.PointingTo(h.timer);
    if |r.PointingTo(h.timer)| == 1 {
      OnlyOne(r.PointingTo(h.timer), h);
    }
  }

  lemma OnlyOne(hs: set<Holder>, h: Holder)
    requires h in hs && |hs| == 1
    ensures hs == {h}
  {
    assert |hs - {h}| == 0;
  }

  method EndScoped(e: Engine, h: Holder, r: Registry)
    requires Together(e, r) && h in r.live && h.timer != null && h.timer.references == 1
    modifies e.Object(), r, h, h.timer`references, h.timer`holders
    ensures Kept(e, r) && r.live == old(r.live) - {h}
    ensures e.Life().info == old(e.Life().info) - {old(h.timer)}
  {
    hide Together, Dropped;
    NoneDangles(e, r, h);
    LastReference(e, h, r);
    Destroy(e, h, r);
  }

  lemma LastReference(e: Engine, h: Holder, r: Registry)
    requires Together(e, r) && h in r.live && h.timer != null && h.timer.references == 1
    ensures e.Valid() && Sound(e.Life()) && Dropped(e.Life(), h.timer).info == e.Life().info - {h.timer}
  {
    hide e.Valid, Sound, Registry.Accounts;
    SoundLife(e, r);
    r.NoDanglingPointer(e.Life().info, h);
    BookedReferences(e, h.timer);
    LastOneDrops(e.Life(), h.timer);
  }

  lemma BookedReferences(e: Engine, t: Timer)
    requires e.Valid() && t in e.Life().info
    ensures e.Life().info[t].refs == t.references
  {
  }

  lemma LastOneDrops(life: Ledger<Timer>, t: Timer)
    requires Sound(life) && t in life.info && life.info[t].refs == 1 && life.info[t].holders > 0
    ensures Dropped(life, t).info == life.info - {t}
  {
  }

  /** Copy assignment, by way of a temporary; a smart pointer can be assigned to itself. */
  method CopyAssign(e: Engine, h: Holder, o: Holder, r: Registry)
    requires Together(e, r) && h in r.live && o in r.live
    modifies e.Objects(), r, h
    ensures Kept(e, r) && r.live == old(r.live) && h.timer == old(o.timer) && o.timer == old(o.timer)
    ensures Sound(old(e.Life())) && e.Life() == Dropped(Held(old(e.Life()), old(o.timer)), old(h.timer))
  {
    hide Together, Dropped, Held, Engine.Objects, Engine.Timers, Engine.Life;
    PointersApart(e, r);
    if h.timer != null { NoneDangles(e, r, h); }
    if o.timer != null { NoneDangles(e, r, o); }
    var t := Copy(e, o, r);
    Swap(e, h, t, r);
    Destroy(e, t, r);
  }

  /** Move assignment; a smart pointer that is moved to itself keeps its timer. */
  method MoveAssign(e: Engine, h: Holder, o: Holder, r: Registry)
    requires Together(e, r) && h in r.live && o in r.live
    modifies e.Objects(), r, h, o
    ensures Kept(e, r) && r.live == old(r.live) && h.timer == old(o.timer) && (o != h ==> o.timer == null)
    ensures Sound(old(e.Life())) && e.Life() == if o == h then old(e.Life()) else Dropped(old(e.Life()), old(h.timer))
  {
    hide Together, Dropped, Engine.Objects, Engine.Timers, Engine.Life;
    PointersApart(e, r);
    if h.timer != null { NoneDangles(e, r, h); }
    SoundLife(e, r);
    var t := Move(e, o, r);
    Swap(e, h, t, r);
    Destroy(e, t, r);
    NothingDropped(old(e.Life()));
  }

  lemma NothingDropped(life: Ledger<Timer>)
    requires Sound(life)
    ensures Dropped(life, null) == life
  {
  }

  // ------------------------------------------------------------------ calls

  /** A call to an engine without the smart pointer that it is given. */
  datatype Request =
    | ToActivate(clock: int, pause: int, period: int)
    | ToReschedule(clock: int, pause: int, period: int)
    | ToDeactivate
  {
    function For(t: Timer): (c: Command<Timer>)
      ensures c.timer == t && !c.Hold? && !c.Drop?
    {
      match this
      case ToActivate(clock, pause, period) => Activate(t, clock, pause, period)
      case ToReschedule(clock, pause, period) => Reschedule(t, clock, pause, period)
      case ToDeactivate => Deactivate(t)
    }
  }

  /** What the ledger makes of a call: the wheel stores its period in ticks. */
  ghost function AsStored(e: Engine, c: Command<Timer>): Command<Timer>
    requires e.Valid()
    reads *
  {
    if e.ByWheel? then WheelSpec.Stored(c, e.wheel.state.granularity) else c
  }

  ghost function Answer(e: Engine, c: Command<Timer>): Outcome
    requires e.Valid() && c.timer in e.Life().info
    reads *
  {
    match e
    case ByList(l) => ListSpec.Answer(l.state, c)
    case ByWheel(w) => WheelSpec.Answer(w.state, c)
    case ByHeap(p) => HeapSpec.Answer(p.state, c)
  }

  method AskEngine(e: Engine, c: Command<Timer>, r: Registry) returns (outcome: Outcome)
    requires Together(e, r) && c.timer in e.Life().info && !c.Hold? && !c.Drop?
    modifies e.Objects()
    ensures Kept(e, r)
    ensures outcome == old(Answer(e, c))
    ensures Sound(old(e.Life())) && e.Life() == Lifecycle.After(old(e.Life()), old(AsStored(e, c)))
  {
    hide Together, Kept;
    SoundLife(e, r);
    match e
    case ByList(l) => outcome := AskInList(l, c, r);
    case ByWheel(w) => outcome := AskInWheel(w, c, r);
    case ByHeap(p) => outcome := AskInHeap(p, c, r);
  }

  /** `activate`, `reschedule` and `deactivate` take a smart pointer by value, which is gone when
      they return: a null pointer is refused and nothing happens; otherwise the engine does what
      its specification says, and if it did not take the timer nor anybody else holds it, the
      timer is deleted. */
  method Ask(e: Engine, h: Holder, request: Request, r: Registry) returns (outcome: Outcome)
    requires Together(e, r) && h in r.live
    modifies e.Objects(), r, h
    ensures Kept(e, r) && r.live == old(r.live) - {h}
    ensures old(h.timer) == null ==> outcome == Failed(NullTimer) && e.Life() == old(e.Life())
    ensures old(h.timer) != null ==>
      && old(e.Valid() && h.timer in e.Life().info && Sound(e.Life()))
      && outcome == old(Answer(e, request.For(h.timer)))
      && e.Life() == Dropped(Lifecycle.After(old(e.Life()), old(AsStored(e, request.For(h.timer)))), old(h.timer))
  {
    hide Together, Dropped, Answer, AsStored, Lifecycle.After, Engine.Objects, Engine.Timers, Engine.Life;
    SoundLife(e, r);
    PointersApart(e, r);
    if h.timer == null {
      outcome := Failed(NullTimer);
      NothingDropped(e.Life());
    } else {
      NoneDangles(e, r, h);
      outcome := AskEngine(e, request.For(h.timer), r);
      NoneDangles(e, r, h);
    }
    Destroy(e, h, r);
  }

  // ------------------------------------------------------------------ runs

  /** What can be done next.  Smart pointers and timers are named by numbers. */
  datatype Operation =
    | NewTimer
    | NewPointer
    | CopyOf(i: nat)
    | MoveOf(i: nat)
    | EndOf(i: nat)
    | ResetOf(i: nat)
    | SwapOf(i: nat, j: nat)
    | CopyTo(i: nat, j: nat)
    | MoveTo(i: nat, j: nat)
    | CallWith(i: nat, request: Request)
    | PassAt(now: int, scripts: seq<seq<seq<Command<nat>>>>, turns: nat)
    | ClearAt(now: int)

  function Named(c: Command<nat>, ts: seq<Timer>): Command<Timer>
    requires ts != []
  {
    var t := ts[c.timer % |ts|];
    match c
    case Activate(_, clock, pause, period) => Activate(t, clock, pause, period)
    case Reschedule(_, clock, pause, period) => Reschedule(t, clock, pause, period)
    case Deactivate(_) => Deactivate(t)
    case Hold(_) => Hold(t)
    case Drop(_) => Drop(t)
  }

  function NamedScript(script: seq<seq<Command<nat>>>, ts: seq<Timer>): seq<seq<Command<Timer>>> {
    if ts == [] then []
    else seq(|script|, i requires 0 <= i < |script| =>
           seq(|script[i]|, j requires 0 <= j < |script[i]| => Named(script[i][j], ts)))
  }

  function NamedScripts(scripts: seq<seq<seq<Command<nat>>>>, ts: seq<Timer>): seq<seq<seq<Command<Timer>>>> {
    seq(|scripts|, i requires 0 <= i < |scripts| => NamedScript(scripts[i], ts))
  }

  lemma NamesKnown(scripts: seq<seq<seq<Command<nat>>>>, ts: seq<Timer>, timers: set<Timer>)
    requires forall t :: t in ts ==> t in timers
    ensures Nameable(NamedScripts(scripts, ts), timers)
  {
    var named := NamedScripts(scripts, ts);
    forall i, j, c: Command<Timer> | 0 <= i < |named| && 0 <= j < |named[i]| && c in named[i][j]
      ensures c.timer in timers
    {
      assert named[i] == NamedScript(scripts[i], ts);
      var k :| 0 <= k < |named[i][j]| && named[i][j][k] == c;
    }
  }

  class World {
    const engine: Engine
    const registry: Registry
    var pointers: seq<Holder>      // those that the client has not ended yet
    var timers: seq<Timer>         // every timer it has made

    constructor (engine: Engine, registry: Registry)
      requires Together(engine, registry)
      ensures Valid() && this.engine == engine && this.registry == registry
    {
      this.engine, this.registry := engine, registry;
      pointers, timers := [], [];
    }

    ghost predicate Valid()
      reads *
    {
      && Together(engine, registry)
      && Alive(pointers, registry.live)
      && (forall i {:trigger timers[i]} :: 0 <= i < |timers| ==> timers[i] in engine.Timers())
    }

    /** What a step can touch besides this object. */
    ghost function Footprint(): set<object>
      reads this, registry, engine.Object()
    {
      engine.Objects() + {registry} + registry.live
    }

    /** After any number of steps: no timer that was deleted is back. */
    twostate predicate Onward()
      reads *
    {
      && Valid() && old(engine.Timers()) <= engine.Timers()
      && (forall t :: t in old(engine.Timers()) && t !in old(engine.Life().info) ==> t !in engine.Life().info)
      && (forall o {:trigger o in engine.Objects()} ::
            o in engine.Objects() && o !in old(engine.Objects()) ==> fresh(o))
      && (forall h {:trigger h in registry.live} ::
            h in registry.live && h !in old(registry.live) ==> fresh(h))
    }

    /** Neither this object nor a smart pointer is part of the engine. */
    lemma Outside()
      ensures this !in Footprint() && registry !in engine.Objects() && registry.live !! engine.Objects()
      ensures engine.Object() in engine.Objects()
    {
    }

    /** The timer of a pointer is one of the engine's. */
    lemma Target(i: nat)
      requires Valid() && i < |pointers|
      ensures pointers[i] in registry.live
      ensures pointers[i].timer != null ==> pointers[i].timer in engine.Objects()
    {
      if pointers[i].timer != null {
        NoneDangles(engine, registry, pointers[i]);
      }
    }

    /** Keeps in mind which pointers and timers there are now. */
    method Remember(ps: seq<Holder>, ts: seq<Timer>)
      requires Together(engine, registry)
      modifies `pointers, `timers
      ensures Together(engine, registry) && pointers == ps && timers == ts
      ensures engine.Objects() == old(engine.Objects()) && engine.Life() == old(engine.Life())
      ensures engine.Timers() == old(engine.Timers())
    {
      hide ListEngine.ListEngine.Valid, WheelEngine.WheelEngine.Valid, HeapEngine.HeapEngine.Valid;
      hide Registry.Accounts;
      pointers, timers := ps, ts;
    }

    /** One operation; it does nothing if it names a pointer and there is none. */
    method Do(op: Operation)
      requires Valid()
      modifies this, Footprint()
      ensures Onward()
    {
      hide Together, Engine.Objects, Engine.Timers, Engine.Life, Alive;
      hide Held, Dropped, Answer, AsStored, Lifecycle.After;
      Outside();
      match op
      case NewTimer =>
        var h := AllocateTimer(engine, registry);
        AliveMore(pointers, h, old(registry.live));
        Remember(pointers + [h], timers + [h.timer]);
      case NewPointer =>
        var h := Null(engine, registry);
        AliveMore(pointers, h, old(registry.live));
        Remember(pointers + [h], timers);
      case PassAt(now, scripts, turns) =>
        DoPass(now, scripts, turns);
      case ClearAt(now) =>
        ClearAll(engine, now, registry);
      case CallWith(i, request) =>
        DoCall(i, request);
      case _ =>
        DoPointer(op);
    }

    method DoPass(now: int, scripts: seq<seq<seq<Command<nat>>>>, turns: nat)
      requires Valid()
      modifies this, Footprint()
      ensures Onward()
    {
      hide Together, Engine.Objects, Engine.Timers, Engine.Life, Alive;
      hide Held, Dropped, Answer, AsStored, Lifecycle.After;
      Outside();
      NamesKnown(scripts, timers, engine.Timers());
      ProcessExpired(engine, now, NamedScripts(scripts, timers), turns, registry);
      AliveStill(pointers, old(registry.live), registry.live);
    }

    method DoCall(i: nat, request: Request)
      requires Valid()
      modifies this, Footprint()
      ensures Onward()
    {
      hide Together, Engine.Objects, Engine.Timers, Engine.Life, Alive;
      hide Held, Dropped, Answer, AsStored, Lifecycle.After;
      Outside();
      if i < |pointers| {
        Target(i);
        var h := Copy(engine, pointers[i], registry);
        var _ := Ask(engine, h, request, registry);
      }
    }

    method DoPointer(op: Operation)
      requires Valid()
      modifies this, Footprint()
      ensures Onward()
    {
      hide Together, Engine.Objects, Engine.Timers, Engine.Life, Alive;
      hide Held, Dropped, Answer, AsStored, Lifecycle.After;
      Outside();
      match op
      case CopyOf(i) =>
        if i < |pointers| {
          Target(i);
          var h := Copy(engine, pointers[i], registry);
          AliveMore(pointers, h, old(registry.live));
          Remember(pointers + [h], timers);
        }
      case MoveOf(i) =>
        if i < |pointers| {
          Target(i);
          var h := Move(engine, pointers[i], registry);
          AliveMore(pointers, h, old(registry.live));
          Remember(pointers + [h], timers);
        }
      case EndOf(i) =>
        if i < |pointers| {
          Target(i);
          Destroy(engine, pointers[i], registry);
          AliveWithout(pointers, i, old(registry.live));
          Remember(RemoveAt(pointers, i), timers);
        }
      case ResetOf(i) =>
        if i < |pointers| {
          Target(i);
          Reset(engine, pointers[i], registry);
        }
      case SwapOf(i, j) =>
        if i < |pointers| && j < |pointers| && i != j {
          Target(i);
          Target(j);
          Differ(pointers, registry.live, i, j);
          Swap(engine, pointers[i], pointers[j], registry);
        }
      case CopyTo(i, j) =>
        if i < |pointers| && j < |pointers| {
          Target(i);
          Target(j);
          CopyAssign(engine, pointers[j], pointers[i], registry);
        }
      case MoveTo(i, j) =>
        if i < |pointers| && j < |pointers| {
          Target(i);
          Target(j);
          MoveAssign(engine, pointers[j], pointers[i], registry);
        }
      case _ =>
    }

    /** Any run keeps engine and smart pointers together, so that every reference is accounted
        for and no timer is deleted that the engine has or that a live smart pointer refers to;
        and it brings no deleted timer back: each timer is deleted at most once. */
    method Run(ops: seq<Operation>)
      requires Valid()
      modifies this, Footprint()
      ensures Onward() && Conserved(engine, registry)
    {
      hide Together, Engine.Timers, Engine.Life, Alive, Conserved;
      for i := 0 to |ops|
        invariant Onward()
      {
        Do(ops[i]);
      }
      AllReferences(engine, registry);
    }
  }

  /** Different smart pointers, all of them alive. */
  ghost predicate Alive(ps: seq<Holder>, live: set<Holder>) {
    Distinct(ps) && forall i {:trigger ps[i]} :: 0 <= i < |ps| ==> ps[i] in live
  }

  lemma AliveStill(ps: seq<Holder>, live: set<Holder>, more: set<Holder>)
    requires Alive(ps, live) && live <= more
    ensures Alive(ps, more)
  {
  }

  lemma AliveMore(ps: seq<Holder>, h: Holder, live: set<Holder>)
    requires Alive(ps, live) && h !in live
    ensures Alive(ps + [h], live + {h})
  {
  }

  lemma AliveWithout(ps: seq<Holder>, i: nat, live: set<Holder>)
    requires Alive(ps, live) && i < |ps|
    ensures Alive(RemoveAt(ps, i), live - {ps[i]})
  {
    RemoveAtDistinct(ps, i);
  }

  lemma Differ(ps: seq<Holder>, live: set<Holder>, i: nat, j: nat)
    requires Alive(ps, live) && i < |ps| && j < |ps| && i != j
    ensures ps[i] != ps[j]
  {
  }

  // ------------------------------------------------------------------ how it begins

  method OverList() returns (w: World)
    ensures fresh(w) && w.Valid() && w.engine.ByList? && w.engine.Timers() == {} && w.registry.live == {}
  {
    var engine := new ListEngine.ListEngine();
    var registry := new Registry();
    w := new World(ByList(engine), registry);
  }

  method OverWheel(size: nat, granularity: int, now: int) returns (w: World)
    requires 0 < size < WheelSpec.UINT_RANGE && granularity > 0
    ensures fresh(w) && w.Valid() && w.engine.ByWheel? && w.engine.Timers() == {} && w.registry.live == {}
  {
    var engine := new WheelEngine.WheelEngine(size, granularity, now);
    var registry := new Registry();
    w := new World(ByWheel(engine), registry);
  }

  method OverHeap() returns (w: World)
    ensures fresh(w) && w.Valid() && w.engine.ByHeap? && w.engine.Timers() == {} && w.registry.live == {}
  {
    var engine := new HeapEngine.HeapEngine();
    var registry := new Registry();
    w := new World(ByHeap(engine), registry);
  }
}
