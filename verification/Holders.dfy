/**
  timer_object_holder, the intrusive smart pointer to a timer.  The registry knows all smart
  pointers that are alive, so that the reference counts can be compared with it; the source
  has no such object.
 */
module Holders {
  import opened Lifecycle
  import opened TimerObject

  ghost function Maybe(t: Timer?): set<Timer> {
    if t == null then {} else {t}
  }

  /** What the books say after `delta` more smart pointers refer to a timer. */
  ghost function Recounted(info: map<Timer, Info>, t: Timer, delta: int): map<Timer, Info>
    requires t in info && info[t].refs + delta >= 0 && info[t].holders + delta >= 0
  {
    var i := info[t];
    Put(info, t, Info(i.status, i.period, i.refs + delta, i.holders + delta))
  }

  class Registry {
    var live: set<Holder>

    constructor ()
      ensures live == {}
    {
      live := {};
    }

    /** More smart pointers may have come into being. */
    twostate predicate OnlyGrew()
      reads this
    {
      old(live) <= live && forall h {:trigger h in live} :: h in live && h !in old(live) ==> fresh(h)
    }

    ghost function PointingTo(t: Timer): set<Holder>
      reads this, live`timer
    {
      set h | h in live && h.timer == t
    }

    /** The live smart pointers account for the references that do not belong to the engine:
        none of them refers to a timer that was deleted, and of every other timer there are
        as many as its books say. */
    ghost predicate Accounts(info: map<Timer, Info>)
      reads this, live`timer
    {
      && (forall h {:trigger h.timer} :: h in live ==> h.timer == null || h.timer in info)
      && (forall t {:trigger PointingTo(t)} :: t in info ==> info[t].holders == |PointingTo(t)|)
    }

    /** A timer that a live smart pointer refers to has not been deleted. */
    lemma NoDanglingPointer(info: map<Timer, Info>, h: Holder)
      requires Accounts(info) && h in live && h.timer != null
      ensures h.timer in info && info[h.timer].holders > 0
    {
      assert h in PointingTo(h.timer);
    }

    /** What leaves the holders alone does not concern the smart pointers. */
    lemma StillAccounts(a: map<Timer, Info>, b: map<Timer, Info>)
      requires Accounts(a) && SameHolders(a, b)
      ensures Accounts(b)
    {
      forall h | h in live && h.timer != null
        ensures h.timer in b
      {
        NoDanglingPointer(a, h);
      }
    }

    /** Another timer, which no smart pointer refers to yet. */
    lemma AccountsNew(info: map<Timer, Info>, t: Timer, i: Info)
      requires Accounts(info) && t !in info && i.holders == 0
      ensures Accounts(info[t := i])
    {
      assert PointingTo(t) == {};
    }

    /** If the books say that smart pointers refer to a timer, one can be found. */
    lemma SomePointer(info: map<Timer, Info>, t: Timer)
      requires Accounts(info) && t in info && info[t].holders > 0
      ensures exists h :: h in live && h.timer == t
    {
      assert PointingTo(t) != {};
      var h :| h in PointingTo(t);
    }
  }

  class Holder {
    var timer: Timer?

    /** The default constructor. */
    constructor (r: Registry, ghost info: map<Timer, Info>)
      requires r.Accounts(info)
      modifies r
      ensures r.Accounts(info) && r.live == old(r.live) + {this} && timer == null
    {
      timer := null;
      new;
      r.live := r.live + {this};
      assert forall t :: t in info ==> r.PointingTo(t) == old(r.PointingTo(t));
    }

    /** Assigns to m_timer; the counts are the caller's business. */
    method Set(t: Timer?, ghost r: Registry, ghost info: map<Timer, Info>)
      requires this in r.live
      modifies this
      ensures timer == t
      ensures forall u {:trigger r.PointingTo(u)} :: u in info ==>
        |r.PointingTo(u)| == |old(r.PointingTo(u))| - (if old(timer) == u then 1 else 0) + (if t == u then 1 else 0)
    {
      timer := t;
      forall u | u in info
        ensures |r.PointingTo(u)|
             == |old(r.PointingTo(u))| - (if old(timer) == u then 1 else 0) + (if t == u then 1 else 0)
      {
        CountAfter(old(r.PointingTo(u)), r.PointingTo(u), this);
      }
    }

    /** `take_object`, for a smart pointer that has just been given its timer. */
    method TakeObject(t: Timer, ghost r: Registry, ghost info: map<Timer, Info>)
      requires r.Accounts(info) && this in r.live && timer == null && t in info
      modifies this, t`references, t`holders
      ensures timer == t && t.references == old(t.references) + 1 && t.holders == old(t.holders) + 1
      ensures r.Accounts(Recounted(info, t, 1))
    {
      Set(t, r, info);
      timer.references := timer.references + 1;
      timer.holders := timer.holders + 1;
    }

    /** `dismiss_object`: a timer without references is deleted. */
    method DismissObject(ghost r: Registry, ghost info: map<Timer, Info>)
      requires r.Accounts(info) && this in r.live && timer != null && timer in info
      requires info[timer].holders == timer.holders <= info[timer].refs == timer.references
      modifies this, timer`references, timer`holders
      ensures timer == null
      ensures info[old(timer)].holders > 0
      ensures var t: Timer := old(timer);
              && t.references == old(t.references) - 1 && t.holders == old(t.holders) - 1
              && r.Accounts(Recounted(info, t, -1))
    {
      r.NoDanglingPointer(info, this);
      timer.references := timer.references - 1;
      timer.holders := timer.holders - 1;
      ghost var t: Timer := timer;
      Set(null, r, info);
      forall h | h in r.live && h.timer != null
        ensures h.timer in Recounted(info, t, -1)
      {
        assert h in r.PointingTo(h.timer);
      }
    }

    /** A move leaves the counts alone. */
    constructor Move(o: Holder, r: Registry, ghost info: map<Timer, Info>)
      requires r.Accounts(info) && o in r.live
      modifies r, o
      ensures r.Accounts(info) && r.live == old(r.live) + {this} && timer == old(o.timer) && o.timer == null
    {
      timer := null;
      new;
      r.live := r.live + {this};
      assert forall u :: u in info ==> r.PointingTo(u) == old(r.PointingTo(u));
      Set(o.timer, r, info);
      o.Set(null, r, info);
    }

    method Swap(o: Holder, ghost r: Registry, ghost info: map<Timer, Info>)
      requires r.Accounts(info) && this in r.live && o in r.live && o != this
      modifies this, o
      ensures r.Accounts(info) && timer == old(o.timer) && o.timer == old(timer)
    {
      var t := timer;
      Set(o.timer, r, info);
      o.Set(t, r, info);
    }

    /** The end of a smart pointer that refers to nothing any more. */
    method Leave(r: Registry, ghost info: map<Timer, Info>)
      requires r.Accounts(info) && this in r.live && timer == null
      modifies r
      ensures r.Accounts(info) && r.live == old(r.live) - {this}
    {
      r.live := r.live - {this};
      assert forall t :: t in info ==> r.PointingTo(t) == old(r.PointingTo(t));
    }
  }

  /** A new timer with its first smart pointer. */
  method NewTimer(r: Registry, ghost info: map<Timer, Info>) returns (h: Holder)
    requires r.Accounts(info)
    modifies r
    ensures fresh(h) && h.timer != null && fresh(h.timer) && h.timer !in info && r.live == old(r.live) + {h}
    ensures InfoOf(h.timer) == Info(Deactivated, 0, 1, 1) && h.timer.position == 0
    ensures r.Accounts(info[h.timer := Info(Deactivated, 0, 1, 1)])
  {
    hide r.Accounts;
    var timer := new Timer();
    h := new Holder(r, info);
    r.AccountsNew(info, timer, Info(Deactivated, 0, 0, 0));
    h.TakeObject(timer, r, info[timer := Info(Deactivated, 0, 0, 0)]);
    assert Recounted(info[timer := Info(Deactivated, 0, 0, 0)], timer, 1)
        == info[timer := Info(Deactivated, 0, 1, 1)];
  }

  /** `take_object` and `dismiss_object`, for the engines whose books are those of InfosAgree. */
  method Take(h: Holder, t: Timer, ghost r: Registry, ghost timers: set<Timer>, ghost info: map<Timer, Info>)
    requires InfosAgree(timers, info) && t in timers && t.references > 0
    requires r.Accounts(info) && h in r.live && h.timer == null
    modifies h, t`references, t`holders
    ensures h.timer == t
    ensures InfosAgree(timers, Recounted(info, t, 1)) && r.Accounts(Recounted(info, t, 1))
  {
    hide r.Accounts;
    h.TakeObject(t, r, info);
  }

  method Dismiss(h: Holder, ghost r: Registry, ghost timers: set<Timer>, ghost info: map<Timer, Info>)
    requires InfosAgree(timers, info) && r.Accounts(info) && h in r.live && h.timer != null
    requires forall t :: t in info ==> info[t].holders <= info[t].refs
    modifies h, h.timer`references, h.timer`holders
    ensures h.timer == null && old(h.timer) in info && info[old(h.timer)].holders > 0 && info[old(h.timer)].refs > 0
    ensures var t: Timer := old(h.timer);
            InfosAgree(timers, Recounted(info, t, -1)) && r.Accounts(Recounted(info, t, -1))
  {
    r.NoDanglingPointer(info, h);
    h.DismissObject(r, info);
  }

  /** The count of a set that changed at one element only. */
  lemma CountAfter(s: set<Holder>, r: set<Holder>, h: Holder)
    requires s - {h} == r - {h}
    ensures |r| == |s| - (if h in s then 1 else 0) + (if h in r then 1 else 0)
  {
    assert s == s - {h} + if h in s then {h} else {};
    assert r == r - {h} + if h in r then {h} else {};
  }
}
