/**
  timer_list_engine: a doubly linked list of timers sorted by m_when, updated in place.
  The ghost field `state` says what the memory stands for, and every method is proved to
  change it as ListSpec says.
 */
module ListEngine {
  import opened Lifecycle
  import opened Sequences
  import opened TimerObject
  import opened Holders
  import ListSpec

  /** The entries give the nodes in order, each with its m_when. */
  ghost predicate EntriesAgree(q: seq<Timer>, entries: seq<ListSpec.Entry<Timer>>)
    reads q`when
  {
    && |q| == |entries|
    && forall i {:trigger entries[i]} :: 0 <= i < |q| ==> entries[i] == ListSpec.Entry(q[i], q[i].when)
  }

  lemma EntriesAgreeMembers(q: seq<Timer>, entries: seq<ListSpec.Entry<Timer>>)
    requires EntriesAgree(q, entries)
    ensures ListSpec.Timers(entries) == q
  {
  }

  lemma EntriesAgreeInserted(q: seq<Timer>, entries: seq<ListSpec.Entry<Timer>>, k: nat, t: Timer)
    requires EntriesAgree(q, entries) && k <= |q|
    ensures EntriesAgree(InsertAt(q, k, t), InsertAt(entries, k, ListSpec.Entry(t, t.when)))
  {
  }

  lemma EntriesAgreeRemoved(q: seq<Timer>, entries: seq<ListSpec.Entry<Timer>>, t: Timer)
    requires EntriesAgree(q, entries) && t in q
    ensures ListSpec.IndexOf(entries, t) < |q| && q[ListSpec.IndexOf(entries, t)] == t
    ensures EntriesAgree(RemoveAt(q, ListSpec.IndexOf(entries, t)), ListSpec.Remove(entries, t))
  {
    EntriesAgreeMembers(q, entries);
    assert entries[ListSpec.IndexOf(entries, t)].timer == t;
  }

  class ListEngine {
    const list: TimerList
    const common: EngineCommon

    ghost var timers: set<Timer>   // every timer this engine has allocated
    ghost var exec: seq<Timer>     // the detached execution list
    ghost var state: ListSpec.State<Timer>

    ghost predicate Agrees()
      reads this, list, list.nodes, common, exec, timers
    {
      && InfosAgree(timers, state.life.info)
      && EntriesAgree(list.nodes, state.queue)
      && EntriesAgree(exec, state.exec)
      && common.single == state.life.single
      && common.periodic == state.life.periodic
    }

    ghost predicate Valid()
      reads this, list, list.nodes, common, exec, timers
    {
      && list.Valid()
      && Forward(exec)
      && Agrees()
      && ListSpec.Inv(state)
      && Counted(state.life)
    }

    /** A timer that a client can name: it was allocated here and not deleted. */
    ghost predicate Known(t: Timer)
      reads this, t
    {
      t in timers && t.references > 0
    }

    lemma Membership()
      requires Valid()
      ensures forall t :: t in list.nodes <==> t in timers && t.references > 0 && t.status == Active
      ensures forall t :: t in exec <==> t in timers && t.references > 0 && InExec(InfoOf(t))
      ensures exec == state.life.exec
    {
      EntriesAgreeMembers(list.nodes, state.queue);
      EntriesAgreeMembers(exec, state.exec);
    }

    /** Where a timer can be, by its status. */
    lemma Placement(timer: Timer)
      requires Valid() && Known(timer)
      ensures timer in state.life.info && state.life.info[timer] == InfoOf(timer)
      ensures timer in list.nodes <==> timer.status == Active
      ensures timer in exec <==> InExec(InfoOf(timer))
      ensures ExecApart() && ListKnown()
    {
      Membership();
    }

    ghost predicate ListKnown()
      reads this, list
    {
      forall i {:trigger list.nodes[i]} :: 0 <= i < |list.nodes| ==> list.nodes[i] in timers
    }

    constructor ()
      ensures Valid() && state == ListSpec.State(Ledger(map[], [], 0, 0), [], []) && timers == {}
      ensures fresh(list) && fresh(common)
    {
      list := new TimerList();
      common := new EngineCommon();
      timers, exec := {}, [];
      state := ListSpec.State(Ledger(map[], [], 0, 0), [], []);
      new;
      assert Owned(state.life.info, false) == {} && Owned(state.life.info, true) == {};
    }

    /** No timer of the execution list is linked. */
    ghost predicate ExecApart()
      reads this, list, exec
    {
      && Forward(exec)
      && forall i {:trigger exec[i]} :: 0 <= i < |exec| ==> exec[i] !in list.nodes
    }

    /** The walk from the tail to the last timer that is not later. */
    method FindPoint(when: int, ghost entries: seq<ListSpec.Entry<Timer>>)
      returns (point: Timer?, ghost k: nat)
      requires list.Valid() && EntriesAgree(list.nodes, entries)
      ensures k == ListSpec.Place(entries, when) <= |list.nodes|
      ensures point == Node(list.nodes, ListSpec.Place(entries, when) - 1)
    {
      k := |entries|;
      assert entries[..k] == entries;
      point := list.tail;
      while point != null
        invariant 0 <= k <= |entries| && point == Node(list.nodes, k - 1)
        invariant ListSpec.Place(entries, when) == ListSpec.Place(entries[..k], when)
        decreases k
      {
        assert entries[k - 1].when == point.when;
        if point.when > when {
          point := point.prev;
          k := k - 1;
          assert entries[..k + 1][..k] == entries[..k];
        } else {
          return;
        }
      }
    }

    method InsertTimerToList(timer: Timer, ghost entries: seq<ListSpec.Entry<Timer>>)
      requires list.Valid() && timer !in list.nodes && ExecApart() && timer !in exec
      requires EntriesAgree(list.nodes, entries)
      modifies list, list.nodes`prev, list.nodes`next, timer`prev, timer`next
      ensures list.Valid() && ExecApart()
      ensures EntriesAgree(list.nodes, ListSpec.Insert(entries, ListSpec.Entry(timer, timer.when)))
    {
      hide Forward, Backward, Distinct, EntriesAgree, ListSpec.Place;
      var point, k := FindPoint(timer.when, entries);
      InsertAtMembers(list.nodes, k, timer);
      EntriesAgreeInserted(list.nodes, entries, k, timer);
      list.Link(point, timer, k);
    }

    method RemoveTimerFromList(timer: Timer, ghost entries: seq<ListSpec.Entry<Timer>>)
      requires list.Valid() && timer in list.nodes && ExecApart() && ListKnown()
      requires EntriesAgree(list.nodes, entries)
      modifies list, list.nodes`prev, list.nodes`next
      ensures list.Valid() && timer !in list.nodes && ExecApart() && ListKnown()
      ensures EntriesAgree(list.nodes, ListSpec.Remove(entries, timer))
    {
      hide ListSpec.IndexOf, Forward, Backward, Distinct, EntriesAgree, ListSpec.Remove;
      ghost var k := ListSpec.IndexOf(entries, timer);
      EntriesAgreeRemoved(list.nodes, entries, timer);
      ListDistinct();
      RemoveAtMembers(list.nodes, k);
      list.Unlink(timer, k);
    }

    lemma ListDistinct()
      requires list.Valid()
      ensures Distinct(list.nodes)
    {
    }

    /** Links a timer and makes it active. */
    method Enlist(timer: Timer, when: int, period: int, references: nat,
                  ghost s: ListSpec.State<Timer>)
      requires timer in timers && timer.references > 0 && references > 0
      requires list.Valid() && ExecApart() && timer !in list.nodes && timer !in exec
      requires ListKnown()
      requires InfosAgree(timers, s.life.info)
      requires EntriesAgree(list.nodes, s.queue) && EntriesAgree(exec, s.exec)
      modifies list, timers
      ensures list.Valid() && ExecApart()
      ensures InfosAgree(timers, s.life.info[timer := Info(Active, period, references, timer.holders)])
      ensures EntriesAgree(list.nodes, ListSpec.Insert(s.queue, ListSpec.Entry(timer, when)))
      ensures EntriesAgree(exec, s.exec) && timer.holders == old(timer.holders)
    {
      hide ListSpec.Insert, Distinct, Forward, Backward;
      timer.when := when;
      timer.Update(Active, period, references, timers, s.life.info);
      InsertTimerToList(timer, s.queue);
    }

    /** Records what the memory stands for now. */
    ghost method Become(r: ListSpec.State<Timer>)
      requires list.Valid() && Forward(exec)
      requires InfosAgree(timers, r.life.info)
      requires EntriesAgree(list.nodes, r.queue)
      requires EntriesAgree(exec, r.exec)
      requires common.single == r.life.single && common.periodic == r.life.periodic
      requires ListSpec.Inv(r) && Counted(r.life)
      modifies `state
      ensures state == r && Valid()
    {
      hide ListSpec.Inv, Counted, InfosAgree, EntriesAgree, Forward, Distinct;
      state := r;
    }

    /** The part of `activate` behind its check. */
    method Start(timer: Timer, when: int, period: int)
      requires Valid() && Known(timer) && timer.status == Deactivated
      modifies this, list, common, timers
      ensures Valid() && timers == old(timers) && exec == old(exec)
      ensures state == ListSpec.AfterActivate(old(state), timer, when, period)
    {
      hide ListSpec.Inv, Sound, Counted, ListSpec.AfterActivate, Lifecycle.AfterActivate;
      hide ListSpec.Insert, Forward, Backward, Distinct, InfosAgree, EntriesAgree;
      Placement(timer);
      ListSpec.ActivateEquation(state, timer, when, period);
      Enlist(timer, when, period, timer.references + 1, state);
      common.IncTimerCount(period);
      Become(ListSpec.AfterActivate(state, timer, when, period));
    }

    method Activate(timer: Timer, clock: int, pause: int, period: int) returns (r: Outcome)
      requires Valid() && Known(timer)
      modifies this, list, common, timers
      ensures Valid() && timers == old(timers) && exec == old(exec)
      ensures r == ListSpec.ActivateOutcome(old(state), timer, clock + pause, period)
      ensures state == ListSpec.AfterActivate(old(state), timer, clock + pause, period)
    {
      hide ListSpec.Inv, Sound, Counted, ListSpec.Insert, Forward, Backward, Distinct;
      assert state.life.info[timer] == InfoOf(timer);
      if timer.status != Deactivated {
        return Failed(NotDeactivated);
      }
      Start(timer, clock + pause, period);
      r := Done(timer == list.head);
    }

    /** Unlinks a timer and deactivates it. */
    method Delist(timer: Timer, ghost s: ListSpec.State<Timer>)
      requires list.Valid() && timer in list.nodes && ExecApart() && ListKnown()
      requires timer in timers && timer.references > 0
      requires EntriesAgree(list.nodes, s.queue) && EntriesAgree(exec, s.exec) && timer !in exec
      requires InfosAgree(timers, s.life.info)
      modifies list, timers
      ensures list.Valid() && Forward(exec)
      ensures EntriesAgree(list.nodes, ListSpec.Remove(s.queue, timer)) && EntriesAgree(exec, s.exec)
      ensures InfosAgree(timers, Put(s.life.info, timer,
                Info(Deactivated, timer.period, old(timer.references) - 1, timer.holders)))
      ensures timer.period == old(timer.period) && timer.holders == old(timer.holders)
    {
      hide ListSpec.Remove, Forward, Backward, Distinct, InfosAgree, Put;
      RemoveTimerFromList(timer, s.queue);
      timer.Update(Deactivated, timer.period, timer.references - 1, timers, s.life.info);
    }

    /** Takes out a timer that is linked. */
    method Stop(timer: Timer)
      requires Valid() && Known(timer) && timer.status == Active
      modifies this, list, common, timers
      ensures Valid() && timers == old(timers) && exec == old(exec)
      ensures state == ListSpec.AfterDeactivate(old(state), timer)
    {
      hide ListSpec.Inv, Sound, Counted, ListSpec.AfterDeactivate, Lifecycle.AfterDeactivate;
      hide ListSpec.Remove, Forward, Backward, Distinct, InfosAgree, EntriesAgree, Put;
      Placement(timer);
      ListSpec.DeactivateEquation(state, timer);
      Delist(timer, state);
      common.DecTimerCount(timer.period);
      Become(ListSpec.AfterDeactivate(state, timer));
    }

    method Deactivate(timer: Timer)
      requires Valid() && Known(timer)
      modifies this, list, common, timers
      ensures Valid() && timers == old(timers) && exec == old(exec)
      ensures state == ListSpec.AfterDeactivate(old(state), timer)
    {
      hide ListSpec.Inv, Sound, Counted, ListSpec.AfterDeactivate, Lifecycle.AfterDeactivate;
      hide ListSpec.Remove, Distinct, InfosAgree, Put;
      Placement(timer);
      ListSpec.DeactivateEquation(state, timer);
      if timer.status == Active {
        Stop(timer);
      } else if timer.status == WaitForExecution {
        timer.Update(WaitForDeactivation, timer.period, timer.references, timers, state.life.info);
        Become(ListSpec.AfterDeactivate(state, timer));
      }
    }

    /** Moves a linked timer to the place of its new time. */
    method Relist(timer: Timer, when: int, period: int, ghost s: ListSpec.State<Timer>)
      requires list.Valid() && timer in list.nodes && ExecApart() && ListKnown()
      requires timer in timers && timer.references > 0 && timer !in exec
      requires EntriesAgree(list.nodes, s.queue) && EntriesAgree(exec, s.exec)
      requires InfosAgree(timers, s.life.info)
      modifies list, timers
      ensures list.Valid() && Forward(exec)
      ensures EntriesAgree(list.nodes, ListSpec.Insert(ListSpec.Remove(s.queue, timer), ListSpec.Entry(timer, when)))
      ensures EntriesAgree(exec, s.exec)
      ensures InfosAgree(timers,
                s.life.info[timer := Info(Active, period, old(timer.references), old(timer.holders))])
    {
      hide ListSpec.Remove, ListSpec.Insert, Forward, Backward, Distinct, InfosAgree, EntriesAgree;
      RemoveTimerFromList(timer, s.queue);
      Enlist(timer, when, period, timer.references, s.(queue := ListSpec.Remove(s.queue, timer)));
    }

    /** The part of `reschedule` behind its checks. */
    method Restart(timer: Timer, when: int, period: int)
      requires Valid() && Known(timer) && timer.status == Active
      modifies this, list, common, timers
      ensures Valid() && timers == old(timers) && exec == old(exec)
      ensures state == ListSpec.AfterReschedule(old(state), timer, when, period)
    {
      hide ListSpec.Inv, Sound, Counted, ListSpec.AfterReschedule, Lifecycle.AfterReschedule;
      hide ListSpec.Remove, ListSpec.Insert, Forward, Backward, Distinct, InfosAgree, EntriesAgree;
      Placement(timer);
      ListSpec.RescheduleEquation(state, timer, when, period);
      common.DecTimerCount(timer.period);
      Relist(timer, when, period, state);
      common.IncTimerCount(period);
      Become(ListSpec.AfterReschedule(state, timer, when, period));
    }

    method Reschedule(timer: Timer, clock: int, pause: int, period: int) returns (r: Outcome)
      requires Valid() && Known(timer)
      modifies this, list, common, timers
      ensures Valid() && timers == old(timers) && exec == old(exec)
      ensures r == ListSpec.RescheduleOutcome(old(state), timer, clock + pause, period)
      ensures state == ListSpec.AfterReschedule(old(state), timer, clock + pause, period)
    {
      hide ListSpec.Inv, Sound, Counted, ListSpec.Insert, ListSpec.Remove, Forward, Backward, Distinct;
      hide ListSpec.AfterActivate;
      assert state.life.info[timer] == InfoOf(timer);
      if timer.status == Deactivated {
        r := Activate(timer, clock, pause, period);
      } else if timer.status != Active {
        r := Failed(InProcessing);
      } else {
        Restart(timer, clock + pause, period);
        r := Done(timer == list.head);
      }
    }

    /** Enters a new timer in the books. */
    ghost method Register(timer: Timer, s: ListSpec.State<Timer>)
      requires timer !in timers && timer.references > 0
      requires list.Valid() && Forward(exec) && InfosAgree(timers, s.life.info)
      requires EntriesAgree(list.nodes, s.queue) && EntriesAgree(exec, s.exec)
      modifies `timers
      ensures timers == old(timers) + {timer} && list.Valid() && Forward(exec)
      ensures InfosAgree(timers, s.life.info[timer := InfoOf(timer)])
      ensures EntriesAgree(list.nodes, s.queue) && EntriesAgree(exec, s.exec)
    {
      timers := timers + {timer};
    }

    /** `allocate`: the smart pointer that is returned is the first one to refer to the timer.
        The constructor of a scoped timer does the same for a timer that it contains, which
        keeps it from being deleted: then `h` stands for the scoped object. */
    method Allocate(r: Registry) returns (h: Holder)
      requires Valid() && r.Accounts(state.life.info)
      modifies this, r
      ensures Valid() && exec == old(exec)
      ensures fresh(h) && h.timer != null && fresh(h.timer) && timers == old(timers) + {h.timer}
      ensures h.timer !in old(state).life.info && state == ListSpec.AfterAllocate(old(state), h.timer)
      ensures r.live == old(r.live) + {h} && r.Accounts(state.life.info)
    {
      hide ListSpec.Inv, Sound, Counted, Distinct, ListSpec.AfterAllocate, InfosAgree, EntriesAgree, Forward;
      hide Backward, r.Accounts;
      h := NewTimer(r, state.life.info);
      Unknown(h.timer);
      Register(h.timer, state);
      ListSpec.AllocateEquation(state, h.timer);
      Become(ListSpec.AfterAllocate(state, h.timer));
    }

    lemma Unknown(timer: Timer)
      requires Valid() && timer !in timers
      ensures timer !in state.life.info
    {
    }

    /** A smart pointer starts to refer to the timer. */
    method TakeObject(h: Holder, timer: Timer, ghost r: Registry)
      requires Valid() && Known(timer) && r.Accounts(state.life.info) && h in r.live && h.timer == null
      modifies `state, h, timer`references, timer`holders
      ensures Valid() && h.timer == timer
      ensures state == ListSpec.After(old(state), Hold(timer)) && r.Accounts(state.life.info)
    {
      hide ListSpec.Inv, Sound, Counted, Distinct, ListSpec.After, InfosAgree, r.Accounts;
      Placement(timer);
      ListSpec.CallCounts(state, Hold(timer));
      ListSpec.HoldEquation(state, Hold(timer));
      Take(h, timer, r, timers, state.life.info);
      Become(ListSpec.After(state, Hold(timer)));
    }

    /** A smart pointer stops to refer to its timer. */
    method DismissObject(h: Holder, ghost r: Registry)
      requires Valid() && r.Accounts(state.life.info) && h in r.live && h.timer != null
      modifies `state, h, h.timer`references, h.timer`holders
      ensures Valid() && h.timer == null
      ensures state == ListSpec.After(old(state), Drop(old(h.timer))) && r.Accounts(state.life.info)
    {
      hide ListSpec.Inv, Counted, Distinct, ListSpec.After, InfosAgree, r.Accounts;
      ghost var timer: Timer := h.timer;
      SoundBooks();
      Dismiss(h, r, timers, state.life.info);
      ListSpec.CallCounts(state, Drop(timer));
      ListSpec.HoldEquation(state, Drop(timer));
      Become(ListSpec.After(state, Drop(timer)));
    }

    lemma SoundBooks()
      requires Valid()
      ensures forall t :: t in state.life.info ==> state.life.info[t].holders <= state.life.info[t].refs
    {
      forall t | t in state.life.info
        ensures state.life.info[t].holders <= state.life.info[t].refs
      {
        assert Balanced(state.life.info[t]);
      }
    }

    // ---------------------------------------------------------------- one pass

    lemma HoldersOf(timer: Timer)
      requires Valid() && Known(timer)
      ensures timer in state.life.info && state.life.info[timer].holders == timer.holders
    {
      Placement(timer);
    }

    /** A new smart pointer refers to the timer. */
    method PointTo(timer: Timer, r: Registry)
      requires Valid() && Known(timer) && r.Accounts(state.life.info)
      modifies `state, r, timer`references, timer`holders
      ensures Valid() && state == ListSpec.After(old(state), Hold(timer))
      ensures r.Accounts(state.life.info) && r.OnlyGrew()
    {
      hide Valid, ListSpec.After, r.Accounts;
      var h := new Holder(r, state.life.info);
      TakeObject(h, timer, r);
    }

    /** Some smart pointer that refers to the timer lets go of it. */
    method PointAway(timer: Timer, r: Registry)
      requires Valid() && Known(timer) && timer.holders > 0 && r.Accounts(state.life.info)
      modifies `state, r.live, timer`references, timer`holders
      ensures Valid() && state == ListSpec.After(old(state), Drop(timer))
      ensures r.Accounts(state.life.info) && r.OnlyGrew()
    {
      hide Valid, ListSpec.After, r.Accounts;
      HoldersOf(timer);
      r.SomePointer(state.life.info, timer);
      var h :| h in r.live && h.timer == timer;
      DismissObject(h, r);
    }

    /** A smart pointer comes, or goes if there is one. */
    method PointerCall(c: Command<Timer>, r: Registry)
      requires Valid() && Known(c.timer) && (c.Hold? || c.Drop?) && r.Accounts(state.life.info)
      modifies `state, r, r.live, c.timer`references, c.timer`holders
      ensures Valid() && state == ListSpec.After(old(state), c)
      ensures r.Accounts(state.life.info) && r.OnlyGrew()
    {
      hide Valid, ListSpec.After, r.Accounts;
      if c.Hold? {
        PointTo(c.timer, r);
      } else if c.timer.holders > 0 {
        PointAway(c.timer, r);
      } else {
        NothingToDrop(c.timer);
      }
    }

    lemma NothingToDrop(timer: Timer)
      requires Valid() && Known(timer) && timer.holders == 0
      ensures ListSpec.Inv(state) && ListSpec.After(state, Drop(timer)) == state
    {
      hide ListSpec.Inv;
      Placement(timer);
      DropNothing(timer);
    }

    lemma DropNothing(timer: Timer)
      requires ListSpec.Inv(state) && timer in state.life.info && state.life.info[timer].holders == 0
      ensures ListSpec.After(state, Drop(timer)) == state
    {
    }

    /** A call made by a client, or a smart pointer that comes or goes; nobody can make a call
        for a timer that was deleted. */
    method Call(c: Command<Timer>, r: Registry)
      requires Valid() && c.timer in timers && r.Accounts(state.life.info)
      modifies this, list, common, timers, r, r.live
      ensures Valid() && timers == old(timers) && exec == old(exec)
      ensures state == ListSpec.After(old(state), c)
      ensures r.Accounts(state.life.info) && r.OnlyGrew()
    {
      hide ListSpec.Inv, Sound, Counted, Distinct, EntriesAgree, Forward, Backward, r.Accounts;
      if c.timer.references > 0 {
        Placement(c.timer);
        if c.Hold? || c.Drop? {
          PointerCall(c, r);
        } else {
          var _ := EngineCall(c, r);
        }
      }
    }

    /** A call that is not about smart pointers. */
    method EngineCall(c: Command<Timer>, ghost r: Registry) returns (outcome: Outcome)
      requires Valid() && Known(c.timer) && !c.Hold? && !c.Drop? && r.Accounts(state.life.info)
      modifies this, list, common, timers
      ensures Valid() && timers == old(timers) && exec == old(exec)
      ensures state == ListSpec.After(old(state), c)
      ensures old(ListSpec.Inv(state) && c.timer in state.life.info) && outcome == old(ListSpec.Answer(state, c))
      ensures Sound(old(state.life)) && state.life == Lifecycle.After(old(state.life), c)
      ensures r.Accounts(state.life.info) && OnlyDeletes(old(state.life.info), state.life.info)
    {
      hide ListSpec.Inv, Sound, Counted, Distinct, EntriesAgree, Forward, Backward;
      hide ListSpec.AfterActivate, ListSpec.AfterReschedule, ListSpec.AfterDeactivate;
      ghost var before := state;
      match c {
        case Activate(t, clock, pause, period) =>
          outcome := Activate(t, clock, pause, period);
        case Reschedule(t, clock, pause, period) =>
          outcome := Reschedule(t, clock, pause, period);
        case Deactivate(t) =>
          Deactivate(t);
          outcome := Done(false);
      }
      KeepsHolders(before, c, r);
    }

    lemma KeepsHolders(before: ListSpec.State<Timer>, c: Command<Timer>, r: Registry)
      requires ListSpec.Inv(before) && state == ListSpec.After(before, c) && !c.Hold? && !c.Drop?
      requires r.Accounts(before.life.info)
      ensures Sound(before.life) && state.life == Lifecycle.After(before.life, c)
      ensures r.Accounts(state.life.info) && OnlyDeletes(before.life.info, state.life.info)
    {
      hide ListSpec.After, Lifecycle.After;
      CallKeepsHolders(before.life, c);
      r.StillAccounts(before.life.info, state.life.info);
    }

    method Calls(cs: seq<Command<Timer>>, r: Registry)
      requires Valid() && (forall c :: c in cs ==> c.timer in timers) && r.Accounts(state.life.info)
      modifies this, list, common, timers, r, r.live
      ensures Valid() && timers == old(timers) && exec == old(exec)
      ensures state == ListSpec.AfterAll(old(state), cs)
      ensures r.Accounts(state.life.info) && r.OnlyGrew()
      decreases |cs|
    {
      hide Valid, ListSpec.Inv, Sound, Counted, Distinct;
      if |cs| > 0 {
        Call(cs[0], r);
        Calls(cs[1..], r);
      }
    }

    lemma QueueMembership()
      requires Valid()
      ensures ListSpec.Timers(state.queue) == list.nodes && ListKnown() && Distinct(list.nodes)
      ensures forall i {:trigger list.nodes[i]} :: 0 <= i < |list.nodes| ==>
        list.nodes[i] in state.life.info && state.life.info[list.nodes[i]].refs > 0
      ensures |exec| == |state.exec|
      ensures forall k {:trigger Node(list.nodes, k)} :: 0 < k <= |list.nodes| ==> Node(list.nodes, k) != list.head
    {
      Membership();
      EntriesAgreeMembers(list.nodes, state.queue);
    }

    method MarkOne(timer: Timer, ghost k: nat, ghost info: map<Timer, Info>)
      requires list.Valid() && ListKnown() && k < |list.nodes| && timer == list.nodes[k]
      requires timer in info && InfosAgree(timers, Marked(info, list.nodes[..k]))
      requires info[timer].refs > 0
      modifies timer`status, timer`period, timer`references
      ensures list.Valid() && timer.next == old(timer.next)
      ensures InfosAgree(timers, Marked(info, list.nodes[..k + 1]))
    {
      assert timer !in list.nodes[..k];
      MarkedOneMore(info, list.nodes[..k], timer);
      assert list.nodes[..k + 1] == list.nodes[..k] + [timer];
      assert timer in Marked(info, list.nodes[..k]) && Marked(info, list.nodes[..k])[timer] == info[timer];
      timer.Update(WaitForExecution, timer.period, timer.references, timers, Marked(info, list.nodes[..k]));
    }

    /** Walks to the first timer that has not elapsed, marking the ones before it. */
    method MarkElapsed(now: int, ghost s: ListSpec.State<Timer>) returns (rest: Timer?, ghost k: nat)
      requires list.Valid() && ListKnown() && Distinct(list.nodes)
      requires forall i {:trigger list.nodes[i]} :: 0 <= i < |list.nodes| ==>
        list.nodes[i] in s.life.info && s.life.info[list.nodes[i]].refs > 0
      requires InfosAgree(timers, s.life.info) && EntriesAgree(list.nodes, s.queue)
      modifies timers`status, timers`period, timers`references
      ensures list.Valid() && EntriesAgree(list.nodes, s.queue)
      ensures k == ListSpec.Elapsed(s.queue, now) && rest == Node(list.nodes, k)
      ensures InfosAgree(timers, Marked(s.life.info, list.nodes[..k]))
    {
      hide Backward, Distinct, InfosAgree, Marked, Put;
      MarkedNone(s.life.info);
      rest := list.head;
      k := 0;
      while rest != null && now >= rest.when
        invariant k <= |list.nodes| && rest == Node(list.nodes, k)
        invariant list.Valid() && EntriesAgree(list.nodes, s.queue)
        invariant ListSpec.Elapsed(s.queue, now) == k + ListSpec.Elapsed(s.queue[k..], now)
        invariant InfosAgree(timers, Marked(s.life.info, list.nodes[..k]))
        decreases |list.nodes| - k
      {
        MarkOne(rest, k, s.life.info);
        rest := rest.next;
        k := k + 1;
        assert s.queue[k - 1..][1..] == s.queue[k..];
      }
    }

    /** The elapsed prefix becomes the execution list. */
    method Detach(rest: Timer?, ghost k: nat, ghost info: map<Timer, Info>)
      requires list.Valid() && 0 < k <= |list.nodes| && rest == Node(list.nodes, k)
      requires InfosAgree(timers, info) && EntriesAgree(list.nodes, state.queue)
      modifies `exec, list, list.nodes`prev, list.nodes`next
      ensures list.Valid() && Forward(exec) && exec == old(list.nodes)[..k]
      ensures InfosAgree(timers, info)
      ensures EntriesAgree(list.nodes, state.queue[k..]) && EntriesAgree(exec, state.queue[..k])
    {
      hide Forward, Backward, Distinct;
      exec := list.nodes[..k];
      list.DetachPrefix(rest, k);
    }

    method MakeExecList(now: int) returns (h: Timer?)
      requires Valid() && exec == []
      modifies this, list, common, timers
      ensures Valid() && timers == old(timers)
      ensures state == ListSpec.AfterBegin(old(state), now) && h == Node(exec, 0)
    {
      hide ListSpec.Inv, Sound, Counted, Distinct, ListSpec.AfterBegin, ListSpec.Elapsed;
      hide Forward, Backward, InfosAgree, EntriesAgree, Marked;
      QueueMembership();
      ghost var s := ListSpec.AfterBegin(state, now);
      ListSpec.BeginEquation(state, now);
      h := list.head;
      var rest, k := MarkElapsed(now, state);
      if rest == h {
        h := null;
      } else {
        Detach(rest, k, s.life.info);
        Become(s);
      }
    }

    /** What happens until the status of timer `i` has been checked. */
    method CheckOne(t: Timer, i: nat, script: seq<seq<Command<Timer>>>, r: Registry) returns (run: seq<Timer>)
      requires Valid() && i < |exec| && t == exec[i] && |exec| == |state.exec| && ListSpec.Inv(state)
      requires r.Accounts(state.life.info)
      requires forall i, c :: 0 <= i < |script| && c in script[i] ==> c.timer in timers
      modifies this, list, common, timers, r, r.live
      ensures Valid() && timers == old(timers) && exec == old(exec) && |exec| == |state.exec| && ListSpec.Inv(state)
      ensures ListSpec.AfterChecks(old(state), i, script) == ListSpec.AfterChecks(state, i + 1, script)
      ensures ListSpec.FiredFrom(old(state), i, script)
           == run + ListSpec.FiredFrom(state, i + 1, script)
      ensures t.next == Node(exec, i + 1)
      ensures r.Accounts(state.life.info) && r.OnlyGrew()
    {
      hide Valid, ListSpec.Inv, ListSpec.AfterChecks, ListSpec.FiredFrom, ListSpec.AfterAll, r.Accounts;
      ListSpec.ChecksStep(state, i, script);
      Calls(At(script, i), r);
      ExecLength();
      ExecMembership(i);
      run := if t.status == WaitForExecution then [t] else [];
    }

    /** What happens after the last check. */
    method LastCalls(i: nat, script: seq<seq<Command<Timer>>>, r: Registry)
      requires Valid() && i == |state.exec| && ListSpec.Inv(state) && r.Accounts(state.life.info)
      requires forall i, c :: 0 <= i < |script| && c in script[i] ==> c.timer in timers
      modifies this, list, common, timers, r, r.live
      ensures Valid() && timers == old(timers) && exec == old(exec)
      ensures state == ListSpec.AfterChecks(old(state), i, script)
      ensures ListSpec.FiredFrom(old(state), i, script) == []
      ensures r.Accounts(state.life.info) && r.OnlyGrew()
    {
      hide Valid, ListSpec.Inv, ListSpec.AfterChecks, ListSpec.FiredFrom, ListSpec.AfterAll, r.Accounts;
      ListSpec.ChecksStep(state, i, script);
      Calls(At(script, i), r);
    }

    /** Runs the actions of the execution list with the lock released: `script` says which
        calls clients make meanwhile, `fired` which actions are run. */
    method ExecActions(h: Timer?, script: seq<seq<Command<Timer>>>, r: Registry) returns (fired: seq<Timer>)
      requires Valid() && h == Node(exec, 0) && r.Accounts(state.life.info)
      requires forall i, c :: 0 <= i < |script| && c in script[i] ==> c.timer in timers
      modifies this, list, common, timers, r, r.live
      ensures Valid() && timers == old(timers) && exec == old(exec)
      ensures state == ListSpec.AfterChecks(old(state), 0, script)
      ensures fired == ListSpec.FiredFrom(old(state), 0, script)
      ensures r.Accounts(state.life.info) && r.OnlyGrew()
    {
      hide Valid, ListSpec.Inv, ListSpec.AfterChecks, ListSpec.FiredFrom, ListSpec.AfterAll, r.Accounts;
      ExecLength();
      ghost var end, all := ListSpec.AfterChecks(state, 0, script), ListSpec.FiredFrom(state, 0, script);
      var t, i := h, 0;
      fired := [];
      while t != null
        invariant Valid() && timers == old(timers) && exec == old(exec)
        invariant i <= |exec| == |state.exec| && t == Node(exec, i) && ListSpec.Inv(state)
        invariant ListSpec.AfterChecks(state, i, script) == end
        invariant fired + ListSpec.FiredFrom(state, i, script) == all
        invariant r.Accounts(state.life.info) && r.OnlyGrew()
        decreases |exec| - i
      {
        var run := CheckOne(t, i, script, r);
        assert fired + (run + ListSpec.FiredFrom(state, i + 1, script))
            == fired + run + ListSpec.FiredFrom(state, i + 1, script);
        fired := fired + run;
        t := t.next;
        i := i + 1;
      }
      LastCalls(i, script, r);
    }

    lemma BeginParts(now: int)
      requires Valid() && exec == []
      ensures ListSpec.Inv(state) && state.exec == []
      ensures ListSpec.AfterBegin(state, now).exec == [] ==> ListSpec.AfterBegin(state, now) == state
    {
      hide ListSpec.AfterBegin;
      ListSpec.BeginEquation(state, now);
    }

    lemma Exec()
      requires Valid() && exec == []
      ensures ListSpec.Inv(state) && state.exec == []
    {
    }

    lemma ExecLength()
      requires Valid()
      ensures |exec| == |state.exec| && ListSpec.Inv(state)
    {
    }

    lemma ExecMembership(i: nat)
      requires Valid() && i < |exec|
      ensures state.exec[i].timer == exec[i] && exec[i] in state.life.info
      ensures state.life.info[exec[i]] == InfoOf(exec[i])
      ensures exec[i].next == Node(exec, i + 1)
    {
      Membership();
    }

    /** The head of the execution list is not linked. */
    lemma ExecHead()
      requires Valid() && exec != []
      ensures |exec| == |state.exec| && state.exec[0] == ListSpec.Entry(exec[0], exec[0].when)
      ensures exec[0] in timers && exec[0].references > 0 && exec[0] !in list.nodes && Distinct(exec)
      ensures ExecApart() && ListKnown()
      ensures exec[0] in state.life.info && state.life.info[exec[0]] == InfoOf(exec[0])
    {
      ExecMembership(0);
      assert exec[0] in exec;
      Placement(exec[0]);
      EntriesAgreeMembers(exec, state.exec);
    }

    /** The first timer leaves the execution list. */
    ghost method PopExec(entries: seq<ListSpec.Entry<Timer>>)
      requires exec != [] && Distinct(exec) && ExecApart() && EntriesAgree(exec, entries)
      modifies `exec
      ensures exec == old(exec)[1..] && ExecApart() && EntriesAgree(exec, entries[1..])
      ensures old(exec)[0] !in exec
    {
      DistinctTail(exec);
      hide Distinct;
      ghost var q := exec;
      exec := exec[1..];
      forall i | 0 <= i < |exec|
        ensures exec[i].next == Node(exec, i + 1) && exec[i] !in list.nodes
      {
        assert exec[i] == q[i + 1];
      }
    }

    method Repeat(t: Timer)
      requires Valid() && exec != [] && t == exec[0]
      requires t.status == WaitForExecution && t.period != 0
      modifies this, list, common, timers
      ensures Valid() && timers == old(timers) && exec == old(exec)[1..]
      ensures state == ListSpec.AfterFinishOne(old(state))
    {
      hide ListSpec.Inv, Sound, Counted, Distinct, ListSpec.AfterFinishOne, Lifecycle.AfterFinishOne;
      hide ListSpec.Insert, InfosAgree, Put, Forward, Backward;
      ExecHead();
      ListSpec.FinishOneEquation(state);
      PopExec(state.exec);
      Enlist(t, t.when + t.period, t.period, t.references, state.(exec := state.exec[1..]));
      Become(ListSpec.AfterFinishOne(state));
    }

    method LetGo(t: Timer)
      requires Valid() && exec != [] && t == exec[0]
      requires !(t.status == WaitForExecution && t.period != 0)
      modifies this, list, common, timers
      ensures Valid() && timers == old(timers) && exec == old(exec)[1..]
      ensures state == ListSpec.AfterFinishOne(old(state))
    {
      hide ListSpec.Inv, Sound, Counted, Distinct, ListSpec.AfterFinishOne, Lifecycle.AfterFinishOne;
      hide ListSpec.Insert, InfosAgree, Put, Forward, Backward;
      ExecHead();
      ListSpec.FinishOneEquation(state);
      PopExec(state.exec);
      common.DecTimerCount(t.period);
      t.Update(Deactivated, t.period, t.references - 1, timers, state.life.info);
      Become(ListSpec.AfterFinishOne(state));
    }

    /** Reschedules the periodic timers of the execution list and lets go of the others. */
    method UtilizeExecList(h: Timer?)
      requires Valid() && h == Node(exec, 0)
      modifies this, list, common, timers
      ensures Valid() && timers == old(timers) && exec == []
      ensures state == ListSpec.AfterFinish(old(state))
    {
      hide ListSpec.Inv, Sound, Counted, Distinct, InfosAgree, ListSpec.AfterFinishOne;
      var head := h;
      while head != null
        invariant Valid() && timers == old(timers) && head == Node(exec, 0)
        invariant ListSpec.AfterFinish(old(state)) == ListSpec.AfterFinish(state)
        decreases |exec|
      {
        ExecMembership(0);
        var t := head;
        head := head.next;
        if t.status == WaitForExecution && t.period != 0 {
          Repeat(t);
        } else {
          LetGo(t);
        }
      }
    }

    /** A pass deletes no timer that a smart pointer refers to. */
    lemma BeginKeepsHolders(now: int, r: Registry)
      requires Valid() && exec == [] && state.exec == [] && r.Accounts(state.life.info)
      ensures r.Accounts(ListSpec.AfterBegin(state, now).life.info)
    {
      hide ListSpec.AfterBegin;
      ListSpec.BeginEquation(state, now);
      var due := ListSpec.Timers(state.queue)[..ListSpec.Elapsed(state.queue, now)];
      MarkedKeepsHolders(state.life.info, due);
      r.StillAccounts(state.life.info, Marked(state.life.info, due));
    }

    lemma EndKeepsHolders(r: Registry)
      requires Valid() && r.Accounts(state.life.info)
      ensures r.Accounts(ListSpec.AfterFinish(state).life.info)
    {
      FinishKeepsHolders(state.life);
      r.StillAccounts(state.life.info, ListSpec.AfterFinish(state).life.info);
    }

    /** Builds the list of elapsed timers, runs their actions and settles what follows. */
    method ProcessExpiredTimers(now: int, script: seq<seq<Command<Timer>>>, r: Registry) returns (fired: seq<Timer>)
      requires r.Accounts(state.life.info)
      requires Valid() && exec == []
      requires forall i, c :: 0 <= i < |script| && c in script[i] ==> c.timer in timers
      modifies this, list, common, timers, r, r.live
      ensures Valid() && timers == old(timers) && exec == []
      ensures state == ListSpec.AfterPass(old(state), now, script)
      ensures fired == ListSpec.FiredInPass(old(state), now, script)
      ensures r.Accounts(state.life.info) && r.OnlyGrew()
    {
      hide Valid, ListSpec.Inv, Sound, Counted, Distinct, InfosAgree;
      hide ListSpec.AfterBegin, ListSpec.AfterChecks, ListSpec.AfterFinish, ListSpec.FiredFrom, r.Accounts;
      hide Forward, Backward, EntriesAgree;
      BeginParts(now);
      BeginKeepsHolders(now, r);
      fired := [];
      var h := MakeExecList(now);
      ExecLength();
      if h != null {
        fired := ExecActions(h, script, r);
        EndKeepsHolders(r);
        UtilizeExecList(h);
      }
    }

    method ClearOne(timer: Timer, ghost k: nat, ghost info: map<Timer, Info>)
      requires Forward(list.nodes) && Distinct(list.nodes) && ListKnown()
      requires k < |list.nodes| && timer == list.nodes[k]
      requires timer in info && InfosAgree(timers, Cleared(info, list.nodes[..k]))
      requires info[timer].refs > 0
      modifies timer`status, timer`period, timer`references
      ensures Forward(list.nodes)
      ensures InfosAgree(timers, Cleared(info, list.nodes[..k + 1]))
    {
      assert timer !in list.nodes[..k];
      ClearedOneMore(info, list.nodes[..k], timer);
      assert list.nodes[..k + 1] == list.nodes[..k] + [timer];
      timer.Update(Deactivated, timer.period, timer.references - 1, timers, Cleared(info, list.nodes[..k]));
    }

    /** Clearing deletes no timer that a smart pointer refers to, and brings none back. */
    lemma ClearKeepsHolders(r: Registry)
      requires Valid() && exec == [] && r.Accounts(state.life.info)
      ensures ListSpec.Inv(state) && state.exec == []
      ensures r.Accounts(ListSpec.AfterClear(state).life.info)
      ensures OnlyDeletes(state.life.info, ListSpec.AfterClear(state).life.info)
    {
      hide ListSpec.AfterClear;
      ListSpec.ClearEquation(state);
      Lifecycle.ClearKeepsHolders(state.life, ListSpec.Timers(state.queue));
      r.StillAccounts(state.life.info, Cleared(state.life.info, ListSpec.Timers(state.queue)));
    }

    /** Deactivates every timer; the engine can be used again afterwards. */
    method ClearAll()
      requires Valid() && exec == []
      modifies this, list, common, timers
      ensures Valid() && timers == old(timers) && exec == []
      ensures state == ListSpec.AfterClear(old(state))
    {
      hide ListSpec.Inv, Sound, Counted, Backward, InfosAgree, Cleared, ListSpec.AfterClear, EntriesAgree;
      QueueMembership();
      ListSpec.ClearEquation(state);
      ClearedNone(state.life.info);
      ghost var k := 0;
      while list.head != null
        invariant Forward(list.nodes) && Distinct(list.nodes) && ListKnown()
        invariant list.nodes == old(list.nodes) && timers == old(timers) && exec == [] && state == old(state)
        invariant k <= |list.nodes| && list.head == Node(list.nodes, k)
        invariant InfosAgree(timers, Cleared(state.life.info, list.nodes[..k]))
        decreases |list.nodes| - k
      {
        var t := list.head;
        list.head := list.head.next;
        ClearOne(t, k, state.life.info);
        k := k + 1;
      }
      common.ResetTimerCount();
      list.tail := null;
      assert list.nodes[..k] == list.nodes;
      list.nodes := [];
      NothingLeft();
      Become(ListSpec.AfterClear(state));
    }

    lemma NothingLeft()
      requires list.nodes == []
      ensures Forward(list.nodes) && Backward(list.nodes) && Distinct(list.nodes) && Forward([])
      ensures EntriesAgree(list.nodes, []) && EntriesAgree([], [])
    {
    }
  }
}
