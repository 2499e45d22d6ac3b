/**
  timer_wheel_engine: a ring of doubly linked lists, updated in place.  The ghost field
  `state` says what the memory stands for, and every method is proved to change it as
  WheelSpec says.
 */
module WheelEngine {
  import opened Lifecycle
  import opened Sequences
  import opened TimerObject
  import opened Holders
  import WheelSpec
  import WheelClock

  class WheelEngine {
    const wheel: seq<TimerList>
    const granularity: int
    var position: nat
    var border: int
    var processed: bool
    const common: EngineCommon

    ghost var timers: set<Timer>   // every timer this engine has allocated
    ghost var exec: seq<Timer>     // the detached execution list
    ghost var state: WheelSpec.State<Timer>

    /** The slots hold well-formed lists of the given timers. */
    ghost predicate RingAgrees(slots: seq<seq<Timer>>)
      reads `timers, wheel, timers`prev, timers`next
    {
      && |wheel| == |slots|
      && (forall i, j :: 0 <= i < j < |wheel| ==> wheel[i] != wheel[j])
      && (forall i {:trigger wheel[i].nodes} :: 0 <= i < |wheel| ==> wheel[i].nodes == slots[i])
      && (forall i, k {:trigger wheel[i].nodes[k]} ::
            0 <= i < |wheel| && 0 <= k < |wheel[i].nodes| ==> wheel[i].nodes[k] in timers)
      && (forall i {:trigger wheel[i]} :: 0 <= i < |wheel| ==> wheel[i].Valid())
    }

    ghost predicate MarksAgree(marks: map<Timer, WheelSpec.Mark>)
      reads `timers, timers`position, timers`fullRollsLeft
    {
      forall t :: t in marks ==>
        t in timers && t.position == marks[t].slot && t.fullRollsLeft == marks[t].rolls
    }

    ghost predicate Agrees()
      reads this, wheel, common, exec, timers
    {
      && InfosAgree(timers, state.life.info)
      && RingAgrees(state.slots)
      && MarksAgree(state.marks)
      && exec == state.life.exec
      && common.single == state.life.single && common.periodic == state.life.periodic
      && position == state.position && granularity == state.granularity
    }

    ghost predicate Valid()
      reads this, wheel, common, exec, timers
    {
      Agrees() && Forward(exec) && WheelSpec.Inv(state) && Counted(state.life)
    }

    static method EmptySlots(size: nat) returns (items: seq<TimerList>)
      ensures |items| == size && fresh(items)
      ensures forall i :: 0 <= i < size ==> items[i].Valid() && items[i].nodes == []
      ensures forall i, j :: 0 <= i < j < size ==> items[i] != items[j]
    {
      hide Forward, Backward, Distinct;
      items := [];
      while |items| < size
        invariant |items| <= size && fresh(items)
        invariant forall i :: 0 <= i < |items| ==> items[i].Valid() && items[i].nodes == []
        invariant forall i, j :: 0 <= i < j < |items| ==> items[i] != items[j]
      {
        var item := new TimerList();
        items := items + [item];
      }
    }

    constructor (size: nat, granularity: int, now: int)
      requires 0 < size < WheelSpec.UINT_RANGE && granularity > 0
      ensures Valid() && timers == {} && exec == [] && |wheel| == size && this.granularity == granularity
      ensures state == WheelSpec.Empty(size, granularity)
      ensures border == now + granularity && !processed
      ensures fresh(wheel) && fresh(common)
    {
      var items := EmptySlots(size);
      wheel, this.granularity := items, granularity;
      common := new EngineCommon();
      position, border, processed := 0, now + granularity, false;
      timers, exec := {}, [];
      state := WheelSpec.Empty(size, granularity);
    }

    /** A timer that a client can name: it was allocated here and not deleted. */
    ghost predicate Known(t: Timer)
      reads this, t
    {
      t in timers && t.references > 0
    }

    /** No timer is in two slots, or in a slot and in the execution list. */
    ghost predicate Apart(slots: seq<seq<Timer>>)
      reads `exec
    {
      && (forall i, j, t {:trigger t in slots[i], t in slots[j]} ::
            0 <= i < |slots| && 0 <= j < |slots| && i != j && t in slots[i] ==> t !in slots[j])
      && (forall i, t {:trigger t in slots[i]} :: 0 <= i < |slots| && t in exec ==> t !in slots[i])
    }

    lemma RingApart()
      requires Valid()
      ensures Apart(state.slots)
    {
      assert forall i, t {:trigger t in state.slots[i]} :: 0 <= i < |state.slots| && t in exec ==> t !in state.slots[i];
    }

    /** Where a timer can be, by its status. */
    lemma Placement(timer: Timer)
      requires Valid() && Known(timer)
      ensures timer in state.life.info && state.life.info[timer] == InfoOf(timer)
      ensures timer.status == Active ==>
        timer in state.marks && timer.position == state.marks[timer].slot < |wheel|
        && timer in state.slots[timer.position]
      ensures timer.status != Active ==>
        timer !in state.marks && forall i :: 0 <= i < |state.slots| ==> timer !in state.slots[i]
      ensures timer in exec <==> InExec(InfoOf(timer))
      ensures Apart(state.slots)
      ensures |wheel| == |state.slots| > 0
      ensures granularity > 0
    {
      RingApart();
    }

    method InsertDemandToWheel(timer: Timer, ghost slots: seq<seq<Timer>>)
      requires RingAgrees(slots) && Apart(slots) && Forward(exec)
      requires timer in timers && timer !in exec && timer.position < |wheel|
      requires forall i :: 0 <= i < |slots| ==> timer !in slots[i]
      modifies wheel, timers`prev, timers`next
      ensures RingAgrees(slots[timer.position := slots[timer.position] + [timer]])
      ensures Forward(exec)
    {
      hide Distinct, Backward, Forward;
      var item := wheel[timer.position];
      Separate(slots, timer.position);
      InsertAtSlices(item.nodes, |item.nodes|, timer);
      item.Link(item.tail, timer, |item.nodes|);
    }

    /** The other lists share no node with the one of slot `p`. */
    lemma Separate(slots: seq<seq<Timer>>, p: nat)
      requires RingAgrees(slots) && Apart(slots) && p < |slots|
      ensures forall i, k, m {:trigger wheel[i].nodes[k], wheel[p].nodes[m]} ::
        0 <= i < |wheel| && i != p && 0 <= k < |wheel[i].nodes| && 0 <= m < |wheel[p].nodes|
        ==> wheel[i].nodes[k] != wheel[p].nodes[m]
      ensures forall k, m {:trigger exec[k], wheel[p].nodes[m]} ::
        0 <= k < |exec| && 0 <= m < |wheel[p].nodes| ==> exec[k] != wheel[p].nodes[m]
    {
      forall i, k, m | 0 <= i < |wheel| && i != p && 0 <= k < |wheel[i].nodes| && 0 <= m < |wheel[p].nodes|
        ensures wheel[i].nodes[k] != wheel[p].nodes[m]
      {
        assert slots[i][k] in slots[i] && slots[p][m] in slots[p];
      }
      forall k, m | 0 <= k < |exec| && 0 <= m < |wheel[p].nodes|
        ensures exec[k] != wheel[p].nodes[m]
      {
        assert slots[p][m] in slots[p];
      }
    }

    method RemoveTimerFromWheel(timer: Timer, ghost slots: seq<seq<Timer>>)
      requires RingAgrees(slots) && Apart(slots) && Forward(exec)
      requires timer.position < |slots| && timer in slots[timer.position]
      modifies wheel, timers`prev, timers`next
      ensures RingAgrees(slots[timer.position := Without(slots[timer.position], timer)])
      ensures Forward(exec) && timer.next == old(timer.next)
    {
      hide Distinct, Backward, Forward;
      var item := wheel[timer.position];
      Separate(slots, timer.position);
      ghost var k := IndexOf(item.nodes, timer);
      item.Unlink(timer, k);
    }

    /** `set_position_in_the_wheel`: the sum is one of unsigned ints. */
    method SetPositionInTheWheel(timer: Timer, ticks: nat)
      requires |wheel| > 0
      modifies timer`position, timer`fullRollsLeft
      ensures WheelSpec.Mark(timer.position, timer.fullRollsLeft) == WheelSpec.MarkFor(position, |wheel|, ticks)
    {
      timer.position := ((position + ticks) % WheelSpec.UINT_RANGE) % |wheel|;
      timer.fullRollsLeft := ticks / |wheel|;
    }

    /** Notes in a timer its place for the given number of ticks, and makes it active. */
    method Mark(timer: Timer, ticks: nat, period: int, references: nat, ghost s: WheelSpec.State<Timer>)
      requires timer in timers && timer.references > 0 && references > 0 && |wheel| > 0
      requires InfosAgree(timers, s.life.info) && MarksAgree(s.marks) && timer !in s.marks
      modifies timer`position, timer`fullRollsLeft, timer`status, timer`period, timer`references
      ensures InfosAgree(timers, s.life.info[timer := Info(Active, period, references, timer.holders)])
      ensures var m := WheelSpec.MarkFor(position, |wheel|, ticks);
              timer.position == m.slot && MarksAgree(s.marks[timer := m])
    {
      hide WheelSpec.MarkFor, InfosAgree;
      SetPositionInTheWheel(timer, ticks);
      timer.Update(Active, period, references, timers, s.life.info);
    }

    /** Gives a timer its place for the given number of ticks, links it and makes it active. */
    method Enlist(timer: Timer, ticks: nat, period: int, references: nat, ghost s: WheelSpec.State<Timer>)
      requires timer in timers && timer.references > 0 && references > 0 && |wheel| > 0
      requires RingAgrees(s.slots) && Apart(s.slots) && Forward(exec) && timer !in exec
      requires InfosAgree(timers, s.life.info) && MarksAgree(s.marks) && timer !in s.marks
      requires forall i :: 0 <= i < |s.slots| ==> timer !in s.slots[i]
      modifies wheel, timers
      ensures Forward(exec)
      ensures InfosAgree(timers, s.life.info[timer := Info(Active, period, references, old(timer.holders))])
      ensures var m := WheelSpec.MarkFor(position, |wheel|, ticks);
              && |wheel| == |s.slots| && MarksAgree(s.marks[timer := m])
              && RingAgrees(WheelSpec.Appended(s.slots, m.slot, timer))
    {
      hide Distinct, Backward, Forward, WheelSpec.MarkFor;
      MarkInRange(ticks);
      Mark(timer, ticks, period, references, s);
      InsertDemandToWheel(timer, s.slots);
    }

    lemma MarkInRange(ticks: nat)
      requires |wheel| > 0
      ensures WheelSpec.MarkFor(position, |wheel|, ticks).slot < |wheel|
    {
    }

    /** Records what the memory stands for now. */
    ghost method Become(r: WheelSpec.State<Timer>)
      requires InfosAgree(timers, r.life.info)
      requires MarksAgree(r.marks)
      requires RingAgrees(r.slots)
      requires Forward(exec) && exec == r.life.exec
      requires common.single == r.life.single && common.periodic == r.life.periodic
      requires position == r.position && granularity == r.granularity
      requires WheelSpec.Inv(r) && Counted(r.life)
      modifies `state
      ensures state == r && Valid()
    {
      hide WheelSpec.Inv, Counted, InfosAgree, MarksAgree, RingAgrees, Forward;
      state := r;
    }

    // ---------------------------------------------------------------- calls

    /** `duration_to_ticks`, with the truncating division and the cast of C++. */
    method DurationToTicks(d: int) returns (r: nat)
      requires granularity > 0
      ensures r == WheelSpec.DurationToTicks(d, granularity)
    {
      r := WheelSpec.Quotient(d + granularity / 2, granularity) % WheelSpec.UINT_RANGE;
      if r == 0 {
        r := 1;
      }
    }

    /** A zero period is kept: the timer is single-shot. */
    method PeriodToTicks(period: int) returns (r: nat)
      requires granularity > 0
      ensures r == WheelSpec.StoredPeriod(period, granularity)
    {
      r := 0;
      if period != 0 {
        r := DurationToTicks(period);
      }
    }

    /** The part of `activate` behind its check. */
    method Start(timer: Timer, pause: int, period: int)
      requires Valid() && Known(timer) && timer.status == Deactivated
      modifies this, wheel, common, timers
      ensures Valid() && timers == old(timers) && exec == old(exec)
      ensures border == old(border) && processed == old(processed)
      ensures state == WheelSpec.AfterActivate(old(state), timer, pause, period)
    {
      hide WheelSpec.Inv, Sound, Counted, WheelSpec.AfterActivate, Lifecycle.AfterActivate, WheelSpec.MarkFor;
      hide RingAgrees, MarksAgree, Apart, Forward, Backward, Distinct, InfosAgree, WheelSpec.DurationToTicks;
      hide WheelSpec.StoredPeriod, WheelSpec.Appended;
      Placement(timer);
      WheelSpec.ActivateEquation(state, timer, pause, period);
      var ticks := DurationToTicks(pause);
      var stored := PeriodToTicks(period);
      Enlist(timer, ticks, stored, timer.references + 1, state);
      common.IncTimerCount(stored);
      Become(WheelSpec.AfterActivate(state, timer, pause, period));
    }

    method Activate(timer: Timer, pause: int, period: int) returns (r: Outcome)
      requires Valid() && Known(timer)
      modifies this, wheel, common, timers
      ensures Valid() && timers == old(timers) && exec == old(exec)
      ensures border == old(border) && processed == old(processed)
      ensures r == WheelSpec.ActivateOutcome(old(state), timer, pause, period)
      ensures state == WheelSpec.AfterActivate(old(state), timer, pause, period)
    {
      hide WheelSpec.Inv, Sound, Counted, RingAgrees, MarksAgree, Apart, Forward, Backward, Distinct, InfosAgree;
      Placement(timer);
      if timer.status != Deactivated {
        return Failed(NotDeactivated);
      }
      Start(timer, pause, period);
      r := Done(common.single + common.periodic == 1);
    }

    /** Unlinks a timer and deactivates it. */
    method Delist(timer: Timer, ghost s: WheelSpec.State<Timer>)
      requires RingAgrees(s.slots) && Apart(s.slots) && Forward(exec) && timer !in exec
      requires timer in s.marks && MarksAgree(s.marks) && InfosAgree(timers, s.life.info)
      requires timer.references > 0 && timer.position < |s.slots| && timer in s.slots[timer.position]
      modifies wheel, timers
      ensures Forward(exec) && MarksAgree(s.marks - {timer})
      ensures InfosAgree(timers, Put(s.life.info, timer,
                Info(Deactivated, timer.period, old(timer.references) - 1, timer.holders)))
      ensures RingAgrees(s.slots[old(timer.position) := Without(s.slots[old(timer.position)], timer)])
      ensures timer.period == old(timer.period) && timer.holders == old(timer.holders)
    {
      hide Distinct, Backward, Forward, Without, Put, InfosAgree, RingAgrees, Apart;
      RemoveTimerFromWheel(timer, s.slots);
      timer.Update(Deactivated, timer.period, timer.references - 1, timers, s.life.info);
    }

    /** Takes out a timer that is linked. */
    method Stop(timer: Timer)
      requires Valid() && Known(timer) && timer.status == Active
      modifies this, wheel, common, timers
      ensures Valid() && timers == old(timers) && exec == old(exec)
      ensures border == old(border) && processed == old(processed)
      ensures state == WheelSpec.AfterDeactivate(old(state), timer)
    {
      hide WheelSpec.Inv, Sound, Counted, WheelSpec.AfterDeactivate, Lifecycle.AfterDeactivate;
      hide RingAgrees, Apart, Forward, Backward, Distinct, InfosAgree, Without, Put;
      Placement(timer);
      WheelSpec.DeactivateEquation(state, timer);
      Delist(timer, state);
      common.DecTimerCount(timer.period);
      Become(WheelSpec.AfterDeactivate(state, timer));
    }

    method Deactivate(timer: Timer)
      requires Valid() && Known(timer)
      modifies this, wheel, common, timers
      ensures Valid() && timers == old(timers) && exec == old(exec)
      ensures border == old(border) && processed == old(processed)
      ensures state == WheelSpec.AfterDeactivate(old(state), timer)
    {
      hide WheelSpec.Inv, Sound, Counted, WheelSpec.AfterDeactivate, Lifecycle.AfterDeactivate;
      hide Distinct, InfosAgree, Put, Apart, Backward, Forward, RingAgrees, MarksAgree;
      Placement(timer);
      WheelSpec.DeactivateEquation(state, timer);
      if timer.status == Active {
        Stop(timer);
      } else if timer.status == WaitForExecution {
        timer.Update(WaitForDeactivation, timer.period, timer.references, timers, state.life.info);
        Become(WheelSpec.AfterDeactivate(state, timer));
      }
    }

    /** Without its timer the rest of the ring is as before. */
    lemma Unlinked(slots: seq<seq<Timer>>, timer: Timer)
      requires RingAgrees(slots) && Apart(slots) && timer.position < |slots| && timer in slots[timer.position]
      ensures var rest := slots[timer.position := Without(slots[timer.position], timer)];
              && Apart(rest) && forall i :: 0 <= i < |rest| ==> timer !in rest[i]
    {
      hide Forward, Backward, Without;
      assert Distinct(wheel[timer.position].nodes);
      WithoutMembers(slots[timer.position], timer);
    }

    /** Moves a linked timer to the place of its new time. */
    method Relist(timer: Timer, ticks: nat, period: int, ghost s: WheelSpec.State<Timer>)
      requires RingAgrees(s.slots) && Apart(s.slots) && Forward(exec) && timer !in exec
      requires |wheel| > 0 && timer in s.marks && MarksAgree(s.marks) && InfosAgree(timers, s.life.info)
      requires timer.references > 0 && timer.position < |s.slots| && timer in s.slots[timer.position]
      modifies wheel, timers
      ensures Forward(exec)
      ensures InfosAgree(timers,
                s.life.info[timer := Info(Active, period, old(timer.references), old(timer.holders))])
      ensures var m := WheelSpec.MarkFor(position, |wheel|, ticks);
              && |wheel| == |s.slots| && MarksAgree((s.marks - {timer})[timer := m])
              && RingAgrees(WheelSpec.Appended(
                   s.slots[old(timer.position) := Without(s.slots[old(timer.position)], timer)], m.slot, timer))
    {
      hide Distinct, Backward, Forward, Without, InfosAgree, RingAgrees, Apart, WheelSpec.MarkFor, WheelSpec.Appended;
      Unlinked(s.slots, timer);
      ghost var rest := s.slots[timer.position := Without(s.slots[timer.position], timer)];
      RemoveTimerFromWheel(timer, s.slots);
      Enlist(timer, ticks, period, timer.references, s.(slots := rest, marks := s.marks - {timer}));
    }

    /** The part of `reschedule` behind its checks. */
    method Restart(timer: Timer, pause: int, period: int)
      requires Valid() && Known(timer) && timer.status == Active
      modifies this, wheel, common, timers
      ensures Valid() && timers == old(timers) && exec == old(exec)
      ensures border == old(border) && processed == old(processed)
      ensures state == WheelSpec.AfterReschedule(old(state), timer, pause, period)
    {
      hide WheelSpec.Inv, Sound, Counted, WheelSpec.AfterReschedule, Lifecycle.AfterReschedule, WheelSpec.MarkFor;
      hide RingAgrees, MarksAgree, Apart, Forward, Backward, Distinct, InfosAgree, WheelSpec.DurationToTicks;
      hide WheelSpec.StoredPeriod, WheelSpec.Appended, Without;
      Placement(timer);
      WheelSpec.RescheduleEquation(state, timer, pause, period);
      var ticks := DurationToTicks(pause);
      var stored := PeriodToTicks(period);
      common.DecTimerCount(timer.period);
      Relist(timer, ticks, stored, state);
      common.IncTimerCount(stored);
      Become(WheelSpec.AfterReschedule(state, timer, pause, period));
    }

    method Reschedule(timer: Timer, pause: int, period: int) returns (r: Outcome)
      requires Valid() && Known(timer)
      modifies this, wheel, common, timers
      ensures Valid() && timers == old(timers) && exec == old(exec)
      ensures border == old(border) && processed == old(processed)
      ensures r == WheelSpec.RescheduleOutcome(old(state), timer, pause, period)
      ensures state == WheelSpec.AfterReschedule(old(state), timer, pause, period)
    {
      hide WheelSpec.Inv, Sound, Counted, RingAgrees, MarksAgree, Apart, Forward, Backward, Distinct, InfosAgree;
      hide WheelSpec.AfterActivate;
      Placement(timer);
      if timer.status == Deactivated {
        r := Activate(timer, pause, period);
      } else if timer.status != Active {
        r := Failed(InProcessing);
      } else {
        Restart(timer, pause, period);
        r := Done(false);
      }
    }

    lemma Unknown(timer: Timer)
      requires Valid() && timer !in timers
      ensures timer !in state.life.info
    {
    }

    /** Enters a new timer in the books. */
    ghost method Register(timer: Timer, s: WheelSpec.State<Timer>)
      requires timer !in timers && timer.references > 0
      requires RingAgrees(s.slots) && MarksAgree(s.marks) && InfosAgree(timers, s.life.info)
      modifies `timers
      ensures timers == old(timers) + {timer}
      ensures RingAgrees(s.slots) && MarksAgree(s.marks)
      ensures InfosAgree(timers, s.life.info[timer := InfoOf(timer)])
    {
      timers := timers + {timer};
    }

    /** `allocate`: the smart pointer that is returned is the first one to refer to the timer.
        The constructor of a scoped timer does the same for a timer that it contains, which
        keeps it from being deleted: then `h` stands for the scoped object. */
    method Allocate(r: Registry) returns (h: Holder)
      requires Valid() && r.Accounts(state.life.info)
      modifies this, r
      ensures Valid() && exec == old(exec) && border == old(border) && processed == old(processed)
      ensures fresh(h) && h.timer != null && fresh(h.timer) && timers == old(timers) + {h.timer}
      ensures h.timer !in old(state).life.info && state == WheelSpec.AfterAllocate(old(state), h.timer)
      ensures r.live == old(r.live) + {h} && r.Accounts(state.life.info)
    {
      hide WheelSpec.Inv, Sound, Counted, Distinct, WheelSpec.AfterAllocate, Forward, Backward;
      hide RingAgrees, MarksAgree, InfosAgree, r.Accounts;
      h := NewTimer(r, state.life.info);
      Unknown(h.timer);
      Register(h.timer, state);
      WheelSpec.AllocateEquation(state, h.timer);
      Become(WheelSpec.AfterAllocate(state, h.timer));
    }

    /** A smart pointer starts to refer to the timer. */
    method TakeObject(h: Holder, timer: Timer, ghost r: Registry)
      requires Valid() && Known(timer) && r.Accounts(state.life.info) && h in r.live && h.timer == null
      modifies `state, h, timer`references, timer`holders
      ensures Valid() && h.timer == timer
      ensures state == WheelSpec.After(old(state), Hold(timer)) && r.Accounts(state.life.info)
    {
      hide WheelSpec.Inv, Sound, Counted, Distinct, WheelSpec.After, InfosAgree, RingAgrees, MarksAgree, Forward;
      hide r.Accounts;
      Placement(timer);
      WheelSpec.CallKeepsCount(state, Hold(timer));
      WheelSpec.HoldEquation(state, timer);
      Take(h, timer, r, timers, state.life.info);
      Become(WheelSpec.After(state, Hold(timer)));
    }

    /** A smart pointer stops to refer to its timer. */
    method DismissObject(h: Holder, ghost r: Registry)
      requires Valid() && r.Accounts(state.life.info) && h in r.live && h.timer != null
      modifies `state, h, h.timer`references, h.timer`holders
      ensures Valid() && h.timer == null
      ensures state == WheelSpec.After(old(state), Drop(old(h.timer))) && r.Accounts(state.life.info)
    {
      hide WheelSpec.Inv, Counted, Distinct, WheelSpec.After, InfosAgree, RingAgrees, MarksAgree, Forward;
      hide r.Accounts;
      ghost var timer: Timer := h.timer;
      SoundBooks();
      Dismiss(h, r, timers, state.life.info);
      WheelSpec.CallKeepsCount(state, Drop(timer));
      WheelSpec.HoldEquation(state, timer);
      Become(WheelSpec.After(state, Drop(timer)));
    }

    lemma SoundBooks()
      requires Valid()
      ensures forall t :: t in state.life.info ==> state.life.info[t].holders <= state.life.info[t].refs
    {
      forall t | t in state.life.info
        ensures state.life.info[t].holders <= state.life.info[t].refs
      {
        assert Balanced(state.life.info[t]);
      }
    }

    lemma HoldersOf(timer: Timer)
      requires Valid() && Known(timer)
      ensures timer in state.life.info && state.life.info[timer].holders == timer.holders
    {
      Placement(timer);
    }

    /** A new smart pointer refers to the timer. */
    method PointTo(timer: Timer, r: Registry)
      requires Valid() && Known(timer) && r.Accounts(state.life.info)
      modifies `state, r, timer`references, timer`holders
      ensures Valid() && state == WheelSpec.After(old(state), Hold(timer))
      ensures r.Accounts(state.life.info) && r.OnlyGrew()
    {
      hide Valid, WheelSpec.After, r.Accounts;
      var h := new Holder(r, state.life.info);
      TakeObject(h, timer, r);
    }

    /** Some smart pointer that refers to the timer lets go of it. */
    method PointAway(timer: Timer, r: Registry)
      requires Valid() && Known(timer) && timer.holders > 0 && r.Accounts(state.life.info)
      modifies `state, r.live, timer`references, timer`holders
      ensures Valid() && state == WheelSpec.After(old(state), Drop(timer))
      ensures r.Accounts(state.life.info) && r.OnlyGrew()
    {
      hide Valid, WheelSpec.After, r.Accounts;
      HoldersOf(timer);
      r.SomePointer(state.life.info, timer);
      var h :| h in r.live && h.timer == timer;
      DismissObject(h, r);
    }

    /** A smart pointer comes, or goes if there is one. */
    method PointerCall(c: Command<Timer>, r: Registry)
      requires Valid() && Known(c.timer) && (c.Hold? || c.Drop?) && r.Accounts(state.life.info)
      modifies `state, r, r.live, c.timer`references, c.timer`holders
      ensures Valid() && state == WheelSpec.After(old(state), c)
      ensures r.Accounts(state.life.info) && r.OnlyGrew()
    {
      hide Valid, WheelSpec.After, r.Accounts;
      if c.Hold? {
        PointTo(c.timer, r);
      } else if c.timer.holders > 0 {
        PointAway(c.timer, r);
      } else {
        NothingToDrop(c.timer);
      }
    }

    lemma NothingToDrop(timer: Timer)
      requires Valid() && Known(timer) && timer.holders == 0
      ensures WheelSpec.Inv(state) && WheelSpec.After(state, Drop(timer)) == state
    {
      hide WheelSpec.Inv, WheelSpec.After;
      InvHere();
      Placement(timer);
      WheelSpec.HoldEquation(state, timer);
    }

    lemma InvHere()
      requires Valid()
      ensures WheelSpec.Inv(state)
    {
    }

    /** A call made by a client, or a smart pointer that comes or goes; nobody can make a call
        for a timer that was deleted. */
    method Call(c: Command<Timer>, r: Registry)
      requires Valid() && c.timer in timers && r.Accounts(state.life.info)
      modifies this, wheel, common, timers, r, r.live
      ensures Valid() && timers == old(timers) && exec == old(exec)
      ensures border == old(border) && processed == old(processed)
      ensures state == WheelSpec.After(old(state), c)
      ensures r.Accounts(state.life.info) && r.OnlyGrew()
    {
      hide Valid, WheelSpec.Inv, Sound, Counted, Distinct, RingAgrees, MarksAgree, Forward, Backward, r.Accounts, Apart;
      hide InfosAgree, WheelSpec.After;
      Excluded(c);
      if c.timer.references > 0 {
        Placement(c.timer);
        if c.Hold? || c.Drop? {
          PointerCall(c, r);
        } else {
          var _ := EngineCall(c, r);
        }
      }
    }

    /** The calls that nobody can make. */
    lemma Excluded(c: Command<Timer>)
      requires Valid() && c.timer in timers
      ensures c.timer.references == 0 ==> WheelSpec.After(state, c) == state
      ensures c.timer.references > 0 && c.timer.holders == 0 && c.Drop? ==> WheelSpec.After(state, c) == state
    {
      hide WheelSpec.Linked, Sound, Counted, RingAgrees, MarksAgree, Forward;
    }

    /** A call that is not about smart pointers. */
    method EngineCall(c: Command<Timer>, ghost r: Registry) returns (outcome: Outcome)
      requires Valid() && Known(c.timer) && !c.Hold? && !c.Drop? && r.Accounts(state.life.info)
      modifies this, wheel, common, timers
      ensures Valid() && timers == old(timers) && exec == old(exec)
      ensures border == old(border) && processed == old(processed)
      ensures state == WheelSpec.After(old(state), c)
      ensures old(WheelSpec.Inv(state) && c.timer in state.life.info) && outcome == old(WheelSpec.Answer(state, c))
      ensures Sound(old(state.life)) && old(state.granularity) > 0
      ensures state.life == Lifecycle.After(old(state.life), WheelSpec.Stored(c, old(state.granularity)))
      ensures r.Accounts(state.life.info) && OnlyDeletes(old(state.life.info), state.life.info)
    {
      hide WheelSpec.Inv, Sound, Counted, Distinct, RingAgrees, MarksAgree, Forward, Backward;
      hide WheelSpec.AfterActivate, WheelSpec.AfterReschedule, WheelSpec.AfterDeactivate;
      ghost var before := state;
      match c {
        case Activate(t, clock, pause, period) =>
          outcome := Activate(t, pause, period);
        case Reschedule(t, clock, pause, period) =>
          outcome := Reschedule(t, pause, period);
        case Deactivate(t) =>
          Deactivate(t);
          outcome := Done(false);
      }
      KeepsHolders(before, c, r);
    }

    lemma KeepsHolders(before: WheelSpec.State<Timer>, c: Command<Timer>, r: Registry)
      requires WheelSpec.Inv(before) && state == WheelSpec.After(before, c) && !c.Hold? && !c.Drop?
      requires r.Accounts(before.life.info)
      ensures Sound(before.life) && before.granularity > 0
      ensures state.life == Lifecycle.After(before.life, WheelSpec.Stored(c, before.granularity))
      ensures r.Accounts(state.life.info) && OnlyDeletes(before.life.info, state.life.info)
    {
      hide WheelSpec.After, Lifecycle.After;
      CallKeepsHolders(before.life, WheelSpec.Stored(c, before.granularity));
      r.StillAccounts(before.life.info, state.life.info);
    }

    method Calls(cs: seq<Command<Timer>>, r: Registry)
      requires Valid() && (forall c :: c in cs ==> c.timer in timers) && r.Accounts(state.life.info)
      modifies this, wheel, common, timers, r, r.live
      ensures Valid() && timers == old(timers) && exec == old(exec)
      ensures border == old(border) && processed == old(processed)
      ensures state == WheelSpec.AfterAll(old(state), cs)
      ensures r.Accounts(state.life.info) && r.OnlyGrew()
      decreases |cs|
    {
      hide Valid, WheelSpec.Inv, Sound, Counted, Distinct, RingAgrees, MarksAgree, Forward, InfosAgree, r.Accounts;
      if |cs| > 0 {
        Call(cs[0], r);
        Calls(cs[1..], r);
      }
    }

    // ---------------------------------------------------------------- one tick

    /** Memory while a slot is walked through. */
    ghost predicate Visiting(v: WheelSpec.State<Timer>)
      reads this, wheel, timers, exec
    {
      && InfosAgree(timers, v.life.info) && MarksAgree(v.marks)
      && RingAgrees(v.slots) && Apart(v.slots)
      && Forward(exec) && exec == v.life.exec && forall t :: t in exec ==> t in timers
    }

    /** The timer to be visited next. */
    lemma NextVisited(s: WheelSpec.State<Timer>, k: nat)
      requires WheelSpec.Inv(s) && s.life.exec == [] && k < |s.slots[s.position]|
      requires Visiting(WheelSpec.Visited(s, k))
      ensures var q, v := s.slots[s.position], WheelSpec.Visited(s, k);
              && q[k] in timers && q[k].next == Node(q, k + 1) && q[k] !in exec
              && q[k].position == s.position < |v.slots| && q[k] in v.slots[s.position]
              && q[k] in v.marks && q[k] in v.life.info && v.life.info[q[k]] == InfoOf(q[k]) && q[k].references > 0
              && q[k].fullRollsLeft == v.marks[q[k]].rolls
              && |wheel| > 0
    {
      hide WheelSpec.Due, Distinct, WheelSpec.Placed, Sound, Apart;
      var p, q, v := s.position, s.slots[s.position], WheelSpec.Visited(s, k);
      WheelSpec.VisitedNext(s, k);
      var kept := WheelSpec.Kept(q[..k], s.marks);
      assert v.slots[p] == kept + q[k..];
      assert wheel[p].nodes[|kept|] == q[k] && wheel[p].nodes[|kept|].next == Node(q, k + 1);
    }

    /** A timer that is due goes from the wheel to the end of the execution list. */
    method Elapse(t: Timer, head: Timer?, tail: Timer?, ghost s: WheelSpec.State<Timer>, ghost k: nat)
      returns (newHead: Timer?, newTail: Timer?)
      requires WheelSpec.Inv(s) && s.life.exec == [] && k < |s.slots[s.position]| && t == s.slots[s.position][k]
      requires s.position < |s.slots| && Visiting(WheelSpec.Visited(s, k)) && t.fullRollsLeft == 0
      requires head == Node(exec, 0) && tail == Node(exec, |exec| - 1)
      modifies `exec, wheel, timers
      ensures Visiting(WheelSpec.Visited(s, k + 1))
      ensures newHead == Node(exec, 0) && newTail == Node(exec, |exec| - 1)
    {
      hide WheelSpec.Inv, WheelSpec.Visited, RingAgrees, MarksAgree, Apart, Forward, Distinct, InfosAgree, Without, Put;
      ghost var v := WheelSpec.Visited(s, k);
      NextVisited(s, k);
      WheelSpec.VisitedOneMore(s, k);
      Unlinked(v.slots, t);
      RemoveTimerFromWheel(t, v.slots);
      t.Update(WaitForExecution, t.period, t.references, timers, v.life.info);
      newHead, newTail := Chain(t, head, tail, v.slots[t.position := Without(v.slots[t.position], t)]);
      Unmarked(v.marks, t);
    }

    lemma Unmarked(marks: map<Timer, WheelSpec.Mark>, t: Timer)
      requires MarksAgree(marks)
      ensures MarksAgree(marks - {t})
    {
    }

    /** Links a timer behind the execution list. */
    method Chain(t: Timer, head: Timer?, tail: Timer?, ghost slots: seq<seq<Timer>>)
      returns (newHead: Timer?, newTail: Timer?)
      requires RingAgrees(slots) && Apart(slots) && Forward(exec)
      requires t in timers && t !in exec && forall u :: u in exec ==> u in timers
      requires forall i :: 0 <= i < |slots| ==> t !in slots[i]
      requires head == Node(exec, 0) && tail == Node(exec, |exec| - 1)
      modifies `exec, timers`prev, timers`next
      ensures exec == old(exec) + [t] && Forward(exec) && RingAgrees(slots) && Apart(slots)
      ensures newHead == Node(exec, 0) && newTail == Node(exec, |exec| - 1)
      ensures forall u :: u in exec ==> u in timers
    {
      hide Backward, Distinct;
      forall i, n | 0 <= i < |wheel| && 0 <= n < |wheel[i].nodes|
        ensures wheel[i].nodes[n] != t && wheel[i].nodes[n] != tail
      {
        assert slots[i][n] in slots[i];
      }
      ghost var q := exec;
      forall i {:trigger q[i]} | 0 <= i < |q|
        ensures q[i] != t && (i + 1 < |q| ==> q[i] != tail)
      {
        assert q[i] in exec && q[i].next == Node(q, i + 1);
      }
      newHead, newTail := head, t;
      if head != null {
        tail.next := t;
        t.prev := tail;
        t.next := null;
      } else {
        newHead := t;
        t.prev, t.next := null, null;
      }
      exec := exec + [t];
      forall i | 0 <= i < |exec|
        ensures exec[i].next == Node(exec, i + 1)
      {
        assert i < |q| ==> exec[i] == q[i];
      }
    }

    /** A timer that has rolls left stays where it is. */
    method Roll(t: Timer, ghost s: WheelSpec.State<Timer>, ghost k: nat)
      requires WheelSpec.Inv(s) && s.life.exec == [] && s.position < |s.slots|
      requires k < |s.slots[s.position]| && t == s.slots[s.position][k]
      requires Visiting(WheelSpec.Visited(s, k)) && t.fullRollsLeft > 0
      modifies t`fullRollsLeft
      ensures Visiting(WheelSpec.Visited(s, k + 1))
    {
      hide WheelSpec.Inv, WheelSpec.Visited, RingAgrees, Apart, Forward, Distinct, InfosAgree;
      NextVisited(s, k);
      WheelSpec.VisitedOneMore(s, k);
      t.fullRollsLeft := t.fullRollsLeft - 1;
    }

    lemma BeforeVisits()
      requires Valid() && exec == []
      ensures state.position < |state.slots| && Visiting(WheelSpec.Visited(state, 0))
      ensures position < |wheel| && wheel[position].head == Node(state.slots[state.position], 0)
      ensures WheelSpec.Inv(state) && state.life.exec == []
    {
      WheelSpec.VisitedNone(state);
      RingApart();
      assert wheel[position].nodes == state.slots[position];
    }

    lemma AfterVisits()
      requires WheelSpec.Inv(state) && state.life.exec == [] && Counted(state.life)
      requires Visiting(WheelSpec.Visited(state, |state.slots[state.position]|))
      ensures var r := WheelSpec.AfterBegin(state);
              && InfosAgree(timers, r.life.info) && MarksAgree(r.marks) && RingAgrees(r.slots)
              && Forward(exec) && exec == r.life.exec
              && r.life.single == state.life.single && r.life.periodic == state.life.periodic
              && r.position == state.position && r.granularity == state.granularity && Counted(r.life)
    {
      hide InfosAgree, MarksAgree, RingAgrees, Forward, Apart, Counted, WheelSpec.AfterBegin, WheelSpec.Visited;
      WheelSpec.VisitedAll(state);
      WheelSpec.BeginEquation(state);
    }

    /** Takes the due timers out of the current slot, in order. */
    method MakeExecList() returns (head: Timer?)
      requires Valid() && exec == []
      modifies this, wheel, common, timers
      ensures Valid() && timers == old(timers) && border == old(border) && processed == old(processed)
      ensures state == WheelSpec.AfterBegin(old(state)) && head == Node(exec, 0)
    {
      hide WheelSpec.Inv, Sound, Counted, WheelSpec.Visited, WheelSpec.AfterBegin, Visiting;
      hide RingAgrees, MarksAgree, Apart, Forward, Backward, Distinct, InfosAgree;
      ghost var s := state;
      BeforeVisits();
      ghost var q := s.slots[s.position];
      var timer, tail: Timer? := wheel[position].head, null;
      head := null;
      ghost var k := 0;
      while timer != null
        invariant k <= |q| && timer == Node(q, k)
        invariant Visiting(WheelSpec.Visited(s, k))
        invariant head == Node(exec, 0) && tail == Node(exec, |exec| - 1)
        invariant state == s && timers == old(timers) && border == old(border) && processed == old(processed)
        invariant common.single == s.life.single && common.periodic == s.life.periodic && position == s.position
        decreases |q| - k
      {
        NextVisited(s, k);
        if timer.fullRollsLeft > 0 {
          Roll(timer, s, k);
          timer := timer.next;
        } else {
          var t := timer;
          timer := timer.next;
          head, tail := Elapse(t, head, tail, s, k);
        }
        k := k + 1;
      }
      AfterVisits();
      Become(WheelSpec.AfterBegin(s));
    }

    /** What happens until the status of timer `i` has been checked. */
    method CheckOne(t: Timer, i: nat, script: seq<seq<Command<Timer>>>, r: Registry) returns (run: seq<Timer>)
      requires Valid() && i < |exec| && t == exec[i] && exec == state.life.exec && WheelSpec.Inv(state)
      requires r.Accounts(state.life.info)
      requires forall i, c :: 0 <= i < |script| && c in script[i] ==> c.timer in timers
      modifies this, wheel, common, timers, r, r.live
      ensures Valid() && timers == old(timers) && exec == old(exec)
      ensures exec == state.life.exec && WheelSpec.Inv(state)
      ensures border == old(border) && processed == old(processed)
      ensures WheelSpec.AfterChecks(old(state), i, script) == WheelSpec.AfterChecks(state, i + 1, script)
      ensures WheelSpec.FiredFrom(old(state), i, script) == run + WheelSpec.FiredFrom(state, i + 1, script)
      ensures t.next == Node(exec, i + 1)
      ensures r.Accounts(state.life.info) && r.OnlyGrew()
    {
      hide Valid, WheelSpec.Inv, WheelSpec.AfterChecks, WheelSpec.FiredFrom, WheelSpec.AfterAll, r.Accounts;
      WheelSpec.ChecksStep(state, i, script);
      Calls(At(script, i), r);
      ExecIs();
      ExecMembership(i);
      run := if t.status == WaitForExecution then [t] else [];
    }

    /** Runs the actions of the execution list with the lock released: `script` says which
        calls clients make meanwhile, `fired` which actions are run. */
    method ExecActions(h: Timer?, script: seq<seq<Command<Timer>>>, r: Registry) returns (fired: seq<Timer>)
      requires Valid() && h == Node(exec, 0) && r.Accounts(state.life.info)
      requires forall i, c :: 0 <= i < |script| && c in script[i] ==> c.timer in timers
      modifies this, wheel, common, timers, r, r.live
      ensures Valid() && timers == old(timers) && exec == old(exec)
      ensures border == old(border) && processed == old(processed)
      ensures state == WheelSpec.AfterChecks(old(state), 0, script)
      ensures fired == WheelSpec.FiredFrom(old(state), 0, script)
      ensures r.Accounts(state.life.info) && r.OnlyGrew()
    {
      hide Valid, WheelSpec.Inv, WheelSpec.AfterChecks, WheelSpec.FiredFrom, WheelSpec.AfterAll, r.Accounts;
      ExecIs();
      ghost var end, all := WheelSpec.AfterChecks(state, 0, script), WheelSpec.FiredFrom(state, 0, script);
      var t, i := h, 0;
      fired := [];
      while t != null
        invariant Valid() && timers == old(timers) && exec == old(exec)
        invariant exec == state.life.exec && WheelSpec.Inv(state)
        invariant border == old(border) && processed == old(processed)
        invariant i <= |exec| && t == Node(exec, i)
        invariant WheelSpec.AfterChecks(state, i, script) == end
        invariant fired + WheelSpec.FiredFrom(state, i, script) == all
        invariant r.Accounts(state.life.info) && r.OnlyGrew()
        decreases |exec| - i
      {
        var run := CheckOne(t, i, script, r);
        assert fired + (run + WheelSpec.FiredFrom(state, i + 1, script))
            == fired + run + WheelSpec.FiredFrom(state, i + 1, script);
        fired := fired + run;
        t := t.next;
        i := i + 1;
      }
      WheelSpec.ChecksStep(state, i, script);
      Calls(At(script, i), r);
    }

    lemma ExecIs()
      requires Valid()
      ensures WheelSpec.Inv(state) && exec == state.life.exec
    {
    }

    lemma ExecMembership(i: nat)
      requires Valid() && i < |exec|
      ensures state.life.exec == exec && exec[i] in state.life.info
      ensures state.life.info[exec[i]] == InfoOf(exec[i])
      ensures exec[i].next == Node(exec, i + 1)
    {
      assert exec[i] in exec;
    }

    /** The head of the execution list is nowhere in the wheel. */
    lemma ExecHead()
      requires Valid() && exec != []
      ensures exec[0] in timers && exec[0].references > 0 && exec == state.life.exec && Distinct(exec)
      ensures forall i :: 0 <= i < |state.slots| ==> exec[0] !in state.slots[i]
      ensures exec[0] !in state.marks && |wheel| == |state.slots| > 0 && Apart(state.slots)
      ensures exec[0] in state.life.info && state.life.info[exec[0]] == InfoOf(exec[0])
    {
      ExecMembership(0);
      Placement(exec[0]);
    }

    /** The first timer leaves the execution list. */
    ghost method PopExec(slots: seq<seq<Timer>>)
      requires exec != [] && Distinct(exec) && Forward(exec) && Apart(slots)
      modifies `exec
      ensures exec == old(exec)[1..] && Forward(exec) && Apart(slots)
      ensures old(exec)[0] !in exec && old(exec)[0].next == Node(exec, 0)
    {
      DistinctTail(exec);
      hide Distinct;
      ghost var q := exec;
      exec := exec[1..];
      forall i | 0 <= i < |exec|
        ensures exec[i].next == Node(exec, i + 1)
      {
        assert exec[i] == q[i + 1];
      }
    }

    method Repeat(t: Timer)
      requires Valid() && exec != [] && t == exec[0]
      requires t.status == WaitForExecution && t.period > 0
      modifies this, wheel, common, timers
      ensures Valid() && timers == old(timers) && exec == old(exec)[1..]
      ensures border == old(border) && processed == old(processed)
      ensures state == WheelSpec.AfterFinishOne(old(state))
    {
      hide WheelSpec.Inv, Sound, Counted, Distinct, WheelSpec.AfterFinishOne, Lifecycle.AfterFinishOne;
      hide RingAgrees, MarksAgree, InfosAgree, Put, Forward, Backward, Apart, WheelSpec.MarkFor, WheelSpec.Appended;
      ExecHead();
      WheelSpec.FinishOneEquation(state);
      PopExec(state.slots);
      Enlist(t, t.period, t.period, t.references, state);
      Become(WheelSpec.AfterFinishOne(state));
    }

    method LetGo(t: Timer)
      requires Valid() && exec != [] && t == exec[0]
      requires !(t.status == WaitForExecution && t.period > 0)
      modifies this, wheel, common, timers
      ensures Valid() && timers == old(timers) && exec == old(exec)[1..]
      ensures border == old(border) && processed == old(processed)
      ensures state == WheelSpec.AfterFinishOne(old(state))
    {
      hide WheelSpec.Inv, Sound, Counted, Distinct, WheelSpec.AfterFinishOne, Lifecycle.AfterFinishOne;
      hide RingAgrees, MarksAgree, InfosAgree, Put, Forward, Backward, Apart, WheelSpec.MarkFor, WheelSpec.Appended;
      ExecHead();
      WheelSpec.FinishOneEquation(state);
      PopExec(state.slots);
      common.DecTimerCount(t.period);
      t.Update(Deactivated, t.period, t.references - 1, timers, state.life.info);
      Become(WheelSpec.AfterFinishOne(state));
    }

    /** Puts the periodic timers of the execution list back and lets go of the others. */
    method UtilizeExecList(h: Timer?)
      requires Valid() && h == Node(exec, 0)
      modifies this, wheel, common, timers
      ensures Valid() && timers == old(timers) && exec == []
      ensures border == old(border) && processed == old(processed)
      ensures state == WheelSpec.AfterFinish(old(state))
    {
      hide WheelSpec.Inv, Sound, Counted, Distinct, InfosAgree, WheelSpec.AfterFinishOne;
      hide RingAgrees, MarksAgree, Forward;
      var head := h;
      while head != null
        invariant Valid() && timers == old(timers) && head == Node(exec, 0)
        invariant border == old(border) && processed == old(processed)
        invariant WheelSpec.AfterFinish(old(state)) == WheelSpec.AfterFinish(state)
        decreases |exec|
      {
        ExecMembership(0);
        assert exec[0].next == Node(exec[1..], 0);
        var t := head;
        head := head.next;
        if t.status == WaitForExecution && t.period > 0 {
          Repeat(t);
        } else {
          LetGo(t);
        }
      }
    }

    /** A tick deletes no timer that a smart pointer refers to. */
    lemma BeginKeepsHolders(r: Registry)
      requires Valid() && state.life.exec == [] && r.Accounts(state.life.info)
      ensures r.Accounts(WheelSpec.AfterBegin(state).life.info)
    {
      hide WheelSpec.AfterBegin;
      WheelSpec.BeginEquation(state);
      var due := WheelSpec.Due(state.slots[state.position], state.marks);
      MarkedKeepsHolders(state.life.info, due);
      r.StillAccounts(state.life.info, Marked(state.life.info, due));
    }

    lemma EndKeepsHolders(r: Registry)
      requires Valid() && r.Accounts(state.life.info)
      ensures r.Accounts(WheelSpec.AfterFinish(state).life.info)
    {
      FinishKeepsHolders(state.life);
      r.StillAccounts(state.life.info, WheelSpec.AfterFinish(state).life.info);
    }

    /** `process_current_wheel_position`, and the advance of the position behind it. */
    method ProcessCurrentWheelPosition(script: seq<seq<Command<Timer>>>, r: Registry) returns (fired: seq<Timer>)
      requires r.Accounts(state.life.info)
      requires Valid() && exec == []
      requires forall i, c :: 0 <= i < |script| && c in script[i] ==> c.timer in timers
      modifies this, wheel, common, timers, r, r.live
      ensures Valid() && timers == old(timers) && exec == []
      ensures border == old(border) && processed == old(processed)
      ensures state == WheelSpec.AfterTick(old(state), script)
      ensures fired == WheelSpec.FiredInTick(old(state), script)
      ensures r.Accounts(state.life.info) && r.OnlyGrew()
    {
      hide Valid, WheelSpec.Inv, Sound, Counted, Distinct, InfosAgree, RingAgrees, MarksAgree, Forward;
      hide WheelSpec.AfterBegin, WheelSpec.AfterChecks, WheelSpec.AfterFinish, WheelSpec.FiredFrom, r.Accounts;
      ExecIs();
      fired := [];
      BeginKeepsHolders(r);
      var h := MakeExecList();
      ExecIs();
      if h != null {
        fired := ExecActions(h, script, r);
        ExecIs();
        EndKeepsHolders(r);
        UtilizeExecList(h);
      }
      Advance();
    }

    /** The position moves on by one slot, around the ring. */
    method Advance()
      requires Valid() && exec == []
      modifies this
      ensures Valid() && timers == old(timers) && exec == []
      ensures border == old(border) && processed == old(processed)
      ensures state == old(state).(position := WheelSpec.NextPosition(old(state)))
    {
      hide Sound, Counted, Distinct, InfosAgree, MarksAgree, Forward;
      ghost var s := state;
      assert |wheel| == |s.slots|;
      position := position + 1;
      if position >= |wheel| {
        position := 0;
      }
      Become(s.(position := WheelSpec.NextPosition(s)));
    }

    ghost function Now(): WheelClock.Clocked<Timer>
      reads this
    {
      WheelClock.Clocked(state, border, processed)
    }

    lemma ClockReady()
      requires Valid() && exec == []
      ensures granularity > 0 && WheelClock.Ready(Now()) && Now().wheel.granularity == granularity
    {
    }

    /** One round of the loop below: a tick, if the current one has not been processed yet, and
        the move to the next tick or the end of the loop. */
    method Round(now: int, scripts: seq<seq<seq<Command<Timer>>>>, i: nat, r: Registry)
      returns (some: seq<Timer>, j: nat, done: bool)
      requires Valid() && exec == [] && r.Accounts(state.life.info) && WheelClock.Ready(Now())
      requires forall i, j, c :: 0 <= i < |scripts| && 0 <= j < |scripts[i]| && c in scripts[i][j] ==> c.timer in timers
      modifies this, wheel, common, timers, r, r.live
      ensures Valid() && timers == old(timers) && exec == [] && WheelClock.Ready(Now()) && granularity > 0
      ensures if done then Now() == WheelClock.Processed(old(Now()), now, scripts, i)
              else WheelClock.Processed(Now(), now, scripts, j) == WheelClock.Processed(old(Now()), now, scripts, i)
      ensures WheelClock.FiredWhile(old(Now()), now, scripts, i)
           == some + (if done then [] else WheelClock.FiredWhile(Now(), now, scripts, j))
      ensures !done ==> now - border < now - old(border) && now - border + granularity >= 0
      ensures r.Accounts(state.life.info) && r.OnlyGrew()
    {
      hide WheelSpec.Inv, Sound, Counted, Distinct, InfosAgree, RingAgrees, MarksAgree, Forward, r.Accounts;
      hide WheelSpec.AfterTick, WheelSpec.FiredInTick, WheelClock.Processed, WheelClock.FiredWhile;
      WheelClock.RoundEquation(Now(), now, scripts, i);
      some, j := [], i;
      if !processed {
        some := ProcessCurrentWheelPosition(WheelClock.Script(scripts, i), r);
        SetTick(border, true);
        j := i + 1;
      }
      done := now < border;
      if !done {
        SetTick(border + granularity, false);
      }
    }

    /** Assigns to m_current_tick_border and m_current_tick_processed. */
    method SetTick(newBorder: int, newProcessed: bool)
      requires Valid()
      modifies `border, `processed
      ensures Valid() && border == newBorder && processed == newProcessed
    {
      hide WheelSpec.Inv, Counted, InfosAgree, RingAgrees, MarksAgree, Forward;
      border, processed := newBorder, newProcessed;
    }

    /** One reading of the clock catches up with all the ticks whose border it has passed.
        `scripts[i]` says what clients do while the actions of tick number `i` are run. */
    method ProcessExpiredTimers(now: int, scripts: seq<seq<seq<Command<Timer>>>>, r: Registry)
      returns (fired: seq<Timer>)
      requires Valid() && exec == [] && r.Accounts(state.life.info)
      requires forall i, j, c :: 0 <= i < |scripts| && 0 <= j < |scripts[i]| && c in scripts[i][j] ==> c.timer in timers
      modifies this, wheel, common, timers, r, r.live
      ensures Valid() && timers == old(timers) && exec == []
      ensures WheelClock.Ready(old(Now()))
      ensures Now() == WheelClock.Processed(old(Now()), now, scripts, 0)
      ensures fired == WheelClock.FiredWhile(old(Now()), now, scripts, 0)
      ensures r.Accounts(state.life.info) && r.OnlyGrew()
    {
      hide Valid, WheelClock.Ready, WheelClock.Processed, WheelClock.FiredWhile, r.Accounts;
      ClockReady();
      ghost var end, all := WheelClock.Processed(Now(), now, scripts, 0), WheelClock.FiredWhile(Now(), now, scripts, 0);
      fired := [];
      var i := 0;
      var done := false;
      while !done
        invariant Valid() && timers == old(timers) && exec == [] && granularity > 0 && WheelClock.Ready(Now())
        invariant if done then Now() == end else WheelClock.Processed(Now(), now, scripts, i) == end
        invariant fired + (if done then [] else WheelClock.FiredWhile(Now(), now, scripts, i)) == all
        invariant r.Accounts(state.life.info) && r.OnlyGrew()
        decreases !done, now - border + granularity
      {
        var some, j, last := Round(now, scripts, i, r);
        fired := fired + some;
        i := j;
        done := last;
      }
    }

    method ClearOne(timer: Timer, ghost cleared: seq<Timer>, ghost info: map<Timer, Info>)
      requires timer in timers && timer in info && info[timer].refs > 0 && timer !in cleared
      requires InfosAgree(timers, Cleared(info, cleared))
      modifies timer`status, timer`period, timer`references
      ensures InfosAgree(timers, Cleared(info, cleared + [timer]))
    {
      hide Cleared;
      ClearedOneMore(info, cleared, timer);
      timer.Update(Deactivated, timer.period, timer.references - 1, timers, Cleared(info, cleared));
    }

    /** Takes the list out of one slot; its links stay as they were. */
    method TakeSlot(i: nat, ghost slots: seq<seq<Timer>>) returns (head: Timer?)
      requires i < |slots| && RingAgrees(WheelSpec.Emptied(slots, i))
      modifies wheel
      ensures RingAgrees(WheelSpec.Emptied(slots, i + 1))
      ensures head == Node(slots[i], 0) && Forward(slots[i]) && forall t :: t in slots[i] ==> t in timers
    {
      hide Distinct, Backward;
      assert wheel[i].nodes == slots[i];
      head := wheel[i].head;
      wheel[i].Reset();
    }

    /** Empties one slot and lets go of its timers. */
    method ClearSlot(i: nat, ghost s: WheelSpec.State<Timer>)
      requires WheelSpec.Inv(s) && i < |s.slots| && RingAgrees(WheelSpec.Emptied(s.slots, i))
      requires InfosAgree(timers, Cleared(s.life.info, WheelSpec.Flatten(s.slots[..i])))
      modifies wheel, timers`status, timers`period, timers`references
      ensures RingAgrees(WheelSpec.Emptied(s.slots, i + 1))
      ensures InfosAgree(timers, Cleared(s.life.info, WheelSpec.Flatten(s.slots[..i + 1])))
    {
      hide WheelSpec.Inv, WheelSpec.Flatten, InfosAgree, Cleared, Distinct, RingAgrees, WheelSpec.Emptied;
      ghost var q, before := s.slots[i], WheelSpec.Flatten(s.slots[..i]);
      var timer := TakeSlot(i, s.slots);
      ghost var k := 0;
      assert before + q[..k] == before;
      while timer != null
        invariant k <= |q| && timer == Node(q, k)
        invariant Forward(q) && RingAgrees(WheelSpec.Emptied(s.slots, i + 1))
        invariant InfosAgree(timers, Cleared(s.life.info, before + q[..k]))
        decreases |q| - k
      {
        var t := timer;
        timer := timer.next;
        WheelSpec.ClearedNext(s, i, k);
        ClearOne(t, before + q[..k], s.life.info);
        assert before + q[..k + 1] == before + q[..k] + [t];
        k := k + 1;
      }
      assert q[..k] == q;
      WheelSpec.FlattenOneMore(s.slots, i);
    }

    /** Clearing deletes no timer that a smart pointer refers to, and brings none back. */
    lemma ClearKeepsHolders(r: Registry)
      requires Valid() && exec == [] && r.Accounts(state.life.info)
      ensures WheelSpec.Inv(state) && state.life.exec == []
      ensures r.Accounts(WheelSpec.AfterClear(state).life.info)
      ensures OnlyDeletes(state.life.info, WheelSpec.AfterClear(state).life.info)
    {
      hide WheelSpec.AfterClear;
      WheelSpec.ClearEquation(state);
      WheelSpec.LinkedFlatten(state);
      Lifecycle.ClearKeepsHolders(state.life, WheelSpec.Flatten(state.slots));
      r.StillAccounts(state.life.info, Cleared(state.life.info, WheelSpec.Flatten(state.slots)));
    }

    /** Deactivates every timer; the engine can be used again afterwards. */
    method ClearAll(now: int)
      requires Valid() && exec == []
      modifies this, wheel, common, timers
      ensures Valid() && timers == old(timers) && exec == []
      ensures state == WheelSpec.AfterClear(old(state))
      ensures border == now + granularity && processed == old(processed)
    {
      hide WheelSpec.Inv, Sound, Counted, InfosAgree, RingAgrees, MarksAgree, Forward, Cleared;
      hide WheelSpec.Flatten, WheelSpec.AfterClear, WheelSpec.Emptied;
      BeforeClear();
      ghost var s := state;
      var i := 0;
      while i < |wheel|
        invariant i <= |wheel| == |s.slots|
        invariant state == s && exec == [] && timers == old(timers) && processed == old(processed)
        invariant RingAgrees(WheelSpec.Emptied(s.slots, i))
        invariant InfosAgree(timers, Cleared(s.life.info, WheelSpec.Flatten(s.slots[..i])))
      {
        ClearSlot(i, s);
        i := i + 1;
      }
      common.ResetTimerCount();
      border := now + granularity;
      position := 0;
      assert s.slots[..i] == s.slots;
      NoMarks();
      WheelSpec.ClearEquation(s);
      Become(WheelSpec.AfterClear(s));
    }

    lemma BeforeClear()
      requires Valid()
      ensures |wheel| == |state.slots| && WheelSpec.Inv(state) && RingAgrees(WheelSpec.Emptied(state.slots, 0))
      ensures InfosAgree(timers, Cleared(state.life.info, WheelSpec.Flatten(state.slots[..0])))
      ensures exec == state.life.exec && granularity == state.granularity
    {
      ClearedNone(state.life.info);
      assert WheelSpec.Emptied(state.slots, 0) == state.slots;
    }

    lemma NoMarks()
      ensures MarksAgree(map[]) && Forward([])
    {
    }
  }
}
