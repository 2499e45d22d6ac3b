/**
  In which order the wheel runs timers that come due in the same tick: in the order in which they
  were linked, at each of their firings.
 */
module WheelOrder {
  import opened Lifecycle
  import opened Sequences
  import opened WheelSpec
  import opened WheelTiming

  // ------------------------------------------------------------------ order in a sequence

  ghost predicate InFront<T>(q: seq<T>, t: T, u: T) {
    exists i, j :: 0 <= i < j < |q| && q[i] == t && q[j] == u
  }

  lemma InFrontOfSum<T>(a: seq<T>, b: seq<T>, t: T, u: T)
    requires InFront(a, t, u) || InFront(b, t, u) || (t in a && u in b)
    ensures InFront(a + b, t, u)
  {
    var q := a + b;
    if InFront(a, t, u) {
      var i, j :| 0 <= i < j < |a| && a[i] == t && a[j] == u;
      assert q[i] == t && q[j] == u;
    } else if InFront(b, t, u) {
      var i, j :| 0 <= i < j < |b| && b[i] == t && b[j] == u;
      assert q[|a| + i] == t && q[|a| + j] == u;
    } else {
      var i, j := IndexOf(a, t), IndexOf(b, u);
      assert q[i] == t && q[|a| + j] == u;
    }
  }

  /** Either the first is at the head, or both are behind it. */
  lemma HeadOrBehind<T>(q: seq<T>, t: T, u: T)
    requires InFront(q, t, u)
    ensures t in q && u in q
    ensures (q[0] == t && u in q[1..]) || InFront(q[1..], t, u)
  {
    var i, j :| 0 <= i < j < |q| && q[i] == t && q[j] == u;
    assert q[1..][j - 1] == u;
    if i > 0 {
      assert q[1..][i - 1] == t;
    }
  }

  lemma WithoutKeepsFront<T>(q: seq<T>, v: T, t: T, u: T)
    requires InFront(q, t, u) && v != t && v != u
    ensures InFront(Without(q, v), t, u)
  {
    if v in q {
      var k, r := IndexOf(q, v), Without(q, v);
      var i, j :| 0 <= i < j < |q| && q[i] == t && q[j] == u;
      assert r[if i < k then i else i - 1] == t && r[if j < k then j else j - 1] == u;
    }
  }

  /** What one slot can become when `v` is unlinked from it, linked to it, or both. */
  predicate Changed<T(==)>(q: seq<T>, r: seq<T>, v: T) {
    r == q || r == q + [v] || r == Without(q, v) || r == Without(q, v) + [v]
  }

  lemma ChangedKeepsFront<T>(q: seq<T>, r: seq<T>, v: T, t: T, u: T)
    requires Changed(q, r, v) && InFront(q, t, u) && v != t && v != u
    ensures InFront(r, t, u)
  {
    hide InFront;
    WithoutKeepsFront(q, v, t, u);
    InFrontOfSum(q, [v], t, u);
    InFrontOfSum(Without(q, v), [v], t, u);
  }

  /** Due timers are taken out in their order, and those left stay in theirs. */
  lemma {:induction false} PartsKeepFront<T>(q: seq<T>, marks: map<T, Mark>, t: T, u: T)
    requires InFront(q, t, u) && Distinct(q)
    ensures IsDue(t, marks) && IsDue(u, marks) ==> InFront(Due(q, marks), t, u)
    ensures !IsDue(t, marks) && !IsDue(u, marks) ==> InFront(Kept(q, marks), t, u)
  {
    hide InFront, IsDue, Distinct;
    HeadOrBehind(q, t, u);
    DistinctTail(q);
    DueMembers(q[1..], marks);
    var due, kept := if IsDue(q[0], marks) then [q[0]] else [], if IsDue(q[0], marks) then [] else [q[0]];
    if InFront(q[1..], t, u) {
      PartsKeepFront(q[1..], marks, t, u);
    }
    if IsDue(t, marks) && IsDue(u, marks) {
      InFrontOfSum(due, Due(q[1..], marks), t, u);
    }
    if !IsDue(t, marks) && !IsDue(u, marks) {
      InFrontOfSum(kept, Kept(q[1..], marks), t, u);
    }
  }

  // ------------------------------------------------------------------ order in the wheel

  /** Both are linked for the same tick, and the one was linked before the other. */
  ghost predicate Leads<T>(s: State<T>, t: T, u: T) {
    && t in s.marks && u in s.marks && s.marks[t] == s.marks[u] && s.marks[t].slot < |s.slots|
    && InFront(s.slots[s.marks[t].slot], t, u)
  }

  /** A call is about the slots of its own timer only. */
  lemma CallChangesSlots<T>(s: State<T>, c: Command<T>, k: nat)
    requires Inv(s) && k < |s.slots|
    ensures Changed(s.slots[k], WheelSpec.After(s, c).slots[k], c.timer)
  {
    hide Placed, Distinct, Without, MarkFor, DurationToTicks, Periods, MarksActive, StoredPeriod;
    if c.timer in s.life.info {
      match c
      case Activate(_, _, _, _) =>
      case Reschedule(t, _, pause, period) =>
        if s.life.info[t].status == Active { MoveChangesSlots(s, t, pause, period, k); }
      case Deactivate(_) =>
      case _ => HoldChangesNoSlot(s, c);
    }
  }

  lemma MoveChangesSlots<T>(s: State<T>, t: T, pause: int, period: int, k: nat)
    requires Inv(s) && t in s.life.info && s.life.info[t].status == Active && k < |s.slots|
    ensures Changed(s.slots[k], WheelSpec.AfterReschedule(s, t, pause, period).slots[k], t)
  {
    hide Distinct, Without, Periods, DurationToTicks, Sound, StoredPeriod;
    var i, m := s.marks[t].slot, MarkFor(s.position, |s.slots|, DurationToTicks(pause, s.granularity));
    var slots := s.slots[i := Without(s.slots[i], t)];
    assert WheelSpec.AfterReschedule(s, t, pause, period).slots == slots[m.slot := slots[m.slot] + [t]];
  }

  lemma CallKeepsLead<T>(s: State<T>, c: Command<T>, t: T, u: T)
    requires Inv(s) && Leads(s, t, u) && Spares(c, t) && Spares(c, u)
    ensures Leads(WheelSpec.After(s, c), t, u)
  {
    hide Inv, InFront, WheelSpec.After;
    CallSpares(s, c, t);
    CallSpares(s, c, u);
    var k := s.marks[t].slot;
    if c.Hold? || c.Drop? {
      HoldChangesNoSlot(s, c);
    } else {
      CallChangesSlots(s, c, k);
      ChangedKeepsFront(s.slots[k], WheelSpec.After(s, c).slots[k], c.timer, t, u);
    }
  }

  lemma HoldChangesNoSlot<T>(s: State<T>, c: Command<T>)
    requires Inv(s) && (c.Hold? || c.Drop?)
    ensures WheelSpec.After(s, c).slots == s.slots
  {
    hide Linked, Sound;
  }

  lemma {:induction false} CallsKeepLead<T>(s: State<T>, cs: seq<Command<T>>, t: T, u: T)
    requires Inv(s) && Leads(s, t, u) && AllSpare(cs, t) && AllSpare(cs, u)
    ensures Leads(WheelSpec.AfterAll(s, cs), t, u)
    decreases |cs|
  {
    hide Inv, Leads;
    if |cs| > 0 {
      CallKeepsLead(s, cs[0], t, u);
      CallsKeepLead(WheelSpec.After(s, cs[0]), cs[1..], t, u);
    }
  }

  lemma {:induction false} ChecksKeepLead<T>(s: State<T>, i: nat, script: seq<seq<Command<T>>>, t: T, u: T)
    requires Inv(s) && i <= |s.life.exec| && Leads(s, t, u) && ScriptSpares(script, t) && ScriptSpares(script, u)
    ensures Leads(WheelSpec.AfterChecks(s, i, script), t, u)
    decreases |s.life.exec| - i
  {
    hide Inv, Leads, AllSpare, WheelSpec.AfterAll, WheelSpec.AfterChecks, FiredFrom;
    NoneSpares(t);
    NoneSpares(u);
    CallsKeepLead(s, At(script, i), t, u);
    WheelSpec.ChecksStep(s, i, script);
    if i < |s.life.exec| {
      ChecksKeepLead(WheelSpec.AfterAll(s, At(script, i)), i + 1, script, t, u);
    }
  }

  // ------------------------------------------------------------------ one tick

  lemma BeginKeepsLead<T>(s: State<T>, t: T, u: T)
    requires Inv(s) && s.life.exec == [] && Leads(s, t, u)
    ensures Shape(s)
    ensures var b := WheelSpec.AfterBegin(s);
            if Remaining(s, t) == 0 then InFront(b.life.exec, t, u) else Leads(b, t, u)
  {
    hide InFront, Inv, WheelSpec.AfterBegin;
    SoundInv(s);
    BeginMarks(s, t);
    BeginMarks(s, u);
    BeginParts(s, s.marks[t].slot);
    if s.marks[t].slot == s.position {
      PartsKeepFront(s.slots[s.position], s.marks, t, u);
    }
  }

  lemma BeginParts<T>(s: State<T>, k: nat)
    requires Inv(s) && s.life.exec == [] && k < |s.slots|
    ensures var b, q := WheelSpec.AfterBegin(s), s.slots[s.position];
            && b.life.exec == Due(q, s.marks) && Distinct(q)
            && b.slots[k] == if k == s.position then Kept(q, s.marks) else s.slots[k]
  {
    hide Due, Kept, Distinct, MarksActive;
  }

  /** The head of the execution list is put at the end of a slot, or let go. */
  lemma FinishOneChangesSlots<T>(s: State<T>, k: nat)
    requires Inv(s) && s.life.exec != [] && k < |s.slots|
    ensures Changed(s.slots[k], WheelSpec.AfterFinishOne(s).slots[k], s.life.exec[0])
  {
    hide Placed, Distinct, MarkFor, Periods, MarksActive, Without;
  }

  lemma FinishOneKeepsLead<T>(s: State<T>, t: T, u: T)
    requires Inv(s) && s.life.exec != [] && Leads(s, t, u)
    ensures Leads(WheelSpec.AfterFinishOne(s), t, u)
  {
    hide Inv, InFront, WheelSpec.AfterFinishOne, Changed;
    FirstOfExec(s);
    FinishOneSpares(s, t);
    FinishOneSpares(s, u);
    var k := s.marks[t].slot;
    FinishOneChangesSlots(s, k);
    ChangedKeepsFront(s.slots[k], WheelSpec.AfterFinishOne(s).slots[k], s.life.exec[0], t, u);
  }

  lemma {:induction false} FinishKeepsLead<T>(s: State<T>, t: T, u: T)
    requires Inv(s) && Leads(s, t, u)
    ensures Leads(WheelSpec.AfterFinish(s), t, u)
    decreases |s.life.exec|
  {
    hide Inv, Leads;
    if s.life.exec != [] {
      FinishOneKeepsLead(s, t, u);
      FinishKeepsLead(WheelSpec.AfterFinishOne(s), t, u);
    }
  }

  /** The timer is in the execution list and will be put back for so many ticks. */
  ghost predicate Returns<T>(s: State<T>, t: T, period: int) {
    && t in s.life.exec && t in s.life.info
    && s.life.info[t].status == WaitForExecution && s.life.info[t].period == period
  }

  lemma ReturnsLater<T>(s: State<T>, t: T, period: int)
    requires Inv(s) && s.life.exec != [] && t != s.life.exec[0] && Returns(s, t, period)
    ensures Returns(WheelSpec.AfterFinishOne(s), t, period)
  {
    hide Inv, WheelSpec.AfterFinishOne;
    FinishOneSpares(s, t);
    WheelTiming.ExecFacts(s, t);
  }

  /** A timer that is put back stands behind those that are marked for the same tick. */
  lemma HeadGoesBehind<T>(s: State<T>, t: T, period: nat)
    requires Inv(s) && s.life.exec != [] && period > 0 && Returns(s, s.life.exec[0], period)
    requires t in s.marks && s.marks[t] == MarkFor(s.position, |s.slots|, period)
    ensures Leads(WheelSpec.AfterFinishOne(s), t, s.life.exec[0])
  {
    hide InFront, MarkFor, MarksActive, Periods;
    FirstOfExec(s);
    var k := s.marks[t].slot;
    InFrontOfSum(s.slots[k], [s.life.exec[0]], t, s.life.exec[0]);
  }

  lemma {:induction false} ReturnsBehind<T>(s: State<T>, t: T, u: T, period: nat)
    requires Inv(s) && period > 0 && Returns(s, u, period)
    requires t in s.marks && s.marks[t] == MarkFor(s.position, |s.slots|, period)
    ensures Leads(WheelSpec.AfterFinish(s), t, u)
    decreases |s.life.exec|
  {
    hide Inv, Leads, MarkFor, Returns;
    ReturnsMember(s, u, period);
    FirstOfExec(s);
    FinishOneSpares(s, t);
    var f := WheelSpec.AfterFinishOne(s);
    if u == s.life.exec[0] {
      HeadGoesBehind(s, t, period);
      FinishKeepsLead(f, t, u);
    } else {
      ReturnsLater(s, u, period);
      ReturnsBehind(f, t, u, period);
    }
  }

  lemma ReturnsMember<T>(s: State<T>, t: T, period: int)
    requires Returns(s, t, period)
    ensures s.life.exec != []
  {
  }

  /** Both are put back for the same tick, in their order. */
  lemma {:induction false} BothReturn<T>(s: State<T>, t: T, u: T, period: nat)
    requires Inv(s) && period > 0 && InFront(s.life.exec, t, u) && t != u
    requires Returns(s, t, period) && Returns(s, u, period)
    ensures Leads(WheelSpec.AfterFinish(s), t, u)
    decreases |s.life.exec|
  {
    hide Inv, Leads, MarkFor, InFront;
    HeadOrBehind(s.life.exec, t, u);
    WheelTiming.ExecFacts(s, t);
    WheelTiming.ExecFacts(s, u);
    var f := WheelSpec.AfterFinishOne(s);
    if t == s.life.exec[0] {
      FinishOneRepeats(s);
      ReturnsLater(s, u, period);
      ReturnsBehind(f, t, u, period);
    } else {
      HeadIsAnother(s.life.exec, t, u);
      ReturnsLater(s, t, period);
      ReturnsLater(s, u, period);
      BothReturn(f, t, u, period);
    }
  }

  lemma HeadIsAnother<T>(q: seq<T>, t: T, u: T)
    requires InFront(q, t, u) && q[0] !in q[1..]
    ensures u != q[0]
  {
    HeadOrBehind(q, t, u);
    if InFront(q[1..], t, u) {
      HeadOrBehind(q[1..], t, u);
    }
  }

  /** The actions are run in the order of the execution list. */
  lemma {:induction false} FiredInFront<T>(s: State<T>, i: nat, script: seq<seq<Command<T>>>, t: T, u: T)
    requires Inv(s) && i <= |s.life.exec| && InFront(s.life.exec[i..], t, u)
    requires ScriptSpares(script, t) && ScriptSpares(script, u)
    requires t in s.life.info && s.life.info[t].status == WaitForExecution
    requires u in s.life.info && s.life.info[u].status == WaitForExecution
    ensures InFront(FiredFrom(s, i, script), t, u)
    decreases |s.life.exec| - i
  {
    hide Inv, InFront, FiredFrom, WheelSpec.AfterChecks, WheelSpec.AfterAll, AllSpare;
    var rest := s.life.exec[i..];
    HeadOrBehind(rest, t, u);
    assert rest[1..] == s.life.exec[i + 1..];
    NoneSpares(t);
    NoneSpares(u);
    CallsSpare(s, At(script, i), t);
    CallsSpare(s, At(script, i), u);
    WheelSpec.ChecksStep(s, i, script);
    var s1 := WheelSpec.AfterAll(s, At(script, i));
    var first := if s1.life.info[rest[0]].status == WaitForExecution then [rest[0]] else [];
    if InFront(rest[1..], t, u) {
      FiredInFront(s1, i + 1, script, t, u);
    } else {
      SparedFires(s1, i + 1, i + 1 + IndexOf(rest[1..], u), script);
    }
    InFrontOfSum(first, FiredFrom(s1, i + 1, script), t, u);
  }

  /** A tick in which they are not due leaves the one ahead of the other. */
  lemma TickKeepsLead<T>(s: State<T>, script: seq<seq<Command<T>>>, t: T, u: T)
    requires Inv(s) && s.life.exec == [] && Leads(s, t, u) && Shape(s) && Remaining(s, t) > 0
    requires ScriptSpares(script, t) && ScriptSpares(script, u)
    ensures Leads(WheelSpec.AfterTick(s, script), t, u)
  {
    hide Inv, InFront, WheelSpec.AfterBegin, WheelSpec.AfterChecks, WheelSpec.AfterFinish, Remaining, ScriptSpares;
    var b := WheelSpec.AfterBegin(s);
    BeginKeepsLead(s, t, u);
    SoundInv(b);
    if b.life.exec != [] {
      ChecksKeepLead(b, 0, script, t, u);
      FinishKeepsLead(WheelSpec.AfterChecks(b, 0, script), t, u);
    }
  }

  /** The tick in which they are due runs the one before the other, and links them in this order
      again if they have the same period. */
  lemma TickInOrder<T>(s: State<T>, script: seq<seq<Command<T>>>, t: T, u: T)
    requires Inv(s) && s.life.exec == [] && Leads(s, t, u) && Shape(s) && Remaining(s, t) == 0 && t != u
    requires ScriptSpares(script, t) && ScriptSpares(script, u)
    ensures InFront(FiredInTick(s, script), t, u)
    ensures t in s.life.info && u in s.life.info
    ensures s.life.info[t].period == s.life.info[u].period > 0 ==> Leads(WheelSpec.AfterTick(s, script), t, u)
  {
    hide Inv, InFront, WheelSpec.AfterBegin, WheelSpec.AfterChecks, WheelSpec.AfterFinish, FiredFrom, ScriptSpares;
    var b := WheelSpec.AfterBegin(s);
    BeginKeepsLead(s, t, u);
    BeginTiming(s, t);
    BeginTiming(s, u);
    assert b.life.exec[0..] == b.life.exec;
    FiredInFront(b, 0, script, t, u);
    SpareAll(script, t);
    SpareAll(script, u);
    ChecksSpare(b, 0, script, t);
    ChecksSpare(b, 0, script, u);
    if s.life.info[t].period == s.life.info[u].period > 0 {
      BothReturn(WheelSpec.AfterChecks(b, 0, script), t, u, s.life.info[t].period);
    }
  }

  lemma SpareAll<T>(script: seq<seq<Command<T>>>, t: T)
    requires ScriptSpares(script, t)
    ensures forall k :: 0 <= k < |script| ==> AllSpare(script[k], t)
  {
  }

  // ------------------------------------------------------------------ runs

  /** Neither call nor action of this round is about the two timers. */
  lemma RoundInOrder<T>(s: State<T>, round: Round<T>, t: T, u: T)
    requires Inv(s) && s.life.exec == [] && Leads(s, t, u) && t != u
    requires AllSpare(round.before, t) && ScriptSpares(round.during, t)
    requires AllSpare(round.before, u) && ScriptSpares(round.during, u)
    ensures t in s.life.info && u in s.life.info && Shape(s)
    ensures Remaining(s, t) == 0 ==> InFront(FiredInRound(s, round), t, u)
    ensures Remaining(s, t) > 0 || s.life.info[t].period == s.life.info[u].period > 0 ==>
      Leads(AfterRound(s, round), t, u)
  {
    hide Inv, InFront, WheelSpec.AfterAll, WheelSpec.AfterTick, FiredInTick, AllSpare, ScriptSpares;
    MarkedFacts(s, t);
    MarkedFacts(s, u);
    CallsSpare(s, round.before, t);
    CallsSpare(s, round.before, u);
    CallsKeepLead(s, round.before, t, u);
    var s1 := WheelSpec.AfterAll(s, round.before);
    if Remaining(s, t) > 0 {
      TickKeepsLead(s1, round.during, t, u);
    } else {
      TickInOrder(s1, round.during, t, u);
    }
  }

  /** Over any run that leaves two timers of the same period alone they are run in the same ticks,
      and each time the one that was linked first is run first. */
  lemma {:induction false} FirstComeFirstRun<T>(s: State<T>, rounds: seq<Round<T>>, t: T, u: T, n: nat)
    requires Inv(s) && s.life.exec == [] && Leads(s, t, u) && t != u && n < |rounds|
    requires t in s.life.info && u in s.life.info && s.life.info[t].period == s.life.info[u].period
    requires RoundsSpare(rounds, t) && RoundsSpare(rounds, u)
    ensures t in FiredAt(s, rounds, n) <==> u in FiredAt(s, rounds, n)
    ensures t in FiredAt(s, rounds, n) ==> InFront(FiredAt(s, rounds, n), t, u)
    decreases n
  {
    hide Inv, InFront, FiredInRound, AfterRound, AllSpare, ScriptSpares;
    RoundInOrder(s, rounds[0], t, u);
    RoundTiming(s, rounds[0], t);
    RoundTiming(s, rounds[0], u);
    if n > 0 {
      var f := AfterRound(s, rounds[0]);
      if Remaining(s, t) > 0 || s.life.info[t].period > 0 {
        FirstComeFirstRun(f, rounds[1..], t, u, n - 1);
      } else {
        StaysOut(f, rounds[1..], t, n - 1);
        StaysOut(f, rounds[1..], u, n - 1);
      }
    }
  }

  /** Where a call that is not refused puts its timer: at the end of the slot of its tick. */
  lemma LinkedLast<T>(s: State<T>, c: Command<T>)
    requires Inv(s) && Accepts(s, c)
    ensures Shape(s)
    ensures var r, m := WheelSpec.After(s, c), MarkFor(s.position, |s.slots|, DurationToTicks(c.pause, s.granularity));
            && c.timer in r.marks && r.marks[c.timer] == m && SameRing(s, r)
            && r.slots[m.slot] == Without(s.slots[m.slot], c.timer) + [c.timer]
  {
    hide Distinct, Without, Periods, DurationToTicks, Sound, StoredPeriod;
    var m := MarkFor(s.position, |s.slots|, DurationToTicks(c.pause, s.granularity));
    if s.life.info[c.timer].status == Deactivated {
      assert c.timer !in s.slots[m.slot];
    } else {
      MovedLast(s, c.timer, c.pause, c.period);
    }
  }

  lemma MovedLast<T>(s: State<T>, t: T, pause: int, period: int)
    requires Inv(s) && t in s.life.info && s.life.info[t].status == Active
    ensures var r, m := WheelSpec.AfterReschedule(s, t, pause, period),
                        MarkFor(s.position, |s.slots|, DurationToTicks(pause, s.granularity));
            && t in r.marks && r.marks[t] == m && r.slots[m.slot] == Without(s.slots[m.slot], t) + [t]
  {
    hide Distinct, Periods, DurationToTicks, Sound, StoredPeriod;
    var i, m := s.marks[t].slot, MarkFor(s.position, |s.slots|, DurationToTicks(pause, s.granularity));
    var slots := s.slots[i := Without(s.slots[i], t)];
    assert WheelSpec.AfterReschedule(s, t, pause, period).slots == slots[m.slot := slots[m.slot] + [t]];
    assert m.slot != i ==> t !in s.slots[m.slot];
  }

  /** So it follows those that are linked for the same tick already. */
  lemma LinkedBehind<T>(s: State<T>, c: Command<T>, t: T)
    requires Inv(s) && Accepts(s, c) && t in s.marks && t != c.timer && Shape(s)
    requires s.marks[t] == MarkFor(s.position, |s.slots|, DurationToTicks(c.pause, s.granularity))
    ensures Leads(WheelSpec.After(s, c), t, c.timer)
  {
    hide Inv, InFront, WheelSpec.After, MarkFor, DurationToTicks, Accepts;
    LinkedLast(s, c);
    MarkedFacts(s, t);
    CallSpares(s, c, t);
    InItsSlot(s, t);
    WithoutMembers(s.slots[s.marks[t].slot], c.timer);
    InFrontOfSum(Without(s.slots[s.marks[t].slot], c.timer), [c.timer], t, c.timer);
  }

  lemma InItsSlot<T>(s: State<T>, t: T)
    requires Inv(s) && t in s.marks
    ensures s.marks[t].slot < |s.slots| && t in s.slots[s.marks[t].slot] && Distinct(s.slots[s.marks[t].slot])
  {
    hide Distinct;
  }

  /** Two timers that are activated or rescheduled one after the other, for the same number of
      ticks and with the same period, are run in the same ticks from then on and in this order. */
  lemma FirstAskedFirstRun<T>(s: State<T>, c: Command<T>, d: Command<T>, rounds: seq<Round<T>>, n: nat)
    requires Inv(s) && s.life.exec == [] && Accepts(s, c) && Accepts(WheelSpec.After(s, c), d) && c.timer != d.timer
    requires Shape(s) && DurationToTicks(c.pause, s.granularity) == DurationToTicks(d.pause, s.granularity)
    requires StoredPeriod(c.period, s.granularity) == StoredPeriod(d.period, s.granularity)
    requires RoundsSpare(rounds, c.timer) && RoundsSpare(rounds, d.timer) && n < |rounds|
    ensures WheelSpec.After(WheelSpec.After(s, c), d).life.exec == []
    ensures var fired := FiredAt(WheelSpec.After(WheelSpec.After(s, c), d), rounds, n);
            && (c.timer in fired <==> d.timer in fired)
            && (c.timer in fired ==> InFront(fired, c.timer, d.timer))
  {
    hide Inv, InFront, WheelSpec.After, MarkFor, DurationToTicks, StoredPeriod, Accepts, RoundsSpare, FiredAt;
    var s1 := WheelSpec.After(s, c);
    LinkedLast(s, c);
    LinkedBehind(s1, d, c.timer);
    AcceptedPeriod(s, c);
    AcceptedPeriod(s1, d);
    CallSpares(s1, d, c.timer);
    MarkedFacts(s1, c.timer);
    FirstComeFirstRun(WheelSpec.After(s1, d), rounds, c.timer, d.timer, n);
  }
}
