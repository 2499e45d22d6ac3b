/**
  What the wheel engine does to its timers, on values: a ring of slots, a number of full rolls
  that each timer has to sit out, and a position that advances by one slot a tick.
 */
module WheelSpec {
  import opened Lifecycle
  import opened Sequences
  import opened Division

  /** Unsigned ints have 32 bits. */
  const UINT_RANGE: nat := 0x1_0000_0000

  /** The slot of a timer and the full rolls it still has to sit out. */
  datatype Mark = Mark(slot: nat, rolls: nat)

  datatype State<T(==)> = State(
    life: Ledger<T>, slots: seq<seq<T>>, marks: map<T, Mark>, position: nat, granularity: int)

  ghost predicate Inv<T>(s: State<T>) {
    && Sound(s.life)
    && Shape(s)
    && Linked(s)
    && Periods(s.life)
  }

  /** Periods are numbers of ticks. */
  ghost predicate Periods<T>(life: Ledger<T>) {
    forall t :: t in life.info ==> 0 <= life.info[t].period < UINT_RANGE
  }

  /** A wheel without timers. */
  ghost function Empty<T>(size: nat, granularity: int): State<T>
    requires 0 < size < UINT_RANGE && granularity > 0
    ensures Inv(Empty<T>(size, granularity)) && Counted(Empty<T>(size, granularity).life)
  {
    var r := State(Ledger(map[], [], 0, 0), seq(size, _ => []), map[], 0, granularity);
    assert Owned(r.life.info, false) == {} && Owned(r.life.info, true) == {};
    r
  }

  predicate Shape<T>(s: State<T>) {
    0 < |s.slots| < UINT_RANGE && s.position < |s.slots| && s.granularity > 0
  }

  /** Status agrees with membership: exactly the active timers have a mark, and each is once
      in the slot its mark names and in no other. */
  ghost predicate Linked<T>(s: State<T>) {
    MarksActive(s.life, s.marks) && Placed(s.slots, s.marks)
  }

  ghost predicate MarksActive<T>(life: Ledger<T>, marks: map<T, Mark>) {
    && (forall t :: t in marks ==> t in life.info && life.info[t].status == Active)
    && (forall t :: t in life.info && life.info[t].status == Active ==> t in marks)
  }

  ghost predicate Placed<T>(slots: seq<seq<T>>, marks: map<T, Mark>) {
    && (forall t :: t in marks ==> marks[t].slot < |slots| && t in slots[marks[t].slot])
    && (forall i, t :: 0 <= i < |slots| && t in slots[i] ==> t in marks && marks[t].slot == i)
    && (forall i :: 0 <= i < |slots| ==> Distinct(slots[i]))
  }

  // ------------------------------------------------------------------ ticks

  /** Division as in C++: the quotient is truncated. */
  function Quotient(a: int, b: int): int
    requires b > 0
  {
    if a >= 0 then a / b else -((-a) / b)
  }

  /** The number of ticks closest to a duration, cast to unsigned int, and at least one. */
  function DurationToTicks(d: int, granularity: int): (r: nat)
    requires granularity > 0
    ensures 0 < r < UINT_RANGE
  {
    var r := Quotient(d + granularity / 2, granularity) % UINT_RANGE;
    if r == 0 then 1 else r
  }

  /** What a duration is in ticks before it is cast: rounded to the nearest number and ties
      upward, or towards zero if half a tick does not make it positive. */
  predicate RoundsTo(d: int, g: int, n: int)
    requires g > 0
  {
    if d + g / 2 >= 0 then n * g <= d + g / 2 < n * g + g else n * g - g < d + g / 2 <= n * g
  }

  /** Every duration becomes that number, cast to unsigned int, and 1 instead of 0. */
  lemma TicksAre(d: int, g: int, n: int)
    requires g > 0 && RoundsTo(d, g, n)
    ensures DurationToTicks(d, g) == if n % UINT_RANGE == 0 then 1 else n % UINT_RANGE
  {
    var x := d + g / 2;
    if x >= 0 {
      QuotientUnique(x, n, x - n * g, g);
    } else {
      assert -x == (-n) * g + (n * g - x);
      QuotientUnique(-x, -n, n * g - x, g);
    }
  }

  /** The rounding is off by at most half a tick exactly for the durations that round to one
      tick at least and to a number of ticks that fits. */
  lemma RoundingError(d: int, g: int)
    requires g > 0
    ensures -(g / 2) <= DurationToTicks(d, g) * g - d <= g / 2
        <==> g <= d + g / 2 < UINT_RANGE * g
  {
    var r := DurationToTicks(d, g);
    MulMonotone(1, r, g);
    MulMonotone(r, UINT_RANGE - 1, g);
    if g <= d + g / 2 {
      var n := (d + g / 2) / g;
      DivBounds(d + g / 2, g);
      if n < 1 { MulMonotone(n, 0, g); }
      if d + g / 2 < UINT_RANGE * g {
        if n >= UINT_RANGE { MulMonotone(UINT_RANGE, n, g); }
        assert r == n;
      } else if d + g / 2 == UINT_RANGE * g {
        if n < UINT_RANGE { MulMonotone(n, UINT_RANGE - 1, g); }
        if n > UINT_RANGE { MulMonotone(UINT_RANGE + 1, n, g); }
        assert r == 1;
      }
    }
  }

  /** The mark of a timer that is to wait for the given number of ticks.  The sum is one of
      unsigned ints. */
  function MarkFor(position: nat, size: nat, ticks: nat): Mark
    requires size > 0
  {
    Mark(((position + ticks) % UINT_RANGE) % size, ticks / size)
  }

  // ------------------------------------------------------------------ linking

  lemma AppendMembers<T>(q: seq<T>, t: T)
    requires Distinct(q) && t !in q
    ensures Distinct(q + [t]) && t in q + [t]
    ensures forall u :: u in q + [t] ==> u in q || u == t
    ensures forall u :: u in q ==> u in q + [t]
  {
  }

  lemma PlacedInsert<T>(slots: seq<seq<T>>, marks: map<T, Mark>, t: T, m: Mark)
    requires Placed(slots, marks) && t !in marks && m.slot < |slots|
    ensures Placed(slots[m.slot := slots[m.slot] + [t]], marks[t := m])
  {
    hide Distinct;
    AppendMembers(slots[m.slot], t);
  }

  lemma PlacedRemove<T>(slots: seq<seq<T>>, marks: map<T, Mark>, t: T)
    requires Placed(slots, marks) && t in marks
    ensures Placed(slots[marks[t].slot := Without(slots[marks[t].slot], t)], marks - {t})
  {
    hide Distinct, Without;
    WithoutMembers(slots[marks[t].slot], t);
  }

  /** The timer goes to the end of the list of its slot. */
  function Inserted<T>(s: State<T>, life: Ledger<T>, t: T, ticks: nat): (r: State<T>)
    requires Shape(s) && Linked(s)
    requires t !in s.marks && t in life.info && life.info[t].status == Active
    requires forall u :: u in s.life.info && u != t ==> u in life.info && life.info[u] == s.life.info[u]
    requires forall u :: u in life.info && u != t ==> u in s.life.info
    ensures Shape(r) && Linked(r) && SameRing(s, r)
  {
    var m := MarkFor(s.position, |s.slots|, ticks);
    PlacedInsert(s.slots, s.marks, t, m);
    hide Placed;
    s.(life := life, marks := s.marks[t := m], slots := s.slots[m.slot := s.slots[m.slot] + [t]])
  }

  function Removed<T>(s: State<T>, life: Ledger<T>, t: T): (r: State<T>)
    requires Shape(s) && Linked(s)
    requires t in s.marks && (t in life.info ==> life.info[t].status == Deactivated)
    requires forall u :: u in s.life.info && u != t ==> u in life.info && life.info[u] == s.life.info[u]
    requires forall u :: u in life.info && u != t ==> u in s.life.info
    ensures Shape(r) && Linked(r) && t !in r.marks
  {
    var i := s.marks[t].slot;
    PlacedRemove(s.slots, s.marks, t);
    s.(life := life, marks := s.marks - {t}, slots := s.slots[i := Without(s.slots[i], t)])
  }

  // ------------------------------------------------------------------ calls

  /** A zero period is kept, any other is turned into ticks. */
  function StoredPeriod(period: int, granularity: int): (r: nat)
    requires granularity > 0
    ensures r < UINT_RANGE
  {
    if period == 0 then 0 else DurationToTicks(period, granularity)
  }

  /** A period other than zero is rounded like a pause, and never becomes zero. */
  lemma StoredPeriodIs(period: int, g: int)
    requires g > 0
    ensures StoredPeriod(period, g) == 0 <==> period == 0
    ensures period != 0 ==>
      (-(g / 2) <= StoredPeriod(period, g) * g - period <= g / 2 <==> g <= period + g / 2 < UINT_RANGE * g)
    ensures forall n: int :: period != 0 && RoundsTo(period, g, n) ==>
      StoredPeriod(period, g) == if n % UINT_RANGE == 0 then 1 else n % UINT_RANGE
  {
    RoundingError(period, g);
    forall n: int | RoundsTo(period, g, n)
      ensures DurationToTicks(period, g) == if n % UINT_RANGE == 0 then 1 else n % UINT_RANGE
    {
      TicksAre(period, g, n);
    }
  }

  predicate SameRing<T>(a: State<T>, b: State<T>) {
    |b.slots| == |a.slots| && b.position == a.position && b.granularity == a.granularity
  }

  /** The call as the ledger sees it. */
  function Stored<T>(c: Command<T>, granularity: int): Command<T>
    requires granularity > 0
  {
    match c
    case Activate(t, clock, pause, period) => Activate(t, clock, pause, StoredPeriod(period, granularity))
    case Reschedule(t, clock, pause, period) => Reschedule(t, clock, pause, StoredPeriod(period, granularity))
    case _ => c
  }

  function AfterAllocate<T>(s: State<T>, t: T): (r: State<T>)
    requires Inv(s) && t !in s.life.info
    ensures Inv(r)
  {
    s.(life := Lifecycle.AfterAllocate(s.life, t))
  }

  function AfterActivate<T>(s: State<T>, t: T, pause: int, period: int): (r: State<T>)
    requires Inv(s) && t in s.life.info
    ensures Inv(r) && SameRing(s, r)
    ensures r.life == Lifecycle.AfterActivate(s.life, t, StoredPeriod(period, s.granularity))
  {
    if s.life.info[t].status != Deactivated then s
    else
      Inserted(s, Lifecycle.AfterActivate(s.life, t, StoredPeriod(period, s.granularity)), t,
               DurationToTicks(pause, s.granularity))
  }

  lemma DeactivateParts<T>(s: State<T>, t: T)
    requires Inv(s) && t in s.life.info
    ensures var life := Lifecycle.AfterDeactivate(s.life, t);
            && Periods(life)
            && (forall u :: u in s.life.info && u != t ==> u in life.info && life.info[u] == s.life.info[u])
            && (forall u :: u in life.info && u != t ==> u in s.life.info)
            && (if s.life.info[t].status == Active
                then t in s.marks && (t in life.info ==> life.info[t].status == Deactivated)
                else MarksActive(life, s.marks))
  {
    hide Placed, Sound;
    HeldOnce(s, t);
  }

  function AfterDeactivate<T>(s: State<T>, t: T): (r: State<T>)
    requires Inv(s) && t in s.life.info
    ensures Inv(r) && SameRing(s, r) && r.life == Lifecycle.AfterDeactivate(s.life, t)
  {
    hide Placed, Sound, Periods, MarksActive, Lifecycle.AfterDeactivate;
    DeactivateParts(s, t);
    if s.life.info[t].status == Active
    then Removed(s, Lifecycle.AfterDeactivate(s.life, t), t)
    else s.(life := Lifecycle.AfterDeactivate(s.life, t))
  }

  function AfterReschedule<T>(s: State<T>, t: T, pause: int, period: int): (r: State<T>)
    requires Inv(s) && t in s.life.info
    ensures Inv(r) && SameRing(s, r)
    ensures r.life == Lifecycle.AfterReschedule(s.life, t, StoredPeriod(period, s.granularity))
  {
    match s.life.info[t].status
    case Deactivated => AfterActivate(s, t, pause, period)
    case Active =>
      var i := s.marks[t].slot;
      var m := MarkFor(s.position, |s.slots|, DurationToTicks(pause, s.granularity));
      var slots := s.slots[i := Without(s.slots[i], t)];
      PlacedRemove(s.slots, s.marks, t);
      PlacedInsert(slots, s.marks - {t}, t, m);
      s.(life := Lifecycle.AfterReschedule(s.life, t, StoredPeriod(period, s.granularity)),
         slots := slots[m.slot := slots[m.slot] + [t]], marks := (s.marks - {t})[t := m])
    case _ => s
  }

  function AfterHold<T>(s: State<T>, t: T): (r: State<T>)
    requires Inv(s) && t in s.life.info
    ensures Inv(r) && SameRing(s, r) && r.life == Lifecycle.AfterHold(s.life, t)
  {
    s.(life := Lifecycle.AfterHold(s.life, t))
  }

  lemma DropKeepsActive<T>(s: State<T>, t: T)
    requires Inv(s) && t in s.life.info
    ensures var life := Lifecycle.AfterDrop(s.life, t);
            Sound(s.life) && Periods(life) && MarksActive(life, s.marks)
  {
    hide Placed;
    assert Balanced(s.life.info[t]);
  }

  function AfterDrop<T>(s: State<T>, t: T): (r: State<T>)
    requires Inv(s) && t in s.life.info
    ensures Inv(r) && SameRing(s, r) && r.life == Lifecycle.AfterDrop(s.life, t)
  {
    hide Placed, Sound, Periods, MarksActive;
    DropKeepsActive(s, t);
    s.(life := Lifecycle.AfterDrop(s.life, t))
  }

  /** `activate` answers whether the engine now has exactly one timer. */
  function ActivateOutcome<T>(s: State<T>, t: T, pause: int, period: int): Outcome
    requires Inv(s) && t in s.life.info
  {
    if s.life.info[t].status != Deactivated then Failed(NotDeactivated)
    else
      var life := AfterActivate(s, t, pause, period).life;
      Done(life.single + life.periodic == 1)
  }

  function RescheduleOutcome<T>(s: State<T>, t: T, pause: int, period: int): Outcome
    requires Inv(s) && t in s.life.info
  {
    match s.life.info[t].status
    case Deactivated => ActivateOutcome(s, t, pause, period)
    case Active => Done(false)
    case _ => Failed(InProcessing)
  }

  lemma SoundInv<T>(s: State<T>)
    requires Inv(s)
    ensures Sound(s.life) && Shape(s)
  {
  }

  function After<T>(s: State<T>, c: Command<T>): (r: State<T>)
    requires Inv(s)
    ensures Inv(r) && r.life == Lifecycle.After(s.life, Stored(c, s.granularity))
    ensures SameRing(s, r)
  {
    SoundInv(s);
    hide Inv, Sound;
    if c.timer !in s.life.info then s
    else match c
      case Activate(t, _, pause, period) => AfterActivate(s, t, pause, period)
      case Reschedule(t, _, pause, period) => AfterReschedule(s, t, pause, period)
      case Deactivate(t) => AfterDeactivate(s, t)
      case Hold(t) => AfterHold(s, t)
      case Drop(t) => AfterDrop(s, t)
  }

  function StoredAll<T>(cs: seq<Command<T>>, granularity: int): (r: seq<Command<T>>)
    requires granularity > 0
    decreases |cs|
  {
    if |cs| == 0 then [] else [Stored(cs[0], granularity)] + StoredAll(cs[1..], granularity)
  }

  /** What the call gives back. */
  function Answer<T>(s: State<T>, c: Command<T>): Outcome
    requires Inv(s) && c.timer in s.life.info
  {
    match c
    case Activate(t, _, pause, period) => ActivateOutcome(s, t, pause, period)
    case Reschedule(t, _, pause, period) => RescheduleOutcome(s, t, pause, period)
    case _ => Done(false)
  }

  function AfterAll<T>(s: State<T>, cs: seq<Command<T>>): (r: State<T>)
    requires Inv(s)
    ensures Inv(r) && r.life == Lifecycle.AfterAll(s.life, StoredAll(cs, s.granularity))
    ensures SameRing(s, r)
    ensures r.life.exec == s.life.exec
    decreases |cs|
  {
    if |cs| == 0 then s else AfterAll(After(s, cs[0]), cs[1..])
  }

  // ------------------------------------------------------------------ one tick

  /** The timers of the current slot that are due: no full roll is left. */
  function Due<T>(q: seq<T>, marks: map<T, Mark>): seq<T> {
    if q == [] then []
    else (if IsDue(q[0], marks) then [q[0]] else []) + Due(q[1..], marks)
  }

  predicate IsDue<T>(t: T, marks: map<T, Mark>) {
    t in marks && marks[t].rolls == 0
  }

  function Kept<T>(q: seq<T>, marks: map<T, Mark>): seq<T> {
    if q == [] then []
    else (if IsDue(q[0], marks) then [] else [q[0]]) + Kept(q[1..], marks)
  }

  lemma {:induction false} DueMembers<T>(q: seq<T>, marks: map<T, Mark>)
    requires Distinct(q)
    ensures Distinct(Due(q, marks)) && Distinct(Kept(q, marks))
    ensures forall t :: t in Due(q, marks) ==> t in q && IsDue(t, marks)
    ensures forall t :: t in Kept(q, marks) ==> t in q && !IsDue(t, marks)
    ensures forall t :: t in q ==> t in (if IsDue(t, marks) then Due(q, marks) else Kept(q, marks))
  {
    if q != [] {
      DistinctTail(q);
      DueMembers(q[1..], marks);
    }
  }

  /** A timer that has to sit out this visit of its slot has one roll less to go. */
  function Rolled<T>(marks: map<T, Mark>, position: nat): map<T, Mark> {
    map t | t in marks && !(marks[t].slot == position && marks[t].rolls == 0) ::
      if marks[t].slot == position then Mark(position, marks[t].rolls - 1) else marks[t]
  }

  lemma PlacedBegin<T>(slots: seq<seq<T>>, marks: map<T, Mark>, position: nat)
    requires Placed(slots, marks) && position < |slots|
    ensures Placed(slots[position := Kept(slots[position], marks)], Rolled(marks, position))
    ensures forall t :: t in marks ==> (t in Due(slots[position], marks) <==> t !in Rolled(marks, position))
  {
    DueMembers(slots[position], marks);
  }

  function AfterBegin<T>(s: State<T>): (r: State<T>)
    requires Inv(s) && s.life.exec == []
    ensures Inv(r)
    ensures SameRing(s, r)
  {
    var q := s.slots[s.position];
    DueMembers(q, s.marks);
    PlacedBegin(s.slots, s.marks, s.position);
    s.(life := Lifecycle.AfterBegin(s.life, Due(q, s.marks)),
       slots := s.slots[s.position := Kept(q, s.marks)], marks := Rolled(s.marks, s.position))
  }

  function AfterChecks<T>(s: State<T>, i: nat, script: seq<seq<Command<T>>>): (r: State<T>)
    requires Inv(s) && i <= |s.life.exec|
    ensures Inv(r) && r.life.exec == s.life.exec
    ensures SameRing(s, r)
    decreases |s.life.exec| - i
  {
    var s1 := AfterAll(s, At(script, i));
    if i == |s.life.exec| then s1 else AfterChecks(s1, i + 1, script)
  }

  function FiredFrom<T>(s: State<T>, i: nat, script: seq<seq<Command<T>>>): seq<T>
    requires Inv(s) && i <= |s.life.exec|
    decreases |s.life.exec| - i
  {
    if i == |s.life.exec| then []
    else
      var s1 := AfterAll(s, At(script, i));
      var t := s1.life.exec[i];
      (if s1.life.info[t].status == WaitForExecution then [t] else []) + FiredFrom(s1, i + 1, script)
  }

  lemma FirstToFinish<T>(s: State<T>)
    requires Inv(s) && s.life.exec != []
    ensures s.life.exec[0] in s.life.info && InExec(s.life.info[s.life.exec[0]])
  {
    hide Linked;
    assert s.life.exec[0] in s.life.exec;
  }

  lemma FinishParts<T>(s: State<T>)
    requires Inv(s) && s.life.exec != []
    ensures s.life.exec[0] in s.life.info && 0 <= s.life.info[s.life.exec[0]].period
    ensures var life, t, i := Lifecycle.AfterFinishOne(s.life), s.life.exec[0], s.life.info[s.life.exec[0]];
            && Periods(life) && t !in s.marks
            && (forall u :: u in s.life.info && u != t ==> u in life.info && life.info[u] == s.life.info[u])
            && (forall u :: u in life.info && u != t ==> u in s.life.info)
            && (if i.status == WaitForExecution && i.period != 0
                then t in life.info && life.info[t].status == Active
                else MarksActive(life, s.marks))
  {
    hide Placed, Sound;
    FirstToFinish(s);
  }

  function AfterFinishOne<T>(s: State<T>): (r: State<T>)
    requires Inv(s) && s.life.exec != []
    ensures Inv(r) && r.life == Lifecycle.AfterFinishOne(s.life)
    ensures SameRing(s, r)
  {
    hide Placed, Sound, Periods, MarksActive, Lifecycle.AfterFinishOne;
    FinishParts(s);
    var t := s.life.exec[0];
    var i := s.life.info[t];
    var life := Lifecycle.AfterFinishOne(s.life);
    if i.status == WaitForExecution && i.period != 0 then Inserted(s, life, t, i.period)
    else s.(life := life)
  }

  function AfterFinish<T>(s: State<T>): (r: State<T>)
    requires Inv(s)
    ensures Inv(r) && r.life == Lifecycle.AfterFinish(s.life)
    ensures SameRing(s, r)
    decreases |s.life.exec|
  {
    if s.life.exec == [] then s else AfterFinish(AfterFinishOne(s))
  }

  function NextPosition<T>(s: State<T>): nat {
    if s.position + 1 >= |s.slots| then 0 else s.position + 1
  }

  /** The current slot is processed, then the position advances.  When nothing is due the
      lock is never released. */
  function AfterTick<T>(s: State<T>, script: seq<seq<Command<T>>>): (r: State<T>)
    requires Inv(s) && s.life.exec == []
    ensures Inv(r) && r.life.exec == []
    ensures |r.slots| == |s.slots| && r.position == NextPosition(s) && r.granularity == s.granularity
  {
    var begun := AfterBegin(s);
    var done := if begun.life.exec == [] then begun else AfterFinish(AfterChecks(begun, 0, script));
    done.(position := NextPosition(s))
  }

  function FiredInTick<T>(s: State<T>, script: seq<seq<Command<T>>>): seq<T>
    requires Inv(s) && s.life.exec == []
  {
    var begun := AfterBegin(s);
    if begun.life.exec == [] then [] else FiredFrom(begun, 0, script)
  }

  // ------------------------------------------------------------------ the same, on ledgers

  function StoredScript<T>(script: seq<seq<Command<T>>>, granularity: int): (r: seq<seq<Command<T>>>)
    requires granularity > 0
    ensures |r| == |script|
    ensures forall i: nat :: At(r, i) == StoredAll(At(script, i), granularity)
  {
    seq(|script|, i requires 0 <= i < |script| => StoredAll(script[i], granularity))
  }

  lemma {:induction false} ChecksOnLedger<T>(s: State<T>, i: nat, script: seq<seq<Command<T>>>)
    requires Inv(s) && i <= |s.life.exec|
    ensures AfterChecks(s, i, script).life
         == Lifecycle.AfterChecks(s.life, i, StoredScript(script, s.granularity))
    ensures FiredFrom(s, i, script) == Fired(s.life, i, StoredScript(script, s.granularity))
    decreases |s.life.exec| - i
  {
    hide Inv, Sound, Linked, StoredScript;
    SoundInv(s);
    if i < |s.life.exec| {
      ChecksOnLedger(AfterAll(s, At(script, i)), i + 1, script);
    }
  }

  /** Whatever clients do, a tick runs the due timers of its slot that were not cancelled before
      their check, each once and in the order of the slot. */
  lemma TickFiresUncancelled<T>(s: State<T>, script: seq<seq<Command<T>>>)
    requires Inv(s) && s.life.exec == []
    ensures s.position < |s.slots| && s.granularity > 0
    ensures FiredInTick(s, script)
         == Executed(Due(s.slots[s.position], s.marks), StoredScript(script, s.granularity), 0)
  {
    hide StoredScript, FiredFrom;
    SoundInv(s);
    var begun := AfterBegin(s);
    forall j | 0 <= j < |begun.life.exec|
      ensures begun.life.info[begun.life.exec[j]].status == WaitForExecution
    {
      assert begun.life.exec[j] in begun.life.exec;
    }
    ChecksOnLedger(begun, 0, script);
    ChecksExecute(begun.life, 0, StoredScript(script, s.granularity));
  }

  /** What was deleted stays deleted. */
  lemma TickOnlyDeletes<T>(s: State<T>, script: seq<seq<Command<T>>>)
    requires Inv(s) && s.life.exec == []
    ensures OnlyDeletes(s.life.info, AfterTick(s, script).life.info)
  {
    hide StoredScript, Linked, Lifecycle.AfterChecks, Lifecycle.AfterFinish, AfterChecks, AfterFinish;
    SoundInv(s);
    var begun := AfterBegin(s);
    SoundInv(begun);
    ChecksOnLedger(begun, 0, script);
    ChecksOnlyDelete(begun.life, 0, StoredScript(script, s.granularity));
    SoundInv(AfterChecks(begun, 0, script));
    FinishKeepsHolders(AfterChecks(begun, 0, script).life);
  }

  // ------------------------------------------------------------------ the steps, written out

  function Appended<T>(slots: seq<seq<T>>, i: nat, t: T): seq<seq<T>>
    requires i < |slots|
  {
    slots[i := slots[i] + [t]]
  }

  lemma AllocateEquation<T>(s: State<T>, t: T)
    requires Inv(s) && Counted(s.life) && t !in s.life.info
    ensures AfterAllocate(s, t) ==
            s.(life := s.life.(info := s.life.info[t := Info(Deactivated, 0, 1, 1)]))
    ensures Counted(AfterAllocate(s, t).life)
  {
    AllocateCounts(s.life, t);
  }

  lemma ActivateEquation<T>(s: State<T>, t: T, pause: int, period: int)
    requires Inv(s) && Counted(s.life) && t in s.life.info && s.life.info[t].status == Deactivated
    ensures var i, stored, r := s.life.info[t], StoredPeriod(period, s.granularity), AfterActivate(s, t, pause, period);
            var m := MarkFor(s.position, |s.slots|, DurationToTicks(pause, s.granularity));
            && r.life.info == s.life.info[t := Info(Active, stored, i.refs + 1, i.holders)]
            && r.life.exec == s.life.exec && SameRing(s, r)
            && r.life.single == s.life.single + (if stored == 0 then 1 else 0)
            && r.life.periodic == s.life.periodic + (if stored == 0 then 0 else 1)
            && r.marks == s.marks[t := m] && r.slots == Appended(s.slots, m.slot, t)
    ensures Counted(AfterActivate(s, t, pause, period).life)
  {
    CallCounts(s.life, Stored(Activate(t, 0, pause, period), s.granularity));
  }

  /** An activation notifies the thread exactly when no other timer belongs to the engine. */
  lemma ActivateNotifies<T>(s: State<T>, t: T, pause: int, period: int)
    requires Inv(s) && Counted(s.life) && t in s.life.info
    ensures ActivateOutcome(s, t, pause, period) ==
            if s.life.info[t].status != Deactivated then Failed(NotDeactivated)
            else Done(forall u :: u in s.life.info ==> s.life.info[u].status == Deactivated)
  {
    hide Placed;
    ZeroCountersMeanEmpty(s.life);
  }

  /** So does a rescheduling: a timer that is active, as it owns itself, never notifies. */
  lemma RescheduleNotifies<T>(s: State<T>, t: T, pause: int, period: int)
    requires Inv(s) && Counted(s.life) && t in s.life.info
    ensures RescheduleOutcome(s, t, pause, period) ==
            if InExec(s.life.info[t]) then Failed(InProcessing)
            else Done(forall u :: u in s.life.info ==> s.life.info[u].status == Deactivated)
  {
    hide Inv, Counted, ActivateOutcome;
    ActivateNotifies(s, t, pause, period);
  }

  /** The engine takes the timer: it is not active, or it is to be moved. */
  predicate Accepts<T>(s: State<T>, c: Command<T>) {
    c.timer in s.life.info &&
    match c
    case Activate(t, _, _, _) => s.life.info[t].status == Deactivated
    case Reschedule(t, _, _, _) => !InExec(s.life.info[t])
    case _ => false
  }

  /** Then the period in the ledger is the one that was asked for, in ticks: off by at most half
      a tick exactly if it rounds to one tick at least and to a number that fits. */
  lemma PeriodIsRounded<T>(s: State<T>, c: Command<T>)
    requires Inv(s) && Accepts(s, c)
    ensures s.granularity > 0 && c.timer in After(s, c).life.info
    ensures var q, g := After(s, c).life.info[c.timer].period, s.granularity;
            && (q == 0 <==> c.period == 0)
            && (c.period != 0 ==>
                  (-(g / 2) <= q * g - c.period <= g / 2 <==> g <= c.period + g / 2 < UINT_RANGE * g))
  {
    hide Linked, StoredPeriod;
    StoredPeriodIs(c.period, s.granularity);
  }

  lemma DeactivateEquation<T>(s: State<T>, t: T)
    requires Inv(s) && Counted(s.life) && t in s.life.info
    ensures var i, r := s.life.info[t], AfterDeactivate(s, t);
            && r.life.exec == s.life.exec && SameRing(s, r)
            && match i.status
               case Active =>
                 && t in s.marks && s.marks[t].slot < |s.slots| && i.refs > 0
                 && r.life.info == Put(s.life.info, t, Info(Deactivated, i.period, i.refs - 1, i.holders))
                 && r.life.single == s.life.single - (if i.period == 0 then 1 else 0)
                 && r.life.periodic == s.life.periodic - (if i.period == 0 then 0 else 1)
                 && r.marks == s.marks - {t}
                 && r.slots == s.slots[s.marks[t].slot := Without(s.slots[s.marks[t].slot], t)]
                 && (if i.period == 0 then s.life.single > 0 else s.life.periodic > 0)
               case WaitForExecution =>
                 r == s.(life := s.life.(info :=
                        Put(s.life.info, t, Info(WaitForDeactivation, i.period, i.refs, i.holders))))
               case _ => r == s
    ensures Counted(AfterDeactivate(s, t).life)
  {
    CallCounts(s.life, Deactivate(t));
    if s.life.info[t].status == Active {
      OwnedIsCounted(s.life, t);
    }
  }

  lemma RescheduleEquation<T>(s: State<T>, t: T, pause: int, period: int)
    requires Inv(s) && Counted(s.life) && t in s.life.info && s.life.info[t].status == Active
    ensures t in s.marks && s.marks[t].slot < |s.slots|
    ensures var i, stored := s.life.info[t], StoredPeriod(period, s.granularity);
            var r := AfterReschedule(s, t, pause, period);
            var m := MarkFor(s.position, |s.slots|, DurationToTicks(pause, s.granularity));
            var slots := s.slots[s.marks[t].slot := Without(s.slots[s.marks[t].slot], t)];
            && r.life.info == s.life.info[t := Info(Active, stored, i.refs, i.holders)]
            && r.life.exec == s.life.exec && SameRing(s, r)
            && r.life.single == s.life.single - (if i.period == 0 then 1 else 0) + (if stored == 0 then 1 else 0)
            && r.life.periodic == s.life.periodic - (if i.period == 0 then 0 else 1) + (if stored == 0 then 0 else 1)
            && r.marks == (s.marks - {t})[t := m] && r.slots == Appended(slots, m.slot, t)
            && (if i.period == 0 then s.life.single > 0 else s.life.periodic > 0)
    ensures Counted(AfterReschedule(s, t, pause, period).life)
  {
    CallCounts(s.life, Stored(Reschedule(t, 0, pause, period), s.granularity));
    OwnedIsCounted(s.life, t);
  }

  lemma CallKeepsCount<T>(s: State<T>, c: Command<T>)
    requires Inv(s) && Counted(s.life)
    ensures Counted(After(s, c).life)
  {
    hide Sound, Counted, Linked;
    CallCounts(s.life, Stored(c, s.granularity));
  }

  lemma HoldEquation<T>(s: State<T>, t: T)
    requires Inv(s) && t in s.life.info
    ensures var i := s.life.info[t];
            && After(s, Hold(t)) == s.(life := s.life.(info :=
                Put(s.life.info, t, Info(i.status, i.period, i.refs + 1, i.holders + 1))))
            && i.refs > 0
            && (i.holders > 0 ==> After(s, Drop(t)) == s.(life := s.life.(info :=
                Put(s.life.info, t, Info(i.status, i.period, i.refs - 1, i.holders - 1)))))
            && (i.holders == 0 ==> After(s, Drop(t)) == s)
  {
    hide Inv, Sound;
    HeldOnce(s, t);
  }

  lemma HeldOnce<T>(s: State<T>, t: T)
    requires Inv(s) && t in s.life.info
    ensures Sound(s.life) && s.life.info[t].refs > 0 && s.life.info[t].holders <= s.life.info[t].refs
  {
    hide Linked;
    assert Balanced(s.life.info[t]);
  }

  lemma BeginEquation<T>(s: State<T>)
    requires Inv(s) && Counted(s.life) && s.life.exec == []
    ensures var r, q := AfterBegin(s), s.slots[s.position];
            && r.life.exec == Due(q, s.marks) && r.life.info == Marked(s.life.info, Due(q, s.marks))
            && r.life.single == s.life.single && r.life.periodic == s.life.periodic && SameRing(s, r)
            && r.slots == s.slots[s.position := Kept(q, s.marks)] && r.marks == Rolled(s.marks, s.position)
    ensures Counted(AfterBegin(s).life)
  {
    hide Distinct, Kept, Due, Rolled;
    DueMembers(s.slots[s.position], s.marks);
    BeginCounts(s.life, Due(s.slots[s.position], s.marks));
  }

  lemma FinishOneEquation<T>(s: State<T>)
    requires Inv(s) && Counted(s.life) && s.life.exec != []
    ensures s.life.exec[0] in s.life.info
    ensures var r, t, i := AfterFinishOne(s), s.life.exec[0], s.life.info[s.life.exec[0]];
            && r.life.exec == s.life.exec[1..] && SameRing(s, r)
            && 0 <= i.period < UINT_RANGE && i.refs > 0
            && (if i.status == WaitForExecution && i.period > 0 then
                  var m := MarkFor(s.position, |s.slots|, i.period);
                  && r.life.info == s.life.info[t := Info(Active, i.period, i.refs, i.holders)]
                  && r.life.single == s.life.single && r.life.periodic == s.life.periodic
                  && r.marks == s.marks[t := m] && r.slots == Appended(s.slots, m.slot, t)
                else
                  && r.life.info == Put(s.life.info, t, Info(Deactivated, i.period, i.refs - 1, i.holders))
                  && r.life.single == s.life.single - (if i.period == 0 then 1 else 0)
                  && r.life.periodic == s.life.periodic - (if i.period == 0 then 0 else 1)
                  && r.marks == s.marks && r.slots == s.slots)
            && (if i.period == 0 then s.life.single > 0 else s.life.periodic > 0)
    ensures Counted(AfterFinishOne(s).life)
  {
    hide Counted, Put, MarkFor, Placed, Lifecycle.AfterFinishOne;
    Lifecycle.FinishOneEquation(s.life);
  }

  lemma ChecksStep<T>(s: State<T>, i: nat, script: seq<seq<Command<T>>>)
    requires Inv(s) && i <= |s.life.exec|
    ensures var s1 := AfterAll(s, At(script, i));
            if i == |s.life.exec| then AfterChecks(s, i, script) == s1 && FiredFrom(s, i, script) == []
            else
              && s.life.exec[i] in s1.life.info
              && AfterChecks(s, i, script) == AfterChecks(s1, i + 1, script)
              && FiredFrom(s, i, script) ==
                 (if s1.life.info[s.life.exec[i]].status == WaitForExecution then [s.life.exec[i]] else [])
                 + FiredFrom(s1, i + 1, script)
  {
    hide Linked;
  }

  lemma {:induction false} IdleChecks<T>(s: State<T>, i: nat)
    requires Inv(s) && i <= |s.life.exec|
    ensures AfterChecks(s, i, []) == s
    decreases |s.life.exec| - i
  {
    hide Inv;
    if i < |s.life.exec| {
      IdleChecks(s, i + 1);
    }
  }

  // ------------------------------------------------------------------ visiting a slot

  /** The marks after the timers `done` of the current slot have been visited. */
  function RolledIn<T>(marks: map<T, Mark>, done: seq<T>): map<T, Mark> {
    map t | t in marks && !(t in done && marks[t].rolls == 0) ::
      if t in done then Mark(marks[t].slot, marks[t].rolls - 1) else marks[t]
  }

  /** The state while the current slot is walked through, behind its first `k` timers. */
  ghost function Visited<T>(s: State<T>, k: nat): State<T>
    requires s.position < |s.slots| && k <= |s.slots[s.position]|
  {
    var q := s.slots[s.position];
    var due := Due(q[..k], s.marks);
    s.(life := s.life.(info := Marked(s.life.info, due), exec := due),
       slots := s.slots[s.position := Kept(q[..k], s.marks) + q[k..]],
       marks := RolledIn(s.marks, q[..k]))
  }

  lemma VisitedNone<T>(s: State<T>)
    requires Inv(s) && s.life.exec == []
    ensures Visited(s, 0) == s
  {
    var q := s.slots[s.position];
    MarkedNone(s.life.info);
    assert q[..0] == [] && [] + q[0..] == q;
    assert RolledIn(s.marks, []) == s.marks;
  }

  lemma VisitedAll<T>(s: State<T>)
    requires Inv(s) && s.life.exec == []
    ensures Visited(s, |s.slots[s.position]|) == AfterBegin(s)
  {
    var q := s.slots[s.position];
    assert q[..|q|] == q && Kept(q, s.marks) + q[|q|..] == Kept(q, s.marks);
    assert RolledIn(s.marks, q) == Rolled(s.marks, s.position);
  }

  lemma DueCons<T>(t: T, q: seq<T>, marks: map<T, Mark>)
    ensures Due([t] + q, marks) == (if IsDue(t, marks) then [t] else []) + Due(q, marks)
    ensures Due<T>([], marks) == []
  {
    assert ([t] + q)[1..] == q;
  }

  lemma {:induction false} DueAppended<T>(q: seq<T>, t: T, marks: map<T, Mark>)
    ensures Due(q + [t], marks) == Due(q, marks) + (if IsDue(t, marks) then [t] else [])
    decreases |q|
  {
    hide IsDue, Due;
    if q == [] {
      DueCons(t, [], marks);
      assert q + [t] == [t] + [];
    } else {
      DueAppended(q[1..], t, marks);
      DueCons(q[0], q[1..] + [t], marks);
      DueCons(q[0], q[1..], marks);
      assert q == [q[0]] + q[1..] && q + [t] == [q[0]] + (q[1..] + [t]);
    }
  }

  lemma KeptCons<T>(t: T, q: seq<T>, marks: map<T, Mark>)
    ensures Kept([t] + q, marks) == (if IsDue(t, marks) then [] else [t]) + Kept(q, marks)
    ensures Kept<T>([], marks) == []
  {
    assert ([t] + q)[1..] == q;
  }

  lemma {:induction false} KeptAppended<T>(q: seq<T>, t: T, marks: map<T, Mark>)
    ensures Kept(q + [t], marks) == Kept(q, marks) + (if IsDue(t, marks) then [] else [t])
    decreases |q|
  {
    hide IsDue, Kept;
    if q == [] {
      KeptCons(t, [], marks);
      assert q + [t] == [t] + [];
    } else {
      KeptAppended(q[1..], t, marks);
      KeptCons(q[0], q[1..] + [t], marks);
      KeptCons(q[0], q[1..], marks);
      assert q == [q[0]] + q[1..] && q + [t] == [q[0]] + (q[1..] + [t]);
    }
  }

  lemma DueOneMore<T>(q: seq<T>, k: nat, marks: map<T, Mark>)
    requires k < |q|
    ensures Due(q[..k + 1], marks) == Due(q[..k], marks) + (if IsDue(q[k], marks) then [q[k]] else [])
    ensures Kept(q[..k + 1], marks) == Kept(q[..k], marks) + (if IsDue(q[k], marks) then [] else [q[k]])
  {
    DueAppended(q[..k], q[k], marks);
    KeptAppended(q[..k], q[k], marks);
    assert q[..k + 1] == q[..k] + [q[k]];
  }

  lemma RemoveBetween<T>(a: seq<T>, t: T, b: seq<T>)
    requires t !in a
    ensures Without(a + [t] + b, t) == a + b
  {
    hide IndexOf, RemoveAt;
    var q := a + [t] + b;
    assert q[..|a|] == a && q[|a| + 1..] == b;
    IndexOfFirst(q, t, |a|);
    RemoveAtSlices(q, |a|);
  }

  lemma {:induction false} IndexOfFirst<T>(q: seq<T>, t: T, k: nat)
    requires k < |q| && q[k] == t && t !in q[..k]
    ensures IndexOf(q, t) == k
  {
    if k > 0 {
      assert q[0] in q[..k];
      IndexOfFirst(q[1..], t, k - 1);
    }
  }

  lemma PrefixMembers<T>(q: seq<T>, k: nat)
    requires Distinct(q) && k < |q|
    ensures q[k] !in q[..k] && Distinct(q[..k]) && Distinct(q[k..])
    ensures forall t :: t in q[..k + 1] <==> t in q[..k] || t == q[k]
    ensures forall t :: t in q[..k] ==> t !in q[k..]
  {
    assert q[..k + 1] == q[..k] + [q[k]];
  }

  /** The timer to be visited next is as it was. */
  lemma VisitedNext<T>(s: State<T>, k: nat)
    requires Inv(s) && s.life.exec == [] && k < |s.slots[s.position]|
    ensures var v, p, t := Visited(s, k), s.position, s.slots[s.position][k];
            && t in s.marks && s.marks[t].slot == p && t in v.marks && v.marks[t] == s.marks[t]
            && t in s.life.info && t in v.life.info && v.life.info[t] == s.life.info[t]
            && v.life.info[t].refs > 0
            && t !in v.life.exec && t in v.slots[p]
    ensures s.position < |s.slots| && Distinct(s.slots[s.position])
  {
    hide Due, Kept, Distinct;
    var q := s.slots[s.position];
    PrefixMembers(q, k);
    DueMembers(q[..k], s.marks);
    assert q[k] in q[k..];
  }

  lemma RolledOneMore<T>(marks: map<T, Mark>, done: seq<T>, t: T)
    requires t in marks && t !in done
    ensures RolledIn(marks, done + [t]) ==
            if marks[t].rolls == 0 then RolledIn(marks, done) - {t}
            else RolledIn(marks, done)[t := Mark(marks[t].slot, marks[t].rolls - 1)]
  {
  }

  /** One more timer visited: it either joins the execution list or has one roll less to go. */
  lemma VisitedOneMore<T>(s: State<T>, k: nat)
    requires Inv(s) && s.life.exec == [] && k < |s.slots[s.position]|
    ensures var v, w, p, t := Visited(s, k), Visited(s, k + 1), s.position, s.slots[s.position][k];
            && t in v.marks && t in v.life.info
            && (if v.marks[t].rolls == 0 then
                  var i := v.life.info[t];
                  && w.life.info == Put(v.life.info, t, Info(WaitForExecution, i.period, i.refs, i.holders))
                  && w.life.exec == v.life.exec + [t]
                  && w.slots == v.slots[p := Without(v.slots[p], t)]
                  && w.marks == v.marks - {t}
                else
                  w == v.(marks := v.marks[t := Mark(p, v.marks[t].rolls - 1)]))
  {
    hide Due, Kept, Distinct, Inv, Marked, RolledIn, Put, Without;
    VisitedNext(s, k);
    var q := s.slots[s.position];
    var t, due, kept := q[k], Due(q[..k], s.marks), Kept(q[..k], s.marks);
    PrefixMembers(q, k);
    DueMembers(q[..k], s.marks);
    DueOneMore(q, k, s.marks);
    RolledOneMore(s.marks, q[..k], t);
    assert q[..k + 1] == q[..k] + [t];
    assert kept + q[k..] == kept + [t] + q[k + 1..];
    assert due + [] == due && kept + [] == kept;
    if IsDue(t, s.marks) {
      MarkedOneMore(s.life.info, due, t);
      RemoveBetween(kept, t, q[k + 1..]);
    }
  }

  // ------------------------------------------------------------------ clearing

  /** The timers of all slots, slot by slot. */
  function Flatten<T>(slots: seq<seq<T>>): seq<T> {
    if slots == [] then [] else Flatten(slots[..|slots| - 1]) + slots[|slots| - 1]
  }

  lemma {:induction false} FlattenMembers<T>(slots: seq<seq<T>>)
    ensures forall i, t :: 0 <= i < |slots| && t in slots[i] ==> t in Flatten(slots)
    ensures forall t :: t in Flatten(slots) ==> exists i :: 0 <= i < |slots| && t in slots[i]
  {
    if slots != [] {
      var last := |slots| - 1;
      FlattenMembers(slots[..last]);
      forall t | t in Flatten(slots[..last])
        ensures exists i :: 0 <= i < |slots| && t in slots[i]
      {
        var i :| 0 <= i < last && t in slots[..last][i];
        assert t in slots[i];
      }
      forall i, t | 0 <= i < |slots| && t in slots[i]
        ensures t in Flatten(slots)
      {
        assert i < last ==> t in slots[..last][i];
      }
    }
  }

  lemma FlattenOneMore<T>(slots: seq<seq<T>>, i: nat)
    requires i < |slots|
    ensures Flatten(slots[..i + 1]) == Flatten(slots[..i]) + slots[i]
  {
    assert slots[..i + 1][..i] == slots[..i];
  }

  lemma LinkedFlatten<T>(s: State<T>)
    requires Inv(s) && s.life.exec == []
    ensures AllActive(s.life, Flatten(s.slots))
    ensures forall t :: t in s.life.info && s.life.info[t].status == Active ==> t in Flatten(s.slots)
  {
    hide Distinct, Sound, Flatten;
    FlattenMembers(s.slots);
  }

  lemma ClearedInfos<T>(info: map<T, Info>, ts: seq<T>)
    ensures forall t :: t in Cleared(info, ts) ==>
      t in info && Cleared(info, ts)[t].period == info[t].period
      && Cleared(info, ts)[t].status == if t in ts then Deactivated else info[t].status
  {
  }

  lemma AllEmpty<T>(slots: seq<seq<T>>, life: Ledger<T>)
    requires forall i :: 0 <= i < |slots| ==> slots[i] == []
    requires forall t :: t in life.info ==> life.info[t].status != Active
    ensures Placed(slots, map[]) && MarksActive(life, map[])
  {
  }

  /** `clear_all`, called when no pass is under way: the wheel is empty and starts afresh. */
  function AfterClear<T>(s: State<T>): (r: State<T>)
    requires Inv(s) && s.life.exec == []
    ensures Inv(r)
  {
    hide Flatten, Sound, Placed, Cleared;
    LinkedFlatten(s);
    SoundInv(s);
    ClearedInfos(s.life.info, Flatten(s.slots));
    AllEmpty(seq(|s.slots|, _ => []), Lifecycle.AfterClear(s.life, Flatten(s.slots)));
    State(Lifecycle.AfterClear(s.life, Flatten(s.slots)), seq(|s.slots|, _ => []), map[], 0, s.granularity)
  }

  /** The slots after the first `i` of them have been emptied. */
  function Emptied<T>(slots: seq<seq<T>>, i: nat): seq<seq<T>>
    requires i <= |slots|
  {
    seq(i, _ => []) + slots[i..]
  }

  lemma ClearEquation<T>(s: State<T>)
    requires Inv(s) && s.life.exec == []
    ensures var r := AfterClear(s);
            && r.life.info == Cleared(s.life.info, Flatten(s.slots)) && r.life.exec == []
            && r.life.single == 0 && r.life.periodic == 0 && r.marks == map[]
            && r.slots == Emptied(s.slots, |s.slots|) && r.position == 0 && r.granularity == s.granularity
            && Counted(r.life)
  {
    hide Flatten, Inv, Cleared;
    SoundInv(s);
    LinkedFlatten(s);
    ClearCounts(s.life, Flatten(s.slots));
  }

  /** While slot `i` is emptied, the timers met are in the ledger and come up for the first time. */
  lemma ClearedNext<T>(s: State<T>, i: nat, k: nat)
    requires Inv(s) && i < |s.slots| && k < |s.slots[i]|
    ensures var t := s.slots[i][k];
            && t in s.life.info && s.life.info[t].refs > 0
            && t !in Flatten(s.slots[..i]) + s.slots[i][..k]
  {
    hide Flatten;
    FlattenMembers(s.slots[..i]);
    var t := s.slots[i][k];
    assert t in s.slots[i];
    forall u | u in Flatten(s.slots[..i])
      ensures u in s.marks && s.marks[u].slot < i
    {
      var j :| 0 <= j < i && u in s.slots[..i][j];
      assert u in s.slots[j];
    }
  }
}
