/**
  When the wheel fires: exact ticks, over any run of ticks and calls.

  Ticks are counted by the calls of process_current_wheel_position.
 */
module WheelTiming {
  import opened Lifecycle
  import opened Sequences
  import opened Division
  import opened WheelSpec

  // ------------------------------------------------------------------ arithmetic of the ring

  /** How many slots ahead of `position` the slot lies. */
  function Distance(position: nat, slot: nat, size: nat): nat
    requires position < size && slot < size
  {
    if position <= slot then slot - position else slot + size - position
  }

  /** Going `ticks` slots forward ends `ticks % size` slots ahead. */
  lemma DistanceForward(position: nat, size: nat, ticks: nat)
    requires position < size
    ensures Distance(position, (position + ticks) % size, size) == ticks % size
  {
    var k, b := ticks / size, ticks % size;
    assert ticks == k * size + b;
    if position + b < size {
      QuotientUnique(position + ticks, k, position + b, size);
    } else {
      assert (k + 1) * size == k * size + size;
      QuotientUnique(position + ticks, k + 1, position + b - size, size);
    }
  }

  /** The sum of the position and the ticks is not spoilt by the width of unsigned int. */
  predicate SumFits(position: nat, size: nat, ticks: nat) {
    position + ticks < UINT_RANGE || (size > 0 && UINT_RANGE % size == 0)
  }

  /** The distance and the rolls given to a timer add up to its ticks exactly when the sum of
      unsigned ints does not wrap, or when wrapping does no harm to the slot. */
  lemma MarkIsExact(position: nat, size: nat, ticks: nat)
    requires position < size < UINT_RANGE && ticks < UINT_RANGE
    ensures var m := MarkFor(position, size, ticks);
            Distance(position, m.slot, size) + m.rolls * size == ticks
            <==> SumFits(position, size, ticks)
  {
    var x := position + ticks;
    var m := MarkFor(position, size, ticks);
    DistanceForward(position, size, ticks);
    assert ticks == (ticks / size) * size + ticks % size;
    if x < UINT_RANGE {
      QuotientUnique(x, 0, x, UINT_RANGE);
    } else {
      QuotientUnique(x, 1, x - UINT_RANGE, UINT_RANGE);
      ShiftKeepsMod(x, UINT_RANGE, size);
    }
  }

  // ------------------------------------------------------------------ ticks to go

  /** How many ticks will be processed before the one in which the timer is due. */
  function Remaining<T>(s: State<T>, t: T): nat
    requires Shape(s) && t in s.marks && s.marks[t].slot < |s.slots|
  {
    Distance(s.position, s.marks[t].slot, |s.slots|) + s.marks[t].rolls * |s.slots|
  }

  /** How long a periodic timer takes from one firing to the next: its period, and a full
      roll more if the period is a multiple of the wheel size, because the timer is put back
      before the position advances. */
  function Cycle(period: nat, size: nat): nat
    requires size > 0
  {
    if period % size == 0 then period + size else period
  }

  /** A call that does not touch the timing of `t`. */
  predicate Spares<T(==)>(c: Command<T>, t: T) {
    c.timer == t ==> c.Hold? || c.Drop?
  }

  predicate AllSpare<T(==)>(cs: seq<Command<T>>, t: T) {
    forall i :: 0 <= i < |cs| ==> Spares(cs[i], t)
  }

  predicate ScriptSpares<T(==)>(script: seq<seq<Command<T>>>, t: T) {
    forall i :: 0 <= i < |script| ==> AllSpare(script[i], t)
  }

  /** What a call leaves alone: mark, status and period of the timer. */
  ghost predicate SameTiming<T>(a: State<T>, b: State<T>, t: T) {
    && (t in a.marks <==> t in b.marks)
    && (t in a.marks ==> a.marks[t] == b.marks[t])
    && (t in a.life.info && a.life.info[t].status != Deactivated <==>
        t in b.life.info && b.life.info[t].status != Deactivated)
    && (t in a.life.info && a.life.info[t].status != Deactivated ==>
        a.life.info[t].status == b.life.info[t].status && a.life.info[t].period == b.life.info[t].period)
  }

  lemma CallSpares<T>(s: State<T>, c: Command<T>, t: T)
    requires Inv(s) && Spares(c, t)
    ensures SameTiming(s, WheelSpec.After(s, c), t)
  {
    hide Placed, Distinct, Without, MarkFor, DurationToTicks, Periods, MarksActive, StoredPeriod;
    if c.Hold? || c.Drop? {
      HoldSpares(s, c, t);
    }
  }

  lemma HoldSpares<T>(s: State<T>, c: Command<T>, t: T)
    requires Inv(s) && (c.Hold? || c.Drop?)
    ensures SameTiming(s, WheelSpec.After(s, c), t)
  {
    hide Placed, Distinct, MarksActive;
    if c.timer in s.life.info {
      HeldOnce(s, c.timer);
    }
  }

  lemma {:induction false} CallsSpare<T>(s: State<T>, cs: seq<Command<T>>, t: T)
    requires Inv(s) && AllSpare(cs, t)
    ensures SameTiming(s, WheelSpec.AfterAll(s, cs), t)
    decreases |cs|
  {
    hide Inv;
    if |cs| > 0 {
      CallSpares(s, cs[0], t);
      CallsSpare(WheelSpec.After(s, cs[0]), cs[1..], t);
    }
  }

  lemma {:induction false} ChecksSpare<T>(s: State<T>, i: nat, script: seq<seq<Command<T>>>, t: T)
    requires Inv(s) && i <= |s.life.exec| && forall k :: i <= k < |script| ==> AllSpare(script[k], t)
    ensures SameTiming(s, WheelSpec.AfterChecks(s, i, script), t)
    decreases |s.life.exec| - i
  {
    hide Inv, SameTiming, AllSpare, WheelSpec.AfterAll, WheelSpec.AfterChecks, FiredFrom;
    NoneSpares(t);
    assert AllSpare(At(script, i), t);
    CallsSpare(s, At(script, i), t);
    WheelSpec.ChecksStep(s, i, script);
    if i < |s.life.exec| {
      var s1 := WheelSpec.AfterAll(s, At(script, i));
      ChecksSpare(s1, i + 1, script, t);
      SameTimingThrough(s, s1, WheelSpec.AfterChecks(s, i, script), t);
    }
  }

  lemma NoneSpares<T>(t: T)
    ensures AllSpare([], t)
  {
  }

  lemma SameTimingThrough<T>(a: State<T>, b: State<T>, c: State<T>, t: T)
    requires SameTiming(a, b, t) && SameTiming(b, c, t)
    ensures SameTiming(a, c, t)
  {
  }

  // ------------------------------------------------------------------ one tick

  /** The ticks to go as they will count once the position has advanced. */
  function RemainingNext<T>(s: State<T>, t: T): nat
    requires Shape(s) && t in s.marks && s.marks[t].slot < |s.slots|
  {
    Distance(NextPosition(s), s.marks[t].slot, |s.slots|) + s.marks[t].rolls * |s.slots|
  }

  lemma OneTickCloser(position: nat, slot: nat, rolls: nat, size: nat)
    requires position < size && slot < size && (slot == position ==> rolls > 0)
    ensures var next := if position + 1 >= size then 0 else position + 1;
            var rolls' := if slot == position then rolls - 1 else rolls;
            Distance(next, slot, size) + rolls' * size == Distance(position, slot, size) + rolls * size - 1
  {
    assert rolls * size == (rolls - 1) * size + size;
  }

  lemma BeginMarks<T>(s: State<T>, t: T)
    requires Inv(s) && s.life.exec == [] && t in s.marks
    ensures t in s.life.info && s.marks[t].slot < |s.slots|
    ensures var b, m := WheelSpec.AfterBegin(s), s.marks[t];
            && t in b.life.info && b.life.info[t].period == s.life.info[t].period
            && (if m.slot == s.position && m.rolls == 0 then
                  t !in b.marks && t in b.life.exec && b.life.info[t].status == WaitForExecution
                else
                  && t !in b.life.exec && b.life.info[t].status == Active && t in b.marks
                  && b.marks[t] == Mark(m.slot, if m.slot == s.position then m.rolls - 1 else m.rolls))
  {
    hide Distinct, Due, Kept, Sound;
    PlacedBegin(s.slots, s.marks, s.position);
  }

  lemma BeginTiming<T>(s: State<T>, t: T)
    requires Inv(s) && s.life.exec == [] && t in s.marks
    ensures t in s.life.info && s.marks[t].slot < |s.slots|
    ensures var b := WheelSpec.AfterBegin(s);
            && t in b.life.info && b.life.info[t].period == s.life.info[t].period
            && (if Remaining(s, t) == 0 then
                  t !in b.marks && t in b.life.exec && b.life.info[t].status == WaitForExecution
                else
                  && t in b.marks && t !in b.life.exec && b.marks[t].slot < |s.slots|
                  && b.life.info[t].status == Active
                  && RemainingNext(b, t) == Remaining(s, t) - 1)
  {
    hide Inv, Sound, Linked, WheelSpec.AfterBegin;
    SoundInv(s);
    BeginMarks(s, t);
    var m := s.marks[t];
    if m.slot != s.position || m.rolls > 0 {
      OneTickCloser(s.position, m.slot, m.rolls, |s.slots|);
    }
  }

  lemma FirstOfExec<T>(s: State<T>)
    requires Inv(s) && s.life.exec != []
    ensures s.life.exec[0] in s.life.info && s.life.exec[0] !in s.marks
  {
    assert s.life.exec[0] in s.life.exec;
  }

  lemma FinishOneSpares<T>(s: State<T>, t: T)
    requires Inv(s) && s.life.exec != []
    ensures t != s.life.exec[0] ==> SameTiming(s, WheelSpec.AfterFinishOne(s), t)
  {
    hide Placed, Distinct, MarkFor, Periods, MarksActive;
  }

  lemma FinishOneRepeats<T>(s: State<T>)
    requires Inv(s) && s.life.exec != []
    ensures s.life.exec[0] in s.life.info
    ensures var f, u := WheelSpec.AfterFinishOne(s), s.life.exec[0];
            s.life.info[u].status == WaitForExecution && s.life.info[u].period > 0 ==>
              && u in f.life.info && f.life.info[u].status == Active
              && f.life.info[u].period == s.life.info[u].period
              && u in f.marks && f.marks[u] == MarkFor(s.position, |s.slots|, s.life.info[u].period)
  {
    hide Placed, Distinct, MarkFor, Periods, MarksActive;
    FirstOfExec(s);
  }

  lemma FinishOneReleases<T>(s: State<T>)
    requires Inv(s) && s.life.exec != []
    ensures s.life.exec[0] in s.life.info
    ensures var f, u := WheelSpec.AfterFinishOne(s), s.life.exec[0];
            s.life.info[u].status != WaitForExecution || s.life.info[u].period == 0 ==>
              u !in f.marks && (u in f.life.info ==> f.life.info[u].status == Deactivated)
  {
    hide Placed, Distinct, MarkFor, Periods, MarksActive;
    FirstOfExec(s);
  }

  lemma FinishOneTiming<T>(s: State<T>, t: T)
    requires Inv(s) && s.life.exec != []
    ensures var f, u := WheelSpec.AfterFinishOne(s), s.life.exec[0];
            && u in s.life.info
            && (t != u ==> SameTiming(s, f, t))
            && (t == u && s.life.info[u].status == WaitForExecution && s.life.info[u].period > 0 ==>
                  && u in f.life.info && f.life.info[u].status == Active
                  && f.life.info[u].period == s.life.info[u].period
                  && u in f.marks && f.marks[u] == MarkFor(s.position, |s.slots|, s.life.info[u].period))
            && (t == u && (s.life.info[u].status != WaitForExecution || s.life.info[u].period == 0) ==>
                  u !in f.marks && (u in f.life.info ==> f.life.info[u].status == Deactivated))
  {
    hide Inv, WheelSpec.AfterFinishOne, SameTiming, MarkFor;
    FirstOfExec(s);
    FinishOneSpares(s, t);
    FinishOneRepeats(s);
    FinishOneReleases(s);
  }

  lemma {:induction false} FinishSpares<T>(s: State<T>, t: T)
    requires Inv(s) && t !in s.life.exec
    ensures SameTiming(s, WheelSpec.AfterFinish(s), t)
    decreases |s.life.exec|
  {
    hide Inv;
    SoundInv(s);
    if s.life.exec != [] {
      FinishOneTiming(s, t);
      FinishSpares(WheelSpec.AfterFinishOne(s), t);
    }
  }

  /** The end of a tick puts a periodic timer that nobody deactivated back, one period ahead
      of the slot that is still the current one. */
  lemma {:induction false} FinishTiming<T>(s: State<T>, t: T)
    requires Inv(s) && t in s.life.exec
    ensures t in s.life.info
    ensures var f := WheelSpec.AfterFinish(s);
            if s.life.info[t].status == WaitForExecution && s.life.info[t].period > 0 then
              && t in f.life.info && f.life.info[t].status == Active
              && f.life.info[t].period == s.life.info[t].period
              && t in f.marks && f.marks[t] == MarkFor(s.position, |s.slots|, s.life.info[t].period)
            else
              t !in f.marks && (t in f.life.info ==> f.life.info[t].status == Deactivated)
    decreases |s.life.exec|
  {
    var u := s.life.exec[0];
    ExecFacts(s, t);
    hide Inv, Sound, MarkFor;
    FinishOneTiming(s, t);
    var s1 := WheelSpec.AfterFinishOne(s);
    if t == u {
      FinishSpares(s1, t);
    } else {
      FinishTiming(s1, t);
    }
  }

  lemma ExecFacts<T>(s: State<T>, t: T)
    requires Inv(s) && t in s.life.exec
    ensures t in s.life.info && 0 <= s.life.info[t].period < UINT_RANGE
    ensures InExec(s.life.info[t]) && t !in s.marks
    ensures s.life.exec[0] !in s.life.exec[1..]
    ensures t == s.life.exec[0] || t in s.life.exec[1..]
  {
    DistinctTail(s.life.exec);
  }

  // ------------------------------------------------------------------ what a tick does to one timer

  lemma {:induction false} FiredAreExec<T>(s: State<T>, i: nat, script: seq<seq<Command<T>>>, t: T)
    requires Inv(s) && i <= |s.life.exec| && t in FiredFrom(s, i, script)
    ensures t in s.life.exec
    decreases |s.life.exec| - i
  {
    hide Inv, Sound, WheelSpec.AfterAll, At;
    if i < |s.life.exec| {
      var s1 := WheelSpec.AfterAll(s, At(script, i));
      if t in FiredFrom(s1, i + 1, script) {
        FiredAreExec(s1, i + 1, script, t);
      }
    }
  }

  lemma {:induction false} SparedFires<T>(s: State<T>, i: nat, k: nat, script: seq<seq<Command<T>>>)
    requires Inv(s) && i <= k < |s.life.exec| && ScriptSpares(script, s.life.exec[k])
    requires s.life.exec[k] in s.life.info && s.life.info[s.life.exec[k]].status == WaitForExecution
    ensures s.life.exec[k] in FiredFrom(s, i, script)
    decreases |s.life.exec| - i
  {
    hide Inv, Sound, FiredFrom, WheelSpec.AfterChecks, WheelSpec.AfterAll, Spares;
    WheelSpec.ChecksStep(s, i, script);
    var s1 := WheelSpec.AfterAll(s, At(script, i));
    assert AllSpare(At(script, i), s.life.exec[k]);
    CallsSpare(s, At(script, i), s.life.exec[k]);
    if i < k {
      SparedFires(s1, i + 1, k, script);
    }
  }

  lemma TickWaits<T>(s: State<T>, script: seq<seq<Command<T>>>, t: T)
    requires Inv(s) && s.life.exec == [] && ScriptSpares(script, t) && t in s.marks
    requires s.marks[t].slot < |s.slots| && Remaining(s, t) > 0
    ensures t in s.life.info && t !in FiredInTick(s, script)
    ensures var f := WheelSpec.AfterTick(s, script);
            && t in f.marks && f.marks[t].slot < |f.slots| && Remaining(f, t) == Remaining(s, t) - 1
            && t in f.life.info && f.life.info[t].period == s.life.info[t].period
  {
    hide Inv, WheelSpec.AfterBegin, WheelSpec.AfterChecks, WheelSpec.AfterFinish, FiredFrom;
    var b := WheelSpec.AfterBegin(s);
    BeginTiming(s, t);
    SoundInv(b);
    if b.life.exec != [] {
      if t in FiredFrom(b, 0, script) {
        FiredAreExec(b, 0, script, t);
      }
      ChecksSpare(b, 0, script, t);
      FinishSpares(WheelSpec.AfterChecks(b, 0, script), t);
    }
  }

  lemma TickFires<T>(s: State<T>, script: seq<seq<Command<T>>>, t: T)
    requires Inv(s) && s.life.exec == [] && ScriptSpares(script, t) && t in s.marks
    requires s.marks[t].slot < |s.slots| && Remaining(s, t) == 0
    ensures t in s.life.info && t in FiredInTick(s, script)
    ensures var f, period := WheelSpec.AfterTick(s, script), s.life.info[t].period;
            if period > 0 then
              && t in f.marks && t in f.life.info && f.life.info[t].period == period
              && f.marks[t] == MarkFor(s.position, |s.slots|, period)
            else t !in f.marks && (t in f.life.info ==> f.life.info[t].status == Deactivated)
  {
    hide Inv, WheelSpec.AfterBegin, WheelSpec.AfterChecks, WheelSpec.AfterFinish, FiredFrom, MarkFor;
    var b := WheelSpec.AfterBegin(s);
    BeginTiming(s, t);
    SparedFires(b, 0, IndexOf(b.life.exec, t), script);
    ChecksSpare(b, 0, script, t);
    FinishTiming(WheelSpec.AfterChecks(b, 0, script), t);
  }

  // ------------------------------------------------------------------ when a timer is put in

  /** The ticks to go of a timer linked for `ticks`, counted from the current slot, and
      counted from the next one. */
  lemma InsertedRemaining(position: nat, size: nat, ticks: nat)
    requires position < size < UINT_RANGE && ticks < UINT_RANGE
    ensures var m := MarkFor(position, size, ticks);
            var next := if position + 1 >= size then 0 else position + 1;
            && (Distance(position, m.slot, size) + m.rolls * size == ticks <==> SumFits(position, size, ticks))
            && (Distance(next, m.slot, size) + m.rolls * size + 1 == Cycle(ticks, size)
                <==> SumFits(position, size, ticks))
  {
    MarkIsExact(position, size, ticks);
    var m := MarkFor(position, size, ticks);
    assert ticks == m.rolls * size + ticks % size;
    var d := Distance(position, m.slot, size);
    assert d < size && (d == ticks % size <==> SumFits(position, size, ticks));
  }

  /** Activated between ticks, a timer is due after exactly as many ticks as its pause has;
      the exception, characterised exactly, is a sum that does not fit an unsigned int. */
  lemma ActivatedBetweenTicks<T>(s: State<T>, t: T, pause: int, period: int)
    requires Inv(s) && t in s.life.info && s.life.info[t].status == Deactivated
    ensures var p, r := DurationToTicks(pause, s.granularity), WheelSpec.AfterActivate(s, t, pause, period);
            && t in r.marks && r.marks[t].slot < |r.slots|
            && (Remaining(r, t) == p <==> SumFits(s.position, |s.slots|, p))
            && (RemainingNext(r, t) + 1 == Cycle(p, |s.slots|) <==> SumFits(s.position, |s.slots|, p))
  {
    InsertedRemaining(s.position, |s.slots|, DurationToTicks(pause, s.granularity));
  }

  /** The same holds of a timer that is rescheduled, wherever it was linked before. */
  lemma RescheduledBetweenTicks<T>(s: State<T>, t: T, pause: int, period: int)
    requires Inv(s) && t in s.life.info && !InExec(s.life.info[t])
    ensures var p, r := DurationToTicks(pause, s.granularity), WheelSpec.AfterReschedule(s, t, pause, period);
            && t in r.marks && r.marks[t].slot < |r.slots|
            && (Remaining(r, t) == p <==> SumFits(s.position, |s.slots|, p))
            && (RemainingNext(r, t) + 1 == Cycle(p, |s.slots|) <==> SumFits(s.position, |s.slots|, p))
  {
    InsertedRemaining(s.position, |s.slots|, DurationToTicks(pause, s.granularity));
  }

  // ------------------------------------------------------------------ runs

  /** Calls between two ticks, and calls while the actions of a tick are run. */
  datatype Round<T> = Round(before: seq<Command<T>>, during: seq<seq<Command<T>>>)

  function AfterRound<T>(s: State<T>, round: Round<T>): (r: State<T>)
    requires Inv(s) && s.life.exec == []
    ensures Inv(r) && r.life.exec == [] && |r.slots| == |s.slots|
  {
    WheelSpec.AfterTick(WheelSpec.AfterAll(s, round.before), round.during)
  }

  function FiredInRound<T>(s: State<T>, round: Round<T>): seq<T>
    requires Inv(s) && s.life.exec == []
  {
    FiredInTick(WheelSpec.AfterAll(s, round.before), round.during)
  }

  /** The timers run in tick number `n` of a run. */
  function FiredAt<T>(s: State<T>, rounds: seq<Round<T>>, n: nat): seq<T>
    requires Inv(s) && s.life.exec == [] && n < |rounds|
    decreases n
  {
    if n == 0 then FiredInRound(s, rounds[0]) else FiredAt(AfterRound(s, rounds[0]), rounds[1..], n - 1)
  }

  predicate RoundsSpare<T(==)>(rounds: seq<Round<T>>, t: T) {
    forall i :: 0 <= i < |rounds| ==> AllSpare(rounds[i].before, t) && ScriptSpares(rounds[i].during, t)
  }

  /** The ticks in which a timer fires that has `remaining` ticks to go. */
  predicate FiringTick(remaining: nat, size: nat, period: nat, n: nat)
    requires size > 0
  {
    if period == 0 then n == remaining
    else n >= remaining && (n - remaining) % Cycle(period, size) == 0
  }

  lemma FiringOneLater(remaining: nat, size: nat, period: nat, n: nat)
    requires size > 0
    ensures n == 0 ==> (FiringTick(remaining, size, period, n) <==> remaining == 0)
    ensures n > 0 && remaining > 0 ==>
      (FiringTick(remaining, size, period, n) <==> FiringTick(remaining - 1, size, period, n - 1))
    ensures n > 0 && remaining == 0 && period == 0 ==> !FiringTick(remaining, size, period, n)
  {
    if n == remaining {
      QuotientUnique(0, 0, 0, Cycle(period, size));
    }
  }

  lemma NextFiring(size: nat, period: nat, n: nat)
    requires size > 0 && period > 0 && n > 0
    ensures FiringTick(0, size, period, n) <==> FiringTick(Cycle(period, size) - 1, size, period, n - 1)
  {
    var c := Cycle(period, size);
    if n < c {
      QuotientUnique(n, 0, n, c);
    } else {
      ShiftKeepsMod(n, c, c);
    }
  }

  lemma BeginOut<T>(s: State<T>, t: T)
    requires Inv(s) && s.life.exec == [] && t !in s.marks
    ensures t !in WheelSpec.AfterBegin(s).marks && t !in WheelSpec.AfterBegin(s).life.exec
  {
    DueMembers(s.slots[s.position], s.marks);
  }

  lemma RoundOut<T>(s: State<T>, round: Round<T>, t: T)
    requires Inv(s) && s.life.exec == [] && t !in s.marks
    requires AllSpare(round.before, t) && ScriptSpares(round.during, t)
    ensures t !in FiredInRound(s, round) && t !in AfterRound(s, round).marks
  {
    hide Inv, WheelSpec.AfterBegin, WheelSpec.AfterAll, WheelSpec.AfterChecks, WheelSpec.AfterFinish, FiredFrom;
    CallsSpare(s, round.before, t);
    var s1 := WheelSpec.AfterAll(s, round.before);
    BeginOut(s1, t);
    var b := WheelSpec.AfterBegin(s1);
    if b.life.exec != [] {
      if t in FiredFrom(b, 0, round.during) {
        FiredAreExec(b, 0, round.during, t);
      }
      ChecksSpare(b, 0, round.during, t);
      FinishSpares(WheelSpec.AfterChecks(b, 0, round.during), t);
    }
  }

  /** A timer that is not active and that nobody activates is not run. */
  lemma {:induction false} StaysOut<T>(s: State<T>, rounds: seq<Round<T>>, t: T, n: nat)
    requires Inv(s) && s.life.exec == [] && t !in s.marks
    requires RoundsSpare(rounds, t) && n < |rounds|
    ensures t !in FiredAt(s, rounds, n)
    decreases n
  {
    hide Inv, FiredInRound, AfterRound, AllSpare, ScriptSpares;
    RoundOut(s, rounds[0], t);
    if n > 0 {
      StaysOut(AfterRound(s, rounds[0]), rounds[1..], t, n - 1);
    }
  }

  /** How many ticks after the one at `position` a timer fires that the end of that tick puts
      back for so many ticks. */
  function Gap(position: nat, size: nat, ticks: nat): (g: nat)
    requires position < size
    ensures g > 0
  {
    var m := MarkFor(position, size, ticks);
    Distance(if position + 1 >= size then 0 else position + 1, m.slot, size) + m.rolls * size + 1
  }

  lemma RoundTiming<T>(s: State<T>, round: Round<T>, t: T)
    requires Inv(s) && s.life.exec == [] && t in s.marks
    requires AllSpare(round.before, t) && ScriptSpares(round.during, t)
    ensures t in s.life.info && s.marks[t].slot < |s.slots| && s.life.info[t].period >= 0
    ensures t in FiredInRound(s, round) <==> Remaining(s, t) == 0
    ensures AfterRound(s, round).position == NextPosition(s)
    ensures var f, period := AfterRound(s, round), s.life.info[t].period;
            if Remaining(s, t) > 0 then
              && t in f.marks && f.marks[t].slot < |f.slots| && Remaining(f, t) == Remaining(s, t) - 1
              && t in f.life.info && f.life.info[t].period == period
            else if period > 0 then
              && t in f.marks && f.marks[t].slot < |f.slots| && t in f.life.info && f.life.info[t].period == period
              && Remaining(f, t) == Gap(s.position, |s.slots|, period) - 1
            else t !in f.marks
  {
    hide Inv, WheelSpec.AfterAll, WheelSpec.AfterTick, FiredInTick, MarkFor, Cycle, SumFits;
    MarkedFacts(s, t);
    CallsSpare(s, round.before, t);
    var s1 := WheelSpec.AfterAll(s, round.before);
    if Remaining(s, t) > 0 {
      TickWaits(s1, round.during, t);
    } else {
      TickFires(s1, round.during, t);
      PutBackRemaining(s, AfterRound(s, round), t, s.life.info[t].period);
    }
  }

  /** A timer marked for so many ticks while the position has not advanced. */
  lemma PutBackRemaining<T>(s: State<T>, f: State<T>, t: T, ticks: nat)
    requires Shape(s) && Shape(f) && |f.slots| == |s.slots| && f.position == NextPosition(s)
    ensures var m := MarkFor(s.position, |s.slots|, ticks);
            m.slot < |f.slots| &&
            (t in f.marks && f.marks[t] == m ==> Remaining(f, t) + 1 == Gap(s.position, |s.slots|, ticks))
  {
  }

  lemma GapIsCycle(position: nat, size: nat, ticks: nat)
    requires position < size < UINT_RANGE && ticks < UINT_RANGE
    ensures Gap(position, size, ticks) == Cycle(ticks, size) <==> SumFits(position, size, ticks)
  {
    InsertedRemaining(position, size, ticks);
  }

  /** The period can be added to any position of the wheel. */
  predicate PeriodFits(size: nat, period: nat) {
    size + period <= UINT_RANGE || (size > 0 && UINT_RANGE % size == 0)
  }

  /** So the gap is one cycle wherever the timer is put back; and only then. */
  lemma AlwaysFits(size: nat, period: nat)
    requires 0 < size < UINT_RANGE && period < UINT_RANGE
    ensures PeriodFits(size, period) <==>
            forall position: nat :: position < size ==> Gap(position, size, period) == Cycle(period, size)
  {
    forall position: nat | position < size
      ensures Gap(position, size, period) == Cycle(period, size) <==> SumFits(position, size, period)
    {
      GapIsCycle(position, size, period);
    }
    if !PeriodFits(size, period) {
      assert !SumFits(size - 1, size, period);
    }
  }

  lemma MarkedFacts<T>(s: State<T>, t: T)
    requires Inv(s) && t in s.marks
    ensures Shape(s) && t in s.life.info && s.life.info[t].status == Active
    ensures 0 <= s.life.info[t].period < UINT_RANGE && s.marks[t].slot < |s.slots|
  {
  }

  /** Whether a timer fires in tick number `n` from now that has so many ticks to go: gap by
      gap, each of them depending on where the timer is put back. */
  predicate Fires(remaining: nat, position: nat, size: nat, period: nat, n: nat)
    requires position < size
    decreases n
  {
    var next := if position + 1 >= size then 0 else position + 1;
    if n == 0 then remaining == 0
    else if remaining > 0 then Fires(remaining - 1, next, size, period, n - 1)
    else period > 0 && Fires(Gap(position, size, period) - 1, next, size, period, n - 1)
  }

  /** Over any run of ticks and calls that leave the timer alone, an active timer fires exactly
      as the gaps say. */
  lemma {:induction false} FiresByGaps<T>(s: State<T>, rounds: seq<Round<T>>, t: T, n: nat)
    requires Inv(s) && s.life.exec == [] && t in s.marks
    requires t in s.life.info && s.marks[t].slot < |s.slots| && s.life.info[t].period >= 0 && Shape(s)
    requires RoundsSpare(rounds, t) && n < |rounds|
    ensures t in FiredAt(s, rounds, n)
            <==> Fires(Remaining(s, t), s.position, |s.slots|, s.life.info[t].period, n)
    decreases n
  {
    hide Inv, FiredInRound, AfterRound, AllSpare, ScriptSpares, Remaining, Gap;
    MarkedFacts(s, t);
    RoundTiming(s, rounds[0], t);
    if n > 0 {
      var f := AfterRound(s, rounds[0]);
      SoundInv(f);
      if Remaining(s, t) > 0 || s.life.info[t].period > 0 {
        FiresByGaps(f, rounds[1..], t, n - 1);
      } else {
        StaysOut(f, rounds[1..], t, n - 1);
      }
    }
  }

  /** When every gap is one cycle, the firings are. */
  lemma {:induction false} FiresByCycles(remaining: nat, position: nat, size: nat, period: nat, n: nat)
    requires position < size < UINT_RANGE && period < UINT_RANGE && PeriodFits(size, period)
    ensures Fires(remaining, position, size, period, n) <==> FiringTick(remaining, size, period, n)
    decreases n
  {
    hide FiringTick, Cycle, Gap, PeriodFits;
    AlwaysFits(size, period);
    FiringOneLater(remaining, size, period, n);
    if n > 0 {
      var next := if position + 1 >= size then 0 else position + 1;
      if remaining > 0 {
        FiresByCycles(remaining - 1, next, size, period, n - 1);
      } else if period > 0 {
        NextFiring(size, period, n);
        FiresByCycles(Gap(position, size, period) - 1, next, size, period, n - 1);
      }
    }
  }

  /** Over any run of ticks and calls that leave the timer alone, an active timer fires in
      exactly these ticks: the first after the ticks it has to go, and, when it is periodic,
      one every cycle from then on. */
  lemma ExactFiring<T>(s: State<T>, rounds: seq<Round<T>>, t: T, n: nat)
    requires Inv(s) && s.life.exec == [] && t in s.marks
    requires t in s.life.info && s.marks[t].slot < |s.slots| && s.life.info[t].period >= 0 && Shape(s)
    requires RoundsSpare(rounds, t) && n < |rounds|
    requires PeriodFits(|s.slots|, s.life.info[t].period)
    ensures t in FiredAt(s, rounds, n)
            <==> FiringTick(Remaining(s, t), |s.slots|, s.life.info[t].period, n)
  {
    hide Inv, FiredAt, Remaining, Fires, FiringTick, PeriodFits, RoundsSpare;
    MarkedFacts(s, t);
    FiresByGaps(s, rounds, t, n);
    FiresByCycles(Remaining(s, t), s.position, |s.slots|, s.life.info[t].period, n);
  }

  /** A duration is that many ticks: what it rounds to, but one at least. */
  predicate InTicks(d: int, g: int, p: nat)
    requires g > 0
  {
    0 < p < UINT_RANGE && (RoundsTo(d, g, p) || (p == 1 && RoundsTo(d, g, 0)))
  }

  lemma InTicksIs(d: int, g: int, p: nat)
    requires g > 0 && InTicks(d, g, p)
    ensures DurationToTicks(d, g) == p
  {
    TicksAre(d, g, if RoundsTo(d, g, p) then p else 0);
  }

  lemma AcceptedPeriod<T>(s: State<T>, c: Command<T>)
    requires Inv(s) && Accepts(s, c)
    ensures s.granularity > 0 && c.timer in WheelSpec.After(s, c).life.info
    ensures WheelSpec.After(s, c).life.info[c.timer].period == StoredPeriod(c.period, s.granularity)
  {
    hide Linked, StoredPeriod;
  }

  lemma AcceptedPause<T>(s: State<T>, c: Command<T>)
    requires Inv(s) && Accepts(s, c)
    ensures Shape(s) && Shape(WheelSpec.After(s, c))
    ensures var r, p := WheelSpec.After(s, c), DurationToTicks(c.pause, s.granularity);
            && c.timer in r.marks && r.marks[c.timer].slot < |r.slots|
            && (Remaining(r, c.timer) == p <==> SumFits(s.position, |s.slots|, p))
  {
    hide Inv, WheelSpec.AfterActivate, WheelSpec.AfterReschedule, Remaining, RemainingNext, DurationToTicks, SumFits,
         Cycle;
    SoundInv(s);
    SoundInv(WheelSpec.After(s, c));
    if c.Activate? {
      ActivatedBetweenTicks(s, c.timer, c.pause, c.period);
    } else {
      RescheduledBetweenTicks(s, c.timer, c.pause, c.period);
    }
  }

  /** What a call that is not refused makes of its timer. */
  lemma Asked<T>(s: State<T>, c: Command<T>, p: nat, q: nat)
    requires Inv(s) && s.life.exec == [] && Accepts(s, c) && Shape(s)
    requires InTicks(c.pause, s.granularity, p) && SumFits(s.position, |s.slots|, p)
    requires if c.period == 0 then q == 0 else InTicks(c.period, s.granularity, q)
    ensures var r, t := WheelSpec.After(s, c), c.timer;
            && r.life.exec == [] && Shape(r) && |r.slots| == |s.slots|
            && t in r.marks && r.marks[t].slot < |r.slots| && Remaining(r, t) == p
            && t in r.life.info && r.life.info[t].period == q
  {
    hide Inv, WheelSpec.After, Remaining, DurationToTicks, InTicks, SumFits;
    AcceptedPeriod(s, c);
    AcceptedPause(s, c);
    InTicksIs(c.pause, s.granularity, p);
    if c.period != 0 { InTicksIs(c.period, s.granularity, q); }
  }

  /** So a timer that is activated or rescheduled between ticks, with a pause of p ticks and a
      period of q, fires in tick p and, if q is not zero, one every cycle of q from then on, over
      any run that leaves it alone. */
  lemma FiresAsAsked<T>(s: State<T>, c: Command<T>, p: nat, q: nat, rounds: seq<Round<T>>, n: nat)
    requires Inv(s) && s.life.exec == [] && Accepts(s, c) && Shape(s)
    requires InTicks(c.pause, s.granularity, p) && SumFits(s.position, |s.slots|, p)
    requires if c.period == 0 then q == 0 else InTicks(c.period, s.granularity, q)
    requires PeriodFits(|s.slots|, q) && RoundsSpare(rounds, c.timer) && n < |rounds|
    ensures WheelSpec.After(s, c).life.exec == []
    ensures c.timer in FiredAt(WheelSpec.After(s, c), rounds, n) <==> FiringTick(p, |s.slots|, q, n)
  {
    hide Inv, WheelSpec.After, FiredAt, FiringTick, InTicks, PeriodFits, RoundsSpare, Remaining, Accepts, SumFits;
    Asked(s, c, p, q);
    ExactFiring(WheelSpec.After(s, c), rounds, c.timer, n);
  }

  /** A wheel of two slots with one timer, made, and activated for two ticks with a period of
      two ticks. */
  ghost function TwoSlots(): (s: State<nat>)
    ensures Inv(s) && s.life.exec == []
  {
    var made := WheelSpec.AfterAllocate(WheelSpec.Empty(2, 1), 7);
    WheelSpec.AfterActivate(made, 7, 2, 2)
  }

  lemma TwoSlotsTiming()
    ensures var s := TwoSlots();
            && |s.slots| == 2 && s.position == 0 && 7 in s.marks && s.marks[7] == Mark(0, 1)
            && 7 in s.life.info && s.life.info[7].period == 2
  {
    hide Placed;
    var made := WheelSpec.AfterAllocate(WheelSpec.Empty<nat>(2, 1), 7);
    assert 7 in made.life.info && made.life.info[7].status == Deactivated;
    assert DurationToTicks(2, 1) == 2;
  }

  /** It fires in tick 2, but not two ticks later: one roll later than that. */
  lemma FullRollLate(rounds: seq<Round<nat>>)
    requires |rounds| > 6 && RoundsSpare(rounds, 7)
    ensures var s := TwoSlots();
            7 in FiredAt(s, rounds, 2) && 7 !in FiredAt(s, rounds, 4) && 7 in FiredAt(s, rounds, 6)
  {
    hide Inv, FiredAt, RoundsSpare, TwoSlots;
    TwoSlotsTiming();
    SoundInv(TwoSlots());
    assert Remaining(TwoSlots(), 7) == 2 && Cycle(2, 2) == 4;
    ExactFiring(TwoSlots(), rounds, 7, 2);
    ExactFiring(TwoSlots(), rounds, 7, 4);
    ExactFiring(TwoSlots(), rounds, 7, 6);
  }

  // ------------------------------------------------------------------ activated by an action

  /** The state while actions are run, after the calls made before check number `j`. */
  function Before<T>(s: State<T>, i: nat, j: nat, script: seq<seq<Command<T>>>): (r: State<T>)
    requires Inv(s) && i <= j <= |s.life.exec|
    ensures Inv(r) && r.life.exec == s.life.exec && SameRing(s, r)
    ensures WheelSpec.AfterChecks(s, i, script) == WheelSpec.AfterChecks(r, j, script)
    decreases j - i
  {
    hide Inv;
    if i == j then s else Before(WheelSpec.AfterAll(s, At(script, i)), i + 1, j, script)
  }

  lemma NoCall<T>(s: State<T>)
    requires Inv(s)
    ensures WheelSpec.AfterAll(s, []) == s
  {
    hide Inv;
  }

  lemma {:induction false} CallsInTwo<T>(s: State<T>, a: seq<Command<T>>, b: seq<Command<T>>)
    requires Inv(s)
    ensures WheelSpec.AfterAll(s, a + b) == WheelSpec.AfterAll(WheelSpec.AfterAll(s, a), b)
    decreases |a|
  {
    hide Inv, WheelSpec.After, WheelSpec.AfterAll, StoredAll, Lifecycle.AfterAll, SameRing;
    if a == [] {
      assert a + b == b;
      NoCall(s);
    } else {
      CallsInTwo(WheelSpec.After(s, a[0]), a[1..], b);
      assert a + b == [a[0]] + (a[1..] + b) && a == [a[0]] + a[1..];
      FirstCall(s, a[0], a[1..] + b);
      FirstCall(s, a[0], a[1..]);
    }
  }

  /** The rest of the calls and of the tick leaves the timing of such a timer alone. */
  lemma RestOfTick<T>(s: State<T>, j: nat, more: seq<Command<T>>, script: seq<seq<Command<T>>>, t: T)
    requires Inv(s) && j <= |s.life.exec| && t !in s.life.exec
    requires AllSpare(more, t) && forall k :: j < k < |script| ==> AllSpare(script[k], t)
    ensures var s1 := WheelSpec.AfterAll(s, more);
            SameTiming(s, WheelSpec.AfterFinish(if j == |s.life.exec| then s1
                                                else WheelSpec.AfterChecks(s1, j + 1, script)), t)
  {
    hide Inv, WheelSpec.AfterAll, WheelSpec.AfterChecks, WheelSpec.AfterFinish;
    CallsSpare(s, more, t);
    var s1 := WheelSpec.AfterAll(s, more);
    if j < |s.life.exec| {
      ChecksSpare(s1, j + 1, script, t);
      FinishSpares(WheelSpec.AfterChecks(s1, j + 1, script), t);
    } else {
      FinishSpares(s1, t);
    }
  }

  lemma CallsFrom<T>(s: State<T>, cs: seq<Command<T>>, k: nat)
    requires Inv(s) && k < |cs|
    ensures var here := WheelSpec.AfterAll(s, cs[..k]);
            WheelSpec.AfterAll(s, cs) == WheelSpec.AfterAll(WheelSpec.After(here, cs[k]), cs[k + 1..])
  {
    hide Inv, WheelSpec.After, WheelSpec.AfterAll;
    assert cs[..k] + cs[k..] == cs;
    CallsInTwo(s, cs[..k], cs[k..]);
    assert cs[k..] == [cs[k]] + cs[k + 1..];
    FirstCall(WheelSpec.AfterAll(s, cs[..k]), cs[k], cs[k + 1..]);
  }

  lemma FirstCall<T>(s: State<T>, c: Command<T>, cs: seq<Command<T>>)
    requires Inv(s)
    ensures WheelSpec.AfterAll(s, [c] + cs) == WheelSpec.AfterAll(WheelSpec.After(s, c), cs)
  {
    hide Inv, WheelSpec.After, Stored, StoredAll, Lifecycle.AfterAll, SameRing;
    assert ([c] + cs)[0] == c && ([c] + cs)[1..] == cs;
  }

  lemma ActivatedHere<T>(s: State<T>, c: Command<T>)
    requires Inv(s) && c.Activate? && c.timer in s.life.info && s.life.info[c.timer].status == Deactivated
    ensures var r, t, p := WheelSpec.After(s, c), c.timer, DurationToTicks(c.pause, s.granularity);
            && r.life.exec == s.life.exec && t !in s.life.exec && SameRing(s, r)
            && t in r.marks && r.marks[t] == MarkFor(s.position, |s.slots|, p)
            && t in r.life.info && r.life.info[t].status == Active
            && r.life.info[t].period == StoredPeriod(c.period, s.granularity)
  {
    hide MarkFor, DurationToTicks, Placed, MarksActive;
  }

  /** The call number `k` behind check number `j` of a tick activates the timer, and no later
      one of that tick is about it. */
  ghost predicate ActivatedIn<T>(s: State<T>, script: seq<seq<Command<T>>>, j: nat, k: nat, t: T)
    requires Inv(s) && s.life.exec == []
  {
    var b := WheelSpec.AfterBegin(s);
    && b.life.exec != [] && j <= |b.life.exec| && j < |script| && k < |script[j]|
    && script[j][k].Activate? && script[j][k].timer == t
    && AllSpare(script[j][k + 1..], t) && (forall l :: j < l < |script| ==> AllSpare(script[l], t))
    && (var here := WheelSpec.AfterAll(Before(b, 0, j, script), script[j][..k]);
        t in here.life.info && here.life.info[t].status == Deactivated)
  }

  /** What the tick does after the call. */
  lemma TickFromCall<T>(s: State<T>, script: seq<seq<Command<T>>>, j: nat, k: nat, t: T)
    requires Inv(s) && s.life.exec == [] && ActivatedIn(s, script, j, k, t)
    ensures var b := WheelSpec.AfterBegin(s);
            var here := WheelSpec.AfterAll(Before(b, 0, j, script), script[j][..k]);
            var now := WheelSpec.After(here, script[j][k]);
            && SameRing(s, now) && now.life.exec == b.life.exec && t !in b.life.exec
            && var f := WheelSpec.AfterTick(s, script);
               && f.position == NextPosition(s) && |f.slots| == |s.slots|
               && SameTiming(now, f, t)
  {
    hide Inv, Sound, Linked, WheelSpec.AfterBegin, WheelSpec.AfterAll, WheelSpec.AfterChecks, WheelSpec.AfterFinish;
    hide Before, WheelSpec.After, SameTiming;
    var b := WheelSpec.AfterBegin(s);
    var before := Before(b, 0, j, script);
    var here := WheelSpec.AfterAll(before, script[j][..k]);
    ActivatedHere(here, script[j][k]);
    CallsFrom(before, script[j], k);
    var now := WheelSpec.After(here, script[j][k]);
    RestOfTick(now, j, script[j][k + 1..], script, t);
    WheelSpec.ChecksStep(before, j, script);
    var done := WheelSpec.AfterFinish(WheelSpec.AfterChecks(b, 0, script));
    SameTimingMoved(now, done, NextPosition(s), t);
  }

  lemma SameTimingMoved<T>(a: State<T>, b: State<T>, position: nat, t: T)
    requires SameTiming(a, b, t)
    ensures SameTiming(a, b.(position := position), t)
  {
  }

  /** Then it has one cycle of its pause to go, less the tick that is being processed; or not,
      if and only if the sum of unsigned ints does harm. */
  lemma ActivatedDuringTick<T>(s: State<T>, script: seq<seq<Command<T>>>, j: nat, k: nat, t: T)
    requires Inv(s) && s.life.exec == [] && ActivatedIn(s, script, j, k, t)
    ensures Shape(s) && t !in FiredInTick(s, script)
    ensures var f, c := WheelSpec.AfterTick(s, script), script[j][k];
            var p := DurationToTicks(c.pause, s.granularity);
            && t in f.marks && f.marks[t].slot < |f.slots| && t in f.life.info
            && f.life.info[t].period == StoredPeriod(c.period, s.granularity)
            && Remaining(f, t) + 1 == Gap(s.position, |s.slots|, p)
            && (Remaining(f, t) + 1 == Cycle(p, |s.slots|) <==> SumFits(s.position, |s.slots|, p))
  {
    hide Inv, WheelSpec.AfterBegin, WheelSpec.AfterAll, WheelSpec.AfterTick, FiredFrom, Before, WheelSpec.After;
    hide MarkFor, StoredPeriod, DurationToTicks, Cycle, SumFits, Gap, Remaining;
    SoundInv(s);
    var b := WheelSpec.AfterBegin(s);
    var here := WheelSpec.AfterAll(Before(b, 0, j, script), script[j][..k]);
    ActivatedHere(here, script[j][k]);
    TickFromCall(s, script, j, k, t);
    if t in FiredFrom(b, 0, script) {
      FiredAreExec(b, 0, script, t);
    }
    var p := DurationToTicks(script[j][k].pause, s.granularity);
    SoundInv(WheelSpec.AfterTick(s, script));
    PutBackRemaining(s, WheelSpec.AfterTick(s, script), t, p);
    GapIsCycle(s.position, |s.slots|, p);
  }

  lemma OnlyDuring<T>(s: State<T>, round: Round<T>)
    requires Inv(s) && s.life.exec == [] && round.before == []
    ensures AfterRound(s, round) == WheelSpec.AfterTick(s, round.during)
    ensures FiredInRound(s, round) == FiredInTick(s, round.during)
  {
    hide Inv, WheelSpec.AfterTick, FiredInTick;
  }

  /** So it fires for the first time one gap later: counting the tick of the activation as
      number 0, and with a pause of p ticks that do no harm, in tick number Cycle(p, size). */
  lemma FirstFiringAfterActivation<T>(s: State<T>, rounds: seq<Round<T>>, j: nat, k: nat, t: T, n: nat)
    requires Inv(s) && s.life.exec == [] && n < |rounds| && rounds[0].before == []
    requires ActivatedIn(s, rounds[0].during, j, k, t) && RoundsSpare(rounds[1..], t)
    ensures Shape(s)
    ensures var p := DurationToTicks(rounds[0].during[j][k].pause, s.granularity);
            var first := Gap(s.position, |s.slots|, p);
            && (n < first ==> t !in FiredAt(s, rounds, n))
            && (n == first ==> t in FiredAt(s, rounds, n))
            && (first == Cycle(p, |s.slots|) <==> SumFits(s.position, |s.slots|, p))
  {
    hide Inv, WheelSpec.AfterTick, FiredInTick, FiredInRound, AfterRound, DurationToTicks, Gap, Cycle, SumFits;
    hide WheelSpec.AfterBegin, Before, WheelSpec.AfterAll, AllSpare, RoundsSpare, Fires, Remaining;
    SoundInv(s);
    OnlyDuring(s, rounds[0]);
    ActivatedDuringTick(s, rounds[0].during, j, k, t);
    GapIsCycle(s.position, |s.slots|, DurationToTicks(rounds[0].during[j][k].pause, s.granularity));
    if n > 0 {
      var f := AfterRound(s, rounds[0]);
      MarkedFacts(f, t);
      FiresByGaps(f, rounds[1..], t, n - 1);
      FirstFires(Remaining(f, t), f.position, |f.slots|, f.life.info[t].period, n - 1);
    }
  }

  lemma {:induction false} FirstFires(remaining: nat, position: nat, size: nat, period: nat, n: nat)
    requires position < size
    ensures n < remaining ==> !Fires(remaining, position, size, period, n)
    ensures n == remaining ==> Fires(remaining, position, size, period, n)
    decreases n
  {
    hide Gap;
    if n > 0 && remaining > 0 {
      FirstFires(remaining - 1, if position + 1 >= size then 0 else position + 1, size, period, n - 1);
    }
  }
}
