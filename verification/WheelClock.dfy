/**
  How the wheel engine turns clock time into ticks: one call of process_expired_timers catches
  up with every tick whose border the clock has passed.
 */
module WheelClock {
  import opened Lifecycle
  import opened Sequences
  import opened Division
  import opened WheelSpec
  import opened WheelTiming

  /** The wheel with the border of the current tick, and whether that tick was processed. */
  datatype Clocked<T(==)> = Clocked(wheel: State<T>, border: int, processed: bool)

  ghost predicate Ready<T>(c: Clocked<T>) {
    Inv(c.wheel) && c.wheel.life.exec == []
  }

  function Script<T>(scripts: seq<seq<seq<Command<T>>>>, i: nat): seq<seq<Command<T>>> {
    if i < |scripts| then scripts[i] else []
  }

  /** The loop of process_expired_timers from its head on, for one reading of the clock.
      `scripts[i]` holds the calls made while the actions of tick number `i` are run. */
  function Processed<T>(c: Clocked<T>, now: int, scripts: seq<seq<seq<Command<T>>>>, i: nat): (r: Clocked<T>)
    requires Ready(c)
    ensures Ready(r)
    decreases now - c.border + c.wheel.granularity
  {
    var wheel := if c.processed then c.wheel else WheelSpec.AfterTick(c.wheel, Script(scripts, i));
    if now >= c.border
    then Processed(Clocked(wheel, c.border + c.wheel.granularity, false), now, scripts,
                   if c.processed then i else i + 1)
    else Clocked(wheel, c.border, true)
  }

  function FiredWhile<T>(c: Clocked<T>, now: int, scripts: seq<seq<seq<Command<T>>>>, i: nat): seq<T>
    requires Ready(c)
    decreases now - c.border + c.wheel.granularity
  {
    var wheel := if c.processed then c.wheel else WheelSpec.AfterTick(c.wheel, Script(scripts, i));
    (if c.processed then [] else FiredInTick(c.wheel, Script(scripts, i)))
    + (if now >= c.border
       then FiredWhile(Clocked(wheel, c.border + c.wheel.granularity, false), now, scripts,
                       if c.processed then i else i + 1)
       else [])
  }

  /** One round of that loop, written out. */
  lemma RoundEquation<T>(c: Clocked<T>, now: int, scripts: seq<seq<seq<Command<T>>>>, i: nat)
    requires Ready(c)
    ensures c.wheel.granularity > 0
    ensures var wheel := if c.processed then c.wheel else WheelSpec.AfterTick(c.wheel, Script(scripts, i));
            var some := if c.processed then [] else FiredInTick(c.wheel, Script(scripts, i));
            var next, j := Clocked(wheel, c.border + c.wheel.granularity, false), if c.processed then i else i + 1;
            Ready(next) &&
            if now >= c.border then
              && Processed(c, now, scripts, i) == Processed(next, now, scripts, j)
              && FiredWhile(c, now, scripts, i) == some + FiredWhile(next, now, scripts, j)
            else
              && Processed(c, now, scripts, i) == Clocked(wheel, c.border, true)
              && FiredWhile(c, now, scripts, i) == some
  {
    hide Inv, WheelSpec.AfterTick, FiredInTick, Script;
    SoundInv(c.wheel);
  }

  // ------------------------------------------------------------------ the closed form

  function AfterTicks<T>(s: State<T>, scripts: seq<seq<seq<Command<T>>>>, i: nat, n: nat): (r: State<T>)
    requires Inv(s) && s.life.exec == []
    ensures Inv(r) && r.life.exec == []
    decreases n
  {
    if n == 0 then s
    else AfterTicks(WheelSpec.AfterTick(s, Script(scripts, i)), scripts, i + 1, n - 1)
  }

  function FiredOver<T>(s: State<T>, scripts: seq<seq<seq<Command<T>>>>, i: nat, n: nat): seq<T>
    requires Inv(s) && s.life.exec == []
    decreases n
  {
    if n == 0 then []
    else FiredInTick(s, Script(scripts, i))
         + FiredOver(WheelSpec.AfterTick(s, Script(scripts, i)), scripts, i + 1, n - 1)
  }

  /** How many tick borders the clock has reached. */
  function BordersPassed(now: int, border: int, granularity: int): nat
    requires granularity > 0
  {
    if now < border then 0 else (now - border) / granularity + 1
  }

  function TicksDue<T>(c: Clocked<T>, now: int): nat
    requires c.wheel.granularity > 0
  {
    BordersPassed(now, c.border, c.wheel.granularity) + if c.processed then 0 else 1
  }

  lemma OneBorderLess(now: int, border: int, g: int)
    requires g > 0 && now >= border
    ensures BordersPassed(now, border, g) == BordersPassed(now, border + g, g) + 1
  {
    var x := now - border;
    if x >= g {
      OneMore(x - g, g);
    } else {
      QuotientUnique(x, 0, x, g);
    }
  }

  /** Catching up terminates with the clock before the border, having processed one tick for
      every border passed and one more if the current tick was still to be processed. */
  lemma {:induction false} CatchUp<T>(c: Clocked<T>, now: int, scripts: seq<seq<seq<Command<T>>>>, i: nat)
    requires Ready(c)
    ensures c.wheel.granularity > 0
    ensures var r, g := Processed(c, now, scripts, i), c.wheel.granularity;
            && r.wheel == AfterTicks(c.wheel, scripts, i, TicksDue(c, now))
            && r.border == c.border + BordersPassed(now, c.border, g) * g
            && r.processed && now < r.border
            && (c.border <= now ==> r.border <= now + g)
    ensures FiredWhile(c, now, scripts, i) == FiredOver(c.wheel, scripts, i, TicksDue(c, now))
    decreases now - c.border + c.wheel.granularity
  {
    hide Inv, WheelSpec.AfterTick, FiredInTick, Script;
    SoundInv(c.wheel);
    var g := c.wheel.granularity;
    if now >= c.border {
      var wheel := if c.processed then c.wheel else WheelSpec.AfterTick(c.wheel, Script(scripts, i));
      var next := Clocked(wheel, c.border + g, false);
      CatchUp(next, now, scripts, if c.processed then i else i + 1);
      OneBorderLess(now, c.border, g);
      var b := BordersPassed(now, c.border + g, g);
      OneFactorLess(b + 1, g);
    }
  }

  /** The position advances by one slot a tick, around the ring. */
  lemma {:induction false} PositionAfterTicks<T>(s: State<T>, scripts: seq<seq<seq<Command<T>>>>, i: nat, n: nat)
    requires Inv(s) && s.life.exec == []
    ensures |s.slots| > 0
    ensures AfterTicks(s, scripts, i, n).position == (s.position + n) % |s.slots|
    decreases n
  {
    hide Inv, WheelSpec.AfterTick;
    SoundInv(s);
    var size := |s.slots|;
    if n == 0 {
      QuotientUnique(s.position, 0, s.position, size);
    } else {
      var s1 := WheelSpec.AfterTick(s, Script(scripts, i));
      PositionAfterTicks(s1, scripts, i + 1, n - 1);
      if s.position + 1 >= size {
        QuotientUnique(size, 1, 0, size);
        ShiftKeepsMod(s.position + n, size, size);
      }
    }
  }

  // ------------------------------------------------------------------ what one call runs

  lemma DistinctMore<T>(t: T, q: seq<T>)
    requires Distinct(q) && t !in q
    ensures Distinct([t] + q)
  {
  }

  lemma {:induction false} ExecutedOnce<T>(due: seq<T>, script: seq<seq<Command<T>>>, i: nat)
    requires i <= |due| && Distinct(due)
    ensures Distinct(Executed(due, script, i))
    ensures forall t :: t in Executed(due, script, i) ==> t in due[i..]
    decreases |due| - i
  {
    if i < |due| {
      ExecutedOnce(due, script, i + 1);
      assert due[i..] == [due[i]] + due[i + 1..];
      assert due[i] !in due[i + 1..];
      DistinctMore(due[i], Executed(due, script, i + 1));
    }
  }

  /** One tick runs a timer at most once. */
  lemma RunOnce<T>(s: State<T>, script: seq<seq<Command<T>>>, t: T)
    requires Inv(s) && s.life.exec == []
    ensures multiset(FiredInTick(s, script))[t] == if t in FiredInTick(s, script) then 1 else 0
  {
    hide Inv, Executed, FiredFrom, Distinct, Due, WheelSpec.AfterBegin, StoredScript;
    SoundInv(s);
    TickFiresUncancelled(s, script);
    DueOnce(s);
    var due := Due(s.slots[s.position], s.marks);
    ExecutedOnce(due, StoredScript(script, s.granularity), 0);
    DistinctOnce(FiredInTick(s, script), t);
  }

  lemma DueOnce<T>(s: State<T>)
    requires Inv(s) && s.life.exec == []
    ensures s.position < |s.slots| && Distinct(Due(s.slots[s.position], s.marks))
  {
    hide Due, Linked, Distinct;
    assert WheelSpec.AfterBegin(s).life.exec == Due(s.slots[s.position], s.marks);
    SoundInv(WheelSpec.AfterBegin(s));
  }

  /** How often a timer with so many ticks to go is run in `n` ticks: gap by gap, as in Fires. */
  function Runs(remaining: nat, position: nat, size: nat, period: nat, n: nat): nat
    requires position < size
    decreases n
  {
    var next := if position + 1 >= size then 0 else position + 1;
    if n == 0 then 0
    else if remaining > 0 then Runs(remaining - 1, next, size, period, n - 1)
    else 1 + if period > 0 then Runs(Gap(position, size, period) - 1, next, size, period, n - 1) else 0
  }

  /** These are its firing ticks below `n`. */
  lemma {:induction false} RunsCountFirings(remaining: nat, position: nat, size: nat, period: nat, n: nat)
    requires position < size
    ensures Runs(remaining, position, size, period, n + 1)
         == Runs(remaining, position, size, period, n) + if Fires(remaining, position, size, period, n) then 1 else 0
    decreases n
  {
    hide Gap;
    var next := if position + 1 >= size then 0 else position + 1;
    if n > 0 {
      if remaining > 0 {
        RunsCountFirings(remaining - 1, next, size, period, n - 1);
      } else if period > 0 {
        RunsCountFirings(Gap(position, size, period) - 1, next, size, period, n - 1);
      }
    }
  }

  /** When every gap is one cycle: once for each cycle begun behind the ticks to go. */
  lemma {:induction false} RunsByCycles(remaining: nat, position: nat, size: nat, period: nat, n: nat)
    requires position < size < UINT_RANGE && period < UINT_RANGE && PeriodFits(size, period)
    ensures Runs(remaining, position, size, period, n)
         == if n <= remaining then 0 else if period == 0 then 1 else (n - remaining - 1) / Cycle(period, size) + 1
    decreases n
  {
    hide Cycle, Gap, PeriodFits;
    AlwaysFits(size, period);
    var next := if position + 1 >= size then 0 else position + 1;
    if n > 0 {
      if remaining > 0 {
        RunsByCycles(remaining - 1, next, size, period, n - 1);
      } else if period > 0 {
        var c := Gap(position, size, period);
        RunsByCycles(c - 1, next, size, period, n - 1);
        if n <= c {
          QuotientUnique(n - 1, 0, n - 1, c);
        } else {
          OneMore(n - 1 - c, c);
        }
      }
    }
  }

  /** None of the calls made during the ticks touches the timing of `t`. */
  predicate AllScriptsSpare<T(==)>(scripts: seq<seq<seq<Command<T>>>>, t: T) {
    forall i :: 0 <= i < |scripts| ==> ScriptSpares(scripts[i], t)
  }

  lemma ScriptAllSpare<T>(scripts: seq<seq<seq<Command<T>>>>, i: nat, t: T)
    requires AllScriptsSpare(scripts, t)
    ensures ScriptSpares(Script(scripts, i), t)
  {
  }

  lemma {:induction false} StaysOutOver<T>(s: State<T>, scripts: seq<seq<seq<Command<T>>>>, i: nat, n: nat, t: T)
    requires Inv(s) && s.life.exec == [] && t !in s.marks && AllScriptsSpare(scripts, t)
    ensures t !in FiredOver(s, scripts, i, n)
    decreases n
  {
    hide Inv, WheelSpec.AfterTick, FiredInTick, ScriptSpares, Script, AfterRound, FiredInRound;
    if n > 0 {
      var round := Round([], Script(scripts, i));
      ScriptAllSpare(scripts, i, t);
      OnlyDuring(s, round);
      RoundOut(s, round, t);
      StaysOutOver(WheelSpec.AfterTick(s, round.during), scripts, i + 1, n - 1, t);
    }
  }

  /** Over `n` ticks whose actions leave the timer alone it is run that often. */
  lemma {:induction false} RunsInTicks<T>(s: State<T>, scripts: seq<seq<seq<Command<T>>>>, i: nat, n: nat, t: T)
    requires Inv(s) && s.life.exec == [] && t in s.marks && AllScriptsSpare(scripts, t)
    ensures Shape(s) && s.marks[t].slot < |s.slots| && t in s.life.info && s.life.info[t].period >= 0
    ensures multiset(FiredOver(s, scripts, i, n))[t]
         == Runs(Remaining(s, t), s.position, |s.slots|, s.life.info[t].period, n)
    decreases n
  {
    hide Inv, WheelSpec.AfterTick, FiredInTick, Remaining, Gap, ScriptSpares, Script, AfterRound, FiredInRound;
    MarkedFacts(s, t);
    if n > 0 {
      var round := Round([], Script(scripts, i));
      ScriptAllSpare(scripts, i, t);
      OnlyDuring(s, round);
      RoundTiming(s, round, t);
      RunOnce(s, round.during, t);
      var f := WheelSpec.AfterTick(s, round.during);
      SoundInv(f);
      if t in f.marks {
        RunsInTicks(f, scripts, i + 1, n - 1, t);
      } else {
        StaysOutOver(f, scripts, i + 1, n - 1, t);
      }
    }
  }

  /** One call of process_expired_timers runs a timer, that its actions leave alone, as often as
      it has firing ticks among the ticks that are due. */
  lemma RunsInOneCall<T>(c: Clocked<T>, now: int, scripts: seq<seq<seq<Command<T>>>>, i: nat, t: T)
    requires Ready(c) && t in c.wheel.marks && AllScriptsSpare(scripts, t)
    ensures Shape(c.wheel) && c.wheel.marks[t].slot < |c.wheel.slots|
    ensures t in c.wheel.life.info && c.wheel.life.info[t].period >= 0
    ensures var s := c.wheel;
            && multiset(FiredWhile(c, now, scripts, i))[t]
               == Runs(Remaining(s, t), s.position, |s.slots|, s.life.info[t].period, TicksDue(c, now))
            && (t in FiredWhile(c, now, scripts, i) <==> Remaining(s, t) < TicksDue(c, now))
  {
    hide Inv, FiredWhile, FiredOver, Remaining, TicksDue, AfterTicks, Processed;
    MarkedFacts(c.wheel, t);
    CatchUp(c, now, scripts, i);
    RunsInTicks(c.wheel, scripts, i, TicksDue(c, now), t);
    var s := c.wheel;
    RunsIfReached(Remaining(s, t), s.position, |s.slots|, s.life.info[t].period, TicksDue(c, now));
    assert t in FiredWhile(c, now, scripts, i) <==> multiset(FiredWhile(c, now, scripts, i))[t] > 0;
  }

  lemma {:induction false} RunsIfReached(remaining: nat, position: nat, size: nat, period: nat, n: nat)
    requires position < size
    ensures Runs(remaining, position, size, period, n) > 0 <==> remaining < n
    decreases n
  {
    hide Gap;
    if n > 0 && remaining > 0 {
      RunsIfReached(remaining - 1, if position + 1 >= size then 0 else position + 1, size, period, n - 1);
    }
  }

  /** In clock time: a call runs the timer for the first time exactly when the clock has reached
      the border that many granules ahead; the tick that ends at the border counts as the first
      one if it is still to be processed, and it needs no clock. */
  lemma RunsWhenDue<T>(c: Clocked<T>, now: int, scripts: seq<seq<seq<Command<T>>>>, i: nat, t: T)
    requires Ready(c) && t in c.wheel.marks && AllScriptsSpare(scripts, t)
    ensures Shape(c.wheel) && c.wheel.marks[t].slot < |c.wheel.slots|
    ensures var ahead := Remaining(c.wheel, t) - if c.processed then 0 else 1;
            t in FiredWhile(c, now, scripts, i) <==> ahead < 0 || now >= c.border + ahead * c.wheel.granularity
  {
    hide Inv, FiredWhile, Remaining;
    RunsInOneCall(c, now, scripts, i, t);
    var ahead, g := Remaining(c.wheel, t) - (if c.processed then 0 else 1), c.wheel.granularity;
    if ahead >= 0 {
      MulMonotone(0, ahead, g);
      if now >= c.border {
        BordersReached(now - c.border, ahead, g);
      }
    }
  }

  lemma BordersReached(x: int, r: nat, g: int)
    requires x >= 0 && g > 0
    ensures r < x / g + 1 <==> x >= r * g
  {
    DivBounds(x, g);
    if r <= x / g {
      MulMonotone(r, x / g, g);
    } else {
      MulMonotone(x / g + 1, r, g);
      assert (x / g + 1) * g == (x / g) * g + g;
    }
  }

  /** What was deleted stays deleted. */
  lemma {:induction false} ProcessedOnlyDeletes<T>(c: Clocked<T>, now: int, scripts: seq<seq<seq<Command<T>>>>, i: nat)
    requires Ready(c)
    ensures OnlyDeletes(c.wheel.life.info, Processed(c, now, scripts, i).wheel.life.info)
    decreases now - c.border + c.wheel.granularity
  {
    hide Inv, WheelSpec.AfterTick;
    RoundEquation(c, now, scripts, i);
    TickOnlyDeletes(c.wheel, Script(scripts, i));
    if now >= c.border {
      var wheel := if c.processed then c.wheel else WheelSpec.AfterTick(c.wheel, Script(scripts, i));
      ProcessedOnlyDeletes(Clocked(wheel, c.border + c.wheel.granularity, false), now, scripts,
                           if c.processed then i else i + 1);
    }
  }
}
