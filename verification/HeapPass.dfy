/**
  A whole pass of the heap engine over its elapsed timers, for one reading of the clock: it
  terminates, and it fires what is due.
 */
module HeapPass {
  import opened Lifecycle
  import opened Sequences
  import opened BinaryHeap
  import Division
  import H = HeapSpec

  // ------------------------------------------------------------------ what is due

  /** The times before `now` at which a timer is due, starting from its m_when. */
  function DueSeq(when: int, period: int, now: int): (r: seq<int>)
    ensures r != [] <==> when < now
    ensures forall i :: 0 <= i < |r| ==> when <= r[i] < now
    decreases if when < now then now - when else 0
  {
    if when >= now then []
    else if period <= 0 then [when]
    else [when] + DueSeq(when + period, period, now)
  }

  /** There are as many of them as periods, started ones included, fit between. */
  lemma {:induction false} DueSeqLength(when: int, period: int, now: int)
    requires period > 0 && when < now
    ensures |DueSeq(when, period, now)| == (now - when + period - 1) / period
    decreases now - when
  {
    var x := now - when - 1;
    if when + period < now {
      DueSeqLength(when + period, period, now);
      Division.OneMore(x - period, period);
    } else {
      Division.QuotientUnique(x, 0, x, period);
    }
    Division.OneMore(x, period);
  }

  function Due<T>(e: Entry<T>, now: int): seq<int> {
    DueSeq(e.when, e.period, now)
  }

  /** How many firings are due in all. */
  function DueTotal<T>(h: seq<Entry<T>>, now: int): nat {
    if h == [] then 0 else DueTotal(h[..|h| - 1], now) + |Due(h[|h| - 1], now)|
  }

  lemma {:induction false} DueTotalConcat<T>(a: seq<Entry<T>>, b: seq<Entry<T>>, now: int)
    ensures DueTotal(a + b, now) == DueTotal(a, now) + DueTotal(b, now)
    decreases |b|
  {
    if b == [] {
      assert a + b == a;
    } else {
      assert (a + b)[..|a + b| - 1] == a + b[..|b| - 1];
      DueTotalConcat(a, b[..|b| - 1], now);
    }
  }

  lemma CancelLast<T>(rest: seq<T>, x: T, before: seq<T>, after: seq<T>)
    requires multiset(rest + [x]) == multiset(before + [x] + after)
    ensures multiset(rest) == multiset(before + after)
  {
    assert multiset(rest + [x]) == multiset(rest) + multiset{x};
    assert multiset(before + [x] + after) == multiset(before + after) + multiset{x};
    assert multiset(rest) == multiset(rest + [x]) - multiset{x};
  }

  lemma {:induction false} DueTotalPermuted<T>(a: seq<Entry<T>>, b: seq<Entry<T>>, now: int)
    requires multiset(a) == multiset(b)
    ensures DueTotal(a, now) == DueTotal(b, now)
    decreases |a|
  {
    if a == [] {
      assert |multiset(b)| == |b|;
    } else {
      var last, rest := a[|a| - 1], a[..|a| - 1];
      assert a == rest + [last];
      assert last in multiset(b);
      var k :| 0 <= k < |b| && b[k] == last;
      var before, after := b[..k], b[k + 1..];
      assert b == before + [last] + after;
      CancelLast(rest, last, before, after);
      DueTotalPermuted(rest, before + after, now);
      DueTotalConcat(before + [last], after, now);
      DueTotalConcat(before, [last], now);
      DueTotalConcat(before, after, now);
    }
  }

  lemma DueTotalAdd<T>(h: seq<Entry<T>>, e: Entry<T>, now: int)
    ensures DueTotal(Add(h, e), now) == DueTotal(h, now) + |Due(e, now)|
  {
    DueTotalPermuted(Add(h, e), h + [e], now);
    assert (h + [e])[..|h|] == h;
  }

  lemma DueTotalRemove<T>(h: seq<Entry<T>>, p: nat, now: int)
    requires 1 <= p <= |h|
    ensures DueTotal(h, now) == DueTotal(Remove(h, p), now) + |Due(h[p - 1], now)|
  {
    var r := Remove(h, p);
    DueTotalPermuted(h, r + [h[p - 1]], now);
    assert (r + [h[p - 1]])[..|r|] == r;
  }

  // ------------------------------------------------------------------ the loop

  /** A call made during the pass: the clock does not go back, nor is a pause negative. */
  predicate Future<T>(c: Command<T>, now: int) {
    match c
    case Activate(_, clock, pause, _) => clock + pause >= now
    case Reschedule(_, clock, pause, _) => clock + pause >= now
    case _ => true
  }

  predicate FutureAll<T>(cs: seq<Command<T>>, now: int) {
    forall i :: 0 <= i < |cs| ==> Future(cs[i], now)
  }

  ghost predicate FutureScript<T>(script: seq<seq<Command<T>>>, now: int) {
    forall i :: 0 <= i < |script| ==> FutureAll(script[i], now)
  }

  /** What a call does to the heap. */
  lemma CallOnHeap<T>(s: H.State<T>, c: Command<T>)
    requires H.Inv(s)
    ensures c.timer !in s.life.info ==> H.After(s, c).heap == s.heap && H.PositionOf(s.heap, c.timer) == 0
    ensures c.timer in s.life.info ==>
            var st, r, p := s.life.info[c.timer].status, H.After(s, c).heap, H.PositionOf(s.heap, c.timer);
            && (st == Active <==> p > 0)
            && match c
               case Activate(t, clock, pause, period) =>
                 r == if st == Deactivated then Add(s.heap, Entry(t, clock + pause, period)) else s.heap
               case Reschedule(t, clock, pause, period) =>
                 r == if st == Deactivated then Add(s.heap, Entry(t, clock + pause, period))
                      else if st == Active then Add(Remove(s.heap, p), Entry(t, clock + pause, period))
                      else s.heap
               case Deactivate(t) => r == if st == Active then Remove(s.heap, p) else s.heap
               case _ => r == s.heap
  {
    hide Add, Remove;
    assert c.timer in Timers(s.heap) <==> c.timer in multiset(Timers(s.heap));
  }

  lemma CallNotDue<T>(s: H.State<T>, c: Command<T>, now: int)
    requires H.Inv(s) && Future(c, now)
    ensures DueTotal(H.After(s, c).heap, now) <= DueTotal(s.heap, now)
  {
    hide H.Inv, Add, Remove;
    if c.timer in s.life.info {
      CallOnHeap(s, c);
      var p := H.PositionOf(s.heap, c.timer);
      if p > 0 {
        DueTotalRemove(s.heap, p, now);
      }
      if c.Activate? || c.Reschedule? {
        var e := Entry(c.timer, c.clock + c.pause, c.period);
        DueTotalAdd(s.heap, e, now);
        if p > 0 {
          DueTotalAdd(Remove(s.heap, p), e, now);
        }
      }
    }
  }

  lemma {:induction false} CallsNotDue<T>(s: H.State<T>, cs: seq<Command<T>>, now: int)
    requires H.Inv(s) && FutureAll(cs, now)
    ensures DueTotal(H.AfterAll(s, cs).heap, now) <= DueTotal(s.heap, now)
    decreases |cs|
  {
    hide H.Inv;
    if |cs| > 0 {
      CallNotDue(s, cs[0], now);
      CallsNotDue(H.After(s, cs[0]), cs[1..], now);
    }
  }

  lemma BeginOnHeap<T>(s: H.State<T>)
    requires H.Inv(s) && s.exec == [] && s.heap != []
    ensures H.AfterBegin(s).heap == Remove(s.heap, 1)
  {
    hide Remove, H.Inv, H.Linked, Sound, H.Processing;
  }

  /** What the end of a turn does to the heap. */
  lemma FinishOnHeap<T>(s: H.State<T>)
    requires H.Inv(s) && s.exec != []
    ensures var e := s.exec[0];
            H.AfterFinish(s).heap ==
            if H.Repeats(s) then Add(s.heap, Next(e)) else s.heap
  {
    hide Add, H.Inv, H.Linked, H.SameBut, Sound, H.Processing;
  }

  /** The entry of a timer when it goes back into the heap. */
  function Next<T>(e: Entry<T>): Entry<T> {
    Entry(e.timer, e.when + e.period, e.period)
  }

  lemma DueStep<T>(e: Entry<T>, now: int)
    requires e.when < now
    ensures Due(e, now) == [e.when] + if e.period <= 0 then [] else Due(Next(e), now)
  {
  }

  /** Each turn of the loop works off at least one due firing: the loop terminates. */
  lemma TurnWorksOff<T>(s: H.State<T>, cs: seq<Command<T>>, now: int)
    requires H.Inv(s) && s.exec == [] && s.heap != [] && now > s.heap[0].when
    requires s.heap[0].period >= 0 && FutureAll(cs, now)
    ensures DueTotal(H.AfterTurn(s, cs).heap, now) + 1 <= DueTotal(s.heap, now)
  {
    hide H.Inv, H.AfterBegin, H.AfterFinish, H.AfterAll, DueTotal, Add, Remove, FutureAll, DueSeq;
    BeginOnHeap(s);
    var e, begun := s.heap[0], H.AfterBegin(s);
    var called := H.AfterAll(begun, cs);
    DueTotalRemove(s.heap, 1, now);
    DueStep(e, now);
    CallsNotDue(begun, cs, now);
    FinishOnHeap(called);
    DueTotalAdd(called.heap, Next(e), now);
  }

  // ------------------------------------------------------------------ who is in the heap

  lemma AddMembers<T>(h: seq<Entry<T>>, e: Entry<T>)
    ensures e in Add(h, e)
    ensures forall f :: f in Add(h, e) ==> f == e || f in h
    ensures forall f :: f in h ==> f in Add(h, e)
  {
    hide Add;
    var r := Add(h, e);
    assert e in multiset(r);
    forall f | f in r
      ensures f == e || f in h
    {
      assert f in multiset(r);
    }
    forall f | f in h
      ensures f in r
    {
      assert f in multiset(h) && f in multiset(r);
    }
  }

  lemma RemoveMembers<T>(h: seq<Entry<T>>, p: nat)
    requires 1 <= p <= |h|
    ensures forall f :: f in Remove(h, p) ==> f in h
    ensures forall f :: f in h && f != h[p - 1] ==> f in Remove(h, p)
  {
    hide Remove;
    var r := Remove(h, p);
    forall f | f in r
      ensures f in h
    {
      assert f in multiset(r) && f in multiset(h);
    }
    forall f | f in h && f != h[p - 1]
      ensures f in r
    {
      assert f in multiset(h) && f in multiset(r);
    }
  }

  /** The entries that calls can bring into the heap. */
  predicate Later<T>(e: Entry<T>, now: int) {
    e.when >= now
  }

  lemma CallMembers<T>(s: H.State<T>, c: Command<T>, now: int)
    requires H.Inv(s) && Future(c, now)
    ensures forall f :: f in H.After(s, c).heap ==> f in s.heap || Later(f, now)
  {
    hide H.Inv, Add, Remove;
    if c.timer in s.life.info {
      CallOnHeap(s, c);
      var p := H.PositionOf(s.heap, c.timer);
      if p > 0 {
        RemoveMembers(s.heap, p);
      }
      if c.Activate? || c.Reschedule? {
        var e := Entry(c.timer, c.clock + c.pause, c.period);
        AddMembers(s.heap, e);
        if p > 0 {
          AddMembers(Remove(s.heap, p), e);
        }
      }
    }
  }

  lemma {:induction false} CallsMembers<T>(s: H.State<T>, cs: seq<Command<T>>, now: int)
    requires H.Inv(s) && FutureAll(cs, now)
    ensures forall f :: f in H.AfterAll(s, cs).heap ==> f in s.heap || Later(f, now)
    decreases |cs|
  {
    hide H.Inv, H.After;
    if |cs| > 0 {
      CallMembers(s, cs[0], now);
      CallsMembers(H.After(s, cs[0]), cs[1..], now);
    }
  }

  lemma TurnMembers<T>(s: H.State<T>, cs: seq<Command<T>>, now: int)
    requires H.Inv(s) && s.exec == [] && s.heap != [] && FutureAll(cs, now)
    ensures forall f :: f in H.AfterTurn(s, cs).heap ==> f in s.heap || Later(f, now) || f == Next(s.heap[0])
  {
    hide H.Inv, H.AfterBegin, H.AfterFinish, H.AfterAll, Add, Remove, FutureAll;
    BeginOnHeap(s);
    var begun := H.AfterBegin(s);
    var called := H.AfterAll(begun, cs);
    RemoveMembers(s.heap, 1);
    CallsMembers(begun, cs, now);
    FinishOnHeap(called);
    AddMembers(called.heap, Next(s.heap[0]));
  }

  // ------------------------------------------------------------------ the pass

  predicate HasElapsed<T>(s: H.State<T>, now: int) {
    s.heap != [] && now > s.heap[0].when
  }

  /** The loop of process_expired_timers, looked at after `n` turns, or when it has ended;
      `script[i]` holds the calls made while the action number `i` is run. */
  ghost function AfterTurns<T>(s: H.State<T>, now: int, script: seq<seq<Command<T>>>, i: nat, n: nat): (r: H.State<T>)
    requires H.Inv(s) && s.exec == []
    ensures H.Inv(r) && r.exec == []
    decreases n
  {
    hide H.Inv, H.AfterTurn;
    if n > 0 && HasElapsed(s, now) then AfterTurns(H.AfterTurn(s, At(script, i)), now, script, i + 1, n - 1) else s
  }

  /** The timers run by then, each with the time it was due. */
  ghost function FiredInTurns<T>(s: H.State<T>, now: int, script: seq<seq<Command<T>>>, i: nat, n: nat): seq<Entry<T>>
    requires H.Inv(s) && s.exec == []
    decreases n
  {
    hide H.Inv, H.AfterTurn;
    if n > 0 && HasElapsed(s, now)
    then [s.heap[0]] + FiredInTurns(H.AfterTurn(s, At(script, i)), now, script, i + 1, n - 1)
    else []
  }

  /** The loop comes to an end. */
  ghost predicate Ends<T>(s: H.State<T>, now: int, script: seq<seq<Command<T>>>, i: nat)
    requires H.Inv(s) && s.exec == []
  {
    exists n: nat :: !HasElapsed(AfterTurns(s, now, script, i, n), now)
  }

  /** Enough turns for that. */
  ghost function TurnsOf<T>(s: H.State<T>, now: int, script: seq<seq<Command<T>>>, i: nat): (n: nat)
    requires H.Inv(s) && s.exec == [] && Ends(s, now, script, i)
    ensures !HasElapsed(AfterTurns(s, now, script, i, n), now)
  {
    var n: nat :| !HasElapsed(AfterTurns(s, now, script, i, n), now);
    n
  }

  lemma TurnsStep<T>(s: H.State<T>, now: int, script: seq<seq<Command<T>>>, i: nat, n: nat)
    requires H.Inv(s) && s.exec == []
    ensures if n > 0 && HasElapsed(s, now) then
              var next := H.AfterTurn(s, At(script, i));
              && AfterTurns(s, now, script, i, n) == AfterTurns(next, now, script, i + 1, n - 1)
              && FiredInTurns(s, now, script, i, n) == [s.heap[0]] + FiredInTurns(next, now, script, i + 1, n - 1)
            else
              AfterTurns(s, now, script, i, n) == s && FiredInTurns(s, now, script, i, n) == []
  {
    hide H.AfterTurn, H.Inv;
  }

  /** A whole pass, and what it runs. */
  ghost function AfterPass<T>(s: H.State<T>, now: int, script: seq<seq<Command<T>>>, i: nat): (r: H.State<T>)
    requires H.Inv(s) && s.exec == [] && Ends(s, now, script, i)
    ensures H.Inv(r) && r.exec == [] && !HasElapsed(r, now)
  {
    AfterTurns(s, now, script, i, TurnsOf(s, now, script, i))
  }

  ghost function FiredInPass<T>(s: H.State<T>, now: int, script: seq<seq<Command<T>>>, i: nat): seq<Entry<T>>
    requires H.Inv(s) && s.exec == [] && Ends(s, now, script, i)
  {
    FiredInTurns(s, now, script, i, TurnsOf(s, now, script, i))
  }

  /** Once the loop has ended, more turns make no difference. */
  lemma {:induction false} SameEnd<T>(s: H.State<T>, now: int, script: seq<seq<Command<T>>>, i: nat, m: nat, n: nat)
    requires H.Inv(s) && s.exec == []
    requires !HasElapsed(AfterTurns(s, now, script, i, m), now) && !HasElapsed(AfterTurns(s, now, script, i, n), now)
    ensures AfterTurns(s, now, script, i, m) == AfterTurns(s, now, script, i, n)
    ensures FiredInTurns(s, now, script, i, m) == FiredInTurns(s, now, script, i, n)
    decreases m
  {
    hide H.Inv, H.AfterTurn;
    if HasElapsed(s, now) {
      SameEnd(H.AfterTurn(s, At(script, i)), now, script, i + 1, m - 1, n - 1);
    }
  }

  /** A pass is as many turns of the loop as it takes. */
  lemma PassIs<T>(s: H.State<T>, now: int, script: seq<seq<Command<T>>>, i: nat, n: nat)
    requires H.Inv(s) && s.exec == [] && !HasElapsed(AfterTurns(s, now, script, i, n), now)
    ensures Ends(s, now, script, i)
    ensures AfterPass(s, now, script, i) == AfterTurns(s, now, script, i, n)
    ensures FiredInPass(s, now, script, i) == FiredInTurns(s, now, script, i, n)
  {
    hide H.Inv, AfterTurns, FiredInTurns;
    SameEnd(s, now, script, i, n, TurnsOf(s, now, script, i));
  }

  lemma PassStep<T>(s: H.State<T>, now: int, script: seq<seq<Command<T>>>, i: nat)
    requires H.Inv(s) && s.exec == [] && Ends(s, now, script, i)
    ensures if HasElapsed(s, now) then
              var next := H.AfterTurn(s, At(script, i));
              && Ends(next, now, script, i + 1)
              && AfterPass(s, now, script, i) == AfterPass(next, now, script, i + 1)
              && FiredInPass(s, now, script, i) == [s.heap[0]] + FiredInPass(next, now, script, i + 1)
            else
              AfterPass(s, now, script, i) == s && FiredInPass(s, now, script, i) == []
  {
    hide H.AfterTurn, H.Inv, AfterPass, FiredInPass, Ends;
    var n := TurnsOf(s, now, script, i);
    PassIs(s, now, script, i, n);
    if HasElapsed(s, now) {
      PassIs(H.AfterTurn(s, At(script, i)), now, script, i + 1, n - 1);
    }
  }

  /** What was deleted stays deleted. */
  lemma TurnOnlyDeletes<T>(s: H.State<T>, cs: seq<Command<T>>)
    requires H.Inv(s) && s.exec == [] && s.heap != []
    ensures OnlyDeletes(s.life.info, H.AfterTurn(s, cs).life.info)
  {
    hide H.AfterBegin, H.Linked, H.Processing, H.AfterAll, H.AfterFinish;
    var begun := H.AfterBegin(s);
    H.BeginBooks(s);
    CallsOnlyDelete(begun.life, cs);
    FinishOneKeepsHolders(H.AfterAll(begun, cs).life);
  }

  lemma {:induction false} TurnsOnlyDelete<T>(s: H.State<T>, now: int, script: seq<seq<Command<T>>>, i: nat, n: nat)
    requires H.Inv(s) && s.exec == []
    ensures OnlyDeletes(s.life.info, AfterTurns(s, now, script, i, n).life.info)
    decreases n
  {
    hide H.AfterTurn, H.Inv;
    if n > 0 && HasElapsed(s, now) {
      TurnOnlyDeletes(s, At(script, i));
      TurnsOnlyDelete(H.AfterTurn(s, At(script, i)), now, script, i + 1, n - 1);
    }
  }

  // ------------------------------------------------------------------ when the loop ends

  /** A timer that is due and would go back to an earlier time. */
  predicate GoesBack<T>(e: Entry<T>, now: int) {
    e.when < now && e.period < 0
  }

  ghost predicate NoneGoesBack<T>(h: seq<Entry<T>>, now: int) {
    forall e :: e in h ==> !GoesBack(e, now)
  }

  /** No timer that is due goes back in time, and neither do calls. */
  ghost predicate Forward<T>(s: H.State<T>, now: int, script: seq<seq<Command<T>>>) {
    H.Inv(s) && s.exec == [] && NoneGoesBack(s.heap, now) && FutureScript(script, now)
  }

  lemma TurnKeepsForward<T>(s: H.State<T>, now: int, script: seq<seq<Command<T>>>, i: nat)
    requires Forward(s, now, script) && HasElapsed(s, now)
    ensures FutureAll(At(script, i), now)
    ensures Forward(H.AfterTurn(s, At(script, i)), now, script)
    ensures DueTotal(H.AfterTurn(s, At(script, i)).heap, now) + 1 <= DueTotal(s.heap, now)
  {
    hide H.Inv, H.AfterTurn, DueTotal;
    assert s.heap[0] in s.heap;
    TurnMembers(s, At(script, i), now);
    TurnWorksOff(s, At(script, i), now);
  }

  lemma {:induction false} ForwardEnds<T>(s: H.State<T>, now: int, script: seq<seq<Command<T>>>, i: nat)
    requires Forward(s, now, script)
    ensures Ends(s, now, script, i)
    decreases DueTotal(s.heap, now)
  {
    hide Forward, H.AfterTurn, DueTotal, H.Inv, FutureAll;
    ForwardParts(s, now, script);
    if HasElapsed(s, now) {
      TurnKeepsForward(s, now, script, i);
      var next := H.AfterTurn(s, At(script, i));
      ForwardEnds(next, now, script, i + 1);
      var n: nat :| !HasElapsed(AfterTurns(next, now, script, i + 1, n), now);
      assert AfterTurns(s, now, script, i, n + 1) == AfterTurns(next, now, script, i + 1, n);
    } else {
      assert AfterTurns(s, now, script, i, 0) == s;
    }
  }

  lemma ForwardParts<T>(s: H.State<T>, now: int, script: seq<seq<Command<T>>>)
    requires Forward(s, now, script)
    ensures H.Inv(s) && s.exec == [] && NoneGoesBack(s.heap, now)
  {
  }

  lemma ForwardAlwaysEnds<T>(s: H.State<T>, now: int, script: seq<seq<Command<T>>>)
    requires Forward(s, now, script)
    ensures H.Inv(s) && s.exec == []
    ensures forall i: nat :: Ends(s, now, script, i)
  {
    hide Forward;
    ForwardParts(s, now, script);
    forall i: nat
      ensures Ends(s, now, script, i)
    {
      ForwardEnds(s, now, script, i);
    }
  }

  /** When nothing goes back in time the loop works off what is due, and so it ends. */
  ghost predicate Ready<T>(s: H.State<T>, now: int, script: seq<seq<Command<T>>>)
    ensures Ready(s, now, script) ==> H.Inv(s) && s.exec == [] && NoneGoesBack(s.heap, now)
    ensures Ready(s, now, script) ==> forall i: nat :: Ends(s, now, script, i)
  {
    if Forward(s, now, script) then ForwardAlwaysEnds(s, now, script); true else false
  }

  lemma ReadyStep<T>(s: H.State<T>, now: int, script: seq<seq<Command<T>>>, i: nat)
    requires Ready(s, now, script)
    ensures if HasElapsed(s, now) then
              var next := H.AfterTurn(s, At(script, i));
              && s.heap[0].period >= 0 && FutureAll(At(script, i), now) && Ready(next, now, script)
              && DueTotal(next.heap, now) + 1 <= DueTotal(s.heap, now)
              && AfterPass(s, now, script, i) == AfterPass(next, now, script, i + 1)
              && FiredInPass(s, now, script, i) == [s.heap[0]] + FiredInPass(next, now, script, i + 1)
            else
              AfterPass(s, now, script, i) == s && FiredInPass(s, now, script, i) == []
  {
    hide H.AfterTurn, DueTotal, H.Inv, Forward, FutureAll, AfterPass, FiredInPass, Ends;
    PassStep(s, now, script, i);
    if HasElapsed(s, now) {
      assert s.heap[0] in s.heap;
      TurnKeepsForward(s, now, script, i);
    }
  }

  /** However clients behave, no more actions are run than firings were due at the start. */
  lemma {:induction false} FiringsAreBounded<T>(s: H.State<T>, now: int, script: seq<seq<Command<T>>>, i: nat)
    requires Ready(s, now, script)
    ensures |FiredInPass(s, now, script, i)| + DueTotal(AfterPass(s, now, script, i).heap, now) <= DueTotal(s.heap, now)
    decreases DueTotal(s.heap, now)
  {
    hide Ready, H.AfterTurn, AfterPass, FiredInPass, DueTotal, FutureAll;
    ReadyStep(s, now, script, i);
    if HasElapsed(s, now) {
      FiringsAreBounded(H.AfterTurn(s, At(script, i)), now, script, i + 1);
    }
  }

  // ------------------------------------------------------------------ a pass that clients leave alone

  /** What an idle turn does to the heap. */
  lemma IdleTurn<T>(s: H.State<T>)
    requires H.Inv(s) && s.exec == [] && s.heap != []
    ensures H.AfterTurn(s, []).heap ==
            if s.heap[0].period == 0 then Remove(s.heap, 1) else Add(Remove(s.heap, 1), Next(s.heap[0]))
  {
    hide H.AfterBegin, Remove, Add, H.Inv, H.Linked;
    BeginOnHeap(s);
    H.BeginBooks(s);
    FinishOnHeap(H.AfterBegin(s));
  }

  /** In an ordered heap the earliest entry elapses with any other one. */
  lemma HeadElapses<T>(s: H.State<T>, e: Entry<T>, now: int)
    requires Ordered(s.heap) && e in s.heap && e.when < now
    ensures HasElapsed(s, now)
  {
    var k :| 0 <= k < |s.heap| && s.heap[k] == e;
    HeadIsEarliest(s.heap, k + 1);
  }

  lemma IdleTurnKeepsOrder<T>(s: H.State<T>)
    requires H.Inv(s) && s.exec == [] && s.heap != [] && Ordered(s.heap)
    ensures Ordered(H.AfterTurn(s, []).heap)
  {
    hide H.Inv, H.AfterTurn, Ordered, Add, Remove;
    IdleTurn(s);
    RemoveKeepsOrder(s.heap, 1);
    AddKeepsOrder(Remove(s.heap, 1), Next(s.heap[0]));
  }

  lemma {:induction false} GoesOn<T>(s: H.State<T>, now: int, e: Entry<T>, i: nat, n: nat)
    requires H.Inv(s) && s.exec == [] && Ordered(s.heap) && e in s.heap && GoesBack(e, now)
    ensures HasElapsed(AfterTurns(s, now, [], i, n), now)
    decreases n
  {
    hide H.Inv, H.AfterTurn, Ordered, Add, Remove;
    HeadElapses(s, e, now);
    if n > 0 {
      IdleTurn(s);
      IdleTurnKeepsOrder(s);
      RemoveMembers(s.heap, 1);
      AddMembers(Remove(s.heap, 1), Next(s.heap[0]));
      GoesOn(H.AfterTurn(s, []), now, if e == s.heap[0] then Next(e) else e, i + 1, n - 1);
    }
  }

  /** Left alone by clients, the loop over an ordered heap ends exactly when no timer that is
      due has a negative period. */
  lemma LoopEnds<T>(s: H.State<T>, now: int)
    requires H.Inv(s) && s.exec == [] && Ordered(s.heap)
    ensures Ends(s, now, [], 0) <==> NoneGoesBack(s.heap, now)
  {
    hide H.Inv, Ordered, AfterTurns;
    if NoneGoesBack(s.heap, now) {
      ForwardEnds(s, now, [], 0);
    } else {
      var e :| e in s.heap && GoesBack(e, now);
      forall n: nat
        ensures HasElapsed(AfterTurns(s, now, [], 0, n), now)
      {
        GoesOn(s, now, e, 0, n);
      }
    }
  }

  /** One timer, due at 0, with a period of -1. */
  ghost function Backward(): (s: H.State<nat>)
    ensures s.heap == [Entry(7, 0, -1)] && s.exec == []
  {
    H.State(Ledger(map[7 := Info(Active, -1, 2, 1)], [], 0, 1), [Entry(7, 0, -1)], [])
  }

  lemma BackwardInv()
    ensures H.Inv(Backward()) && Counted(Backward().life)
  {
    var info := Backward().life.info;
    assert Timers(Backward().heap) == [7];
    assert Owned(info, false) == {} && Owned(info, true) == {7};
  }

  /** Then the loop does not end at time 1. */
  lemma EndlessPass()
    ensures H.Inv(Backward()) && Counted(Backward().life) && !Ends(Backward(), 1, [], 0)
  {
    hide H.Inv, Counted, Ends, Backward;
    BackwardInv();
    assert Backward().heap[0] in Backward().heap && GoesBack(Backward().heap[0], 1);
    LoopEnds(Backward(), 1);
  }

  // ------------------------------------------------------------------ which firings

  /** What is still due of a timer. */
  function Remaining<T>(h: seq<Entry<T>>, t: T, now: int): seq<int> {
    var p := H.PositionOf(h, t);
    if p == 0 then [] else Due(h[p - 1], now)
  }

  /** The times of the firings of one timer. */
  function WhensOf<T>(fired: seq<Entry<T>>, t: T): seq<int> {
    if fired == [] then []
    else (if fired[0].timer == t then [fired[0].when] else []) + WhensOf(fired[1..], t)
  }

  lemma OneEntry<T>(life: Ledger<T>, h: seq<Entry<T>>, e: Entry<T>, f: Entry<T>)
    requires H.Linked(life, h) && e in h && f in h && e.timer == f.timer
    ensures e == f
  {
    var i :| 0 <= i < |h| && h[i] == e;
    var j :| 0 <= j < |h| && h[j] == f;
    var ts := Timers(h);
    assert ts[i] in multiset(ts);
    if i < j {
      CountTwice(ts, i, j);
    } else if j < i {
      CountTwice(ts, j, i);
    }
  }

  lemma RemainingIs<T>(life: Ledger<T>, h: seq<Entry<T>>, e: Entry<T>, now: int)
    requires H.Linked(life, h) && e in h
    ensures Remaining(h, e.timer, now) == Due(e, now)
  {
    H.InTimers(h, e);
    OneEntry(life, h, e, h[H.PositionOf(h, e.timer) - 1]);
  }

  /** Nothing is due of a timer that is not active. */
  lemma RemainingNone<T>(life: Ledger<T>, h: seq<Entry<T>>, t: T, now: int)
    requires H.Linked(life, h)
    requires t in life.info ==> life.info[t].status != Active
    ensures Remaining(h, t, now) == []
  {
    assert t in Timers(h) ==> t in multiset(Timers(h));
  }

  /** A heap that has the same entry for a timer owes it the same firings. */
  lemma RemainingSame<T>(la: Ledger<T>, a: seq<Entry<T>>, lb: Ledger<T>, b: seq<Entry<T>>, t: T, now: int)
    requires H.Linked(la, a) && H.Linked(lb, b)
    requires forall e :: e in a && e.timer == t ==> e in b
    requires forall e :: e in b && e.timer == t ==> e in a
    ensures Remaining(a, t, now) == Remaining(b, t, now)
  {
    var p := H.PositionOf(a, t);
    if p > 0 {
      RemainingIs(la, a, a[p - 1], now);
      RemainingIs(lb, b, a[p - 1], now);
    } else {
      var q := H.PositionOf(b, t);
      if q > 0 {
        H.InTimers(a, b[q - 1]);
      }
    }
  }

  /** The call takes the timer out of the heap if it is there. */
  predicate Cancels<T(==)>(c: Command<T>, t: T) {
    c.timer == t && (c.Deactivate? || c.Reschedule?)
  }

  /** The two are equal, or `a` is empty, which only a cancellation can bring about. */
  predicate SameOrCut(a: seq<int>, b: seq<int>, cancelled: bool) {
    a == b || (cancelled && a == [])
  }

  lemma CallRemaining<T>(s: H.State<T>, c: Command<T>, t: T, now: int)
    requires H.Inv(s) && Future(c, now)
    ensures SameOrCut(Remaining(H.After(s, c).heap, t, now), Remaining(s.heap, t, now), Cancels(c, t))
  {
    hide Add, Remove, Sound, H.Processing, H.Linked, H.After, Remaining, DueSeq;
    CallOnHeap(s, c);
    if c.timer in s.life.info {
      var p, r := H.PositionOf(s.heap, c.timer), H.After(s, c);
      if c.timer != t {
        if p > 0 { RemoveMembers(s.heap, p); }
        if c.Activate? || c.Reschedule? {
          var e := Entry(c.timer, c.clock + c.pause, c.period);
          AddMembers(s.heap, e);
          if p > 0 { AddMembers(Remove(s.heap, p), e); }
        }
        RemainingSame(s.life, s.heap, r.life, r.heap, t, now);
      } else if r.heap != s.heap {
        if c.Deactivate? {
          RemainingNone(r.life, r.heap, t, now);
        } else {
          var e := Entry(t, c.clock + c.pause, c.period);
          if p > 0 { AddMembers(Remove(s.heap, p), e); }
          else { AddMembers(s.heap, e); RemainingNone(s.life, s.heap, t, now); }
          RemainingIs(r.life, r.heap, e, now);
        }
      }
    }
  }

  ghost predicate CancelledIn<T>(cs: seq<Command<T>>, t: T) {
    exists k :: 0 <= k < |cs| && Cancels(cs[k], t)
  }

  lemma {:induction false} CallsRemaining<T>(s: H.State<T>, cs: seq<Command<T>>, t: T, now: int)
    requires H.Inv(s) && FutureAll(cs, now)
    ensures SameOrCut(Remaining(H.AfterAll(s, cs).heap, t, now), Remaining(s.heap, t, now), CancelledIn(cs, t))
    decreases |cs|
  {
    hide H.Inv, H.After, Remaining;
    if |cs| > 0 {
      CallRemaining(s, cs[0], t, now);
      CallsRemaining(H.After(s, cs[0]), cs[1..], t, now);
      if CancelledIn(cs[1..], t) {
        var k :| 0 <= k < |cs[1..]| && Cancels(cs[1..][k], t);
        assert Cancels(cs[k + 1], t);
      }
    }
  }

  /** The timer in processing stays so, and repeats unless it is periodic and was cancelled. */
  lemma RepeatsUnlessCancelled<T>(s: H.State<T>, cs: seq<Command<T>>)
    requires H.Inv(s) && s.exec == [] && s.heap != []
    ensures var begun, e := H.AfterBegin(s), s.heap[0];
            var called := H.AfterAll(begun, cs);
            && called.exec == [e]
            && (H.Repeats(called) ==> e.period != 0)
            && (!H.Repeats(called) ==> e.period == 0 || CancelledIn(cs, e.timer))
            && e.timer in begun.life.info && begun.life.info[e.timer].status != Active
            && e.timer in called.life.info && called.life.info[e.timer].status != Active
  {
    hide H.Linked, Add, Remove, H.AfterAll;
    H.EntryIsActive(s.life, s.heap, 1);
    var begun, t := H.AfterBegin(s), s.heap[0].timer;
    assert begun.life.exec == [t];
    ExecIsStable(begun.life, cs, t);
    if Deactivate(t) in cs {
      var k :| 0 <= k < |cs| && cs[k] == Deactivate(t);
      assert Cancels(cs[k], t);
    }
  }

  /** A turn of the loop takes the first of the firings due from the timer at the head, and
      none from any other timer. */
  lemma TurnRemaining<T>(s: H.State<T>, cs: seq<Command<T>>, t: T, now: int)
    requires H.Inv(s) && HasElapsed(s, now) && s.exec == [] && FutureAll(cs, now) && s.heap[0].period >= 0
    ensures var owed := Remaining(s.heap, t, now);
            && (s.heap[0].timer == t ==> owed != [] && owed[0] == s.heap[0].when)
            && SameOrCut(Remaining(H.AfterTurn(s, cs).heap, t, now),
                         if s.heap[0].timer == t then owed[1..] else owed, CancelledIn(cs, t))
  {
    hide H.Linked, Sound, H.Processing, Add, Remove, Remaining, H.AfterAll, H.AfterBegin, H.AfterFinish;
    hide DueSeq, CancelledIn, FutureAll, H.Repeats;
    var e, begun := s.heap[0], H.AfterBegin(s);
    var called, r := H.AfterAll(begun, cs), H.AfterTurn(s, cs);
    BeginOnHeap(s);
    RepeatsUnlessCancelled(s, cs);
    RemoveMembers(s.heap, 1);
    CallsRemaining(begun, cs, t, now);
    FinishOnHeap(called);
    AddMembers(called.heap, Next(e));
    RemainingIs(s.life, s.heap, e, now);
    DueStep(e, now);
    if e.timer == t {
      RemainingNone(called.life, called.heap, t, now);
      if H.Repeats(called) {
        RemainingIs(r.life, r.heap, Next(e), now);
      }
    } else {
      RemainingSame(s.life, s.heap, begun.life, begun.heap, t, now);
      RemainingSame(called.life, called.heap, r.life, r.heap, t, now);
    }
  }

  /** Some call from action number `i` on cancels the timer. */
  ghost predicate CancelledFrom<T>(script: seq<seq<Command<T>>>, t: T, i: nat) {
    exists k :: i <= k < |script| && CancelledIn(script[k], t)
  }

  /** What a pass fires of a timer and what it leaves due of it make up what was due of it at
      the start, in order.  Only a cancellation of that timer can cut this short. */
  lemma {:induction false} FiringsOfOne<T>(s: H.State<T>, now: int, script: seq<seq<Command<T>>>, i: nat, t: T)
    requires Ready(s, now, script)
    ensures var fired, r := FiredInPass(s, now, script, i), AfterPass(s, now, script, i);
            var done := WhensOf(fired, t) + Remaining(r.heap, t, now);
            && done <= Remaining(s.heap, t, now)
            && (!CancelledFrom(script, t, i) ==> done == Remaining(s.heap, t, now))
    decreases DueTotal(s.heap, now)
  {
    hide Ready, H.AfterTurn, AfterPass, FiredInPass, DueTotal, FutureAll, Remaining, H.Inv, WhensOf;
    hide CancelledFrom, CancelledIn, SameOrCut;
    ReadyStep(s, now, script, i);
    if HasElapsed(s, now) {
      var next := H.AfterTurn(s, At(script, i));
      TurnRemaining(s, At(script, i), t, now);
      FiringsOfOne(next, now, script, i + 1, t);
      CancelledLater(script, t, i);
      var e, rest := s.heap[0], FiredInPass(next, now, script, i + 1);
      OneMoreFiring(e, rest, t);
      JoinFirings(Remaining(s.heap, t, now), Remaining(next.heap, t, now), WhensOf(rest, t),
                  Remaining(AfterPass(s, now, script, i).heap, t, now), if e.timer == t then [e.when] else [],
                  CancelledIn(At(script, i), t), CancelledFrom(script, t, i + 1));
    } else {
      NoFiring<T>(t, Remaining(s.heap, t, now));
    }
  }

  lemma CancelledLater<T>(script: seq<seq<Command<T>>>, t: T, i: nat)
    ensures CancelledIn(At(script, i), t) || CancelledFrom(script, t, i + 1) ==> CancelledFrom(script, t, i)
  {
    if CancelledIn(At(script, i), t) {
      assert i < |script| && CancelledIn(script[i], t);
    }
  }

  lemma NoFiring<T>(t: T, owed: seq<int>)
    ensures WhensOf<T>([], t) + owed == owed
  {
  }

  lemma OneMoreFiring<T>(e: Entry<T>, rest: seq<Entry<T>>, t: T)
    ensures WhensOf([e] + rest, t) == (if e.timer == t then [e.when] else []) + WhensOf(rest, t)
  {
    assert ([e] + rest)[1..] == rest;
  }

  /** The first firing of those owed, the later ones, and what is owed after them. */
  lemma JoinFirings(owed: seq<int>, left: seq<int>, later: seq<int>, after: seq<int>, first: seq<int>,
                    cutNow: bool, cutLater: bool)
    requires |first| <= 1 && |first| <= |owed| && (first != [] ==> first[0] == owed[0])
    requires SameOrCut(left, if first == [] then owed else owed[1..], cutNow)
    requires later + after <= left && (!cutLater ==> later + after == left)
    ensures first + later + after <= owed
    ensures !cutNow && !cutLater ==> first + later + after == owed
  {
    assert owed == first + if first == [] then owed else owed[1..];
    assert first + later + after == first + (later + after);
  }

  // ------------------------------------------------------------------ in which order

  /** The heap is ordered at the head of every turn of the loop, and at its end. */
  ghost predicate Steady<T>(s: H.State<T>, now: int, script: seq<seq<Command<T>>>, i: nat)
    requires Ready(s, now, script)
    decreases DueTotal(s.heap, now)
  {
    Ordered(s.heap) &&
    (HasElapsed(s, now) ==>
       (TurnKeepsForward(s, now, script, i);
        Steady(H.AfterTurn(s, At(script, i)), now, script, i + 1)))
  }

  /** The call does not take an entry from where the last one of the heap would have to rise. */
  predicate Harmless<T>(s: H.State<T>, c: Command<T>) {
    c.Deactivate? || c.Reschedule? ==>
      var p := H.PositionOf(s.heap, c.timer);
      p == 0 || Fits(s.heap, p)
  }

  /** A call leaves an ordered heap ordered exactly when it is harmless. */
  lemma CallKeepsOrder<T>(s: H.State<T>, c: Command<T>)
    requires H.Inv(s) && Ordered(s.heap)
    ensures Ordered(H.After(s, c).heap) <==> Harmless(s, c)
  {
    hide Ordered, Fits, Add, Remove, H.Inv, H.After, Lifecycle.After;
    CallOnHeap(s, c);
    var p := H.PositionOf(s.heap, c.timer);
    if p > 0 { RemoveKeepsOrder(s.heap, p); }
    if c.Activate? || c.Reschedule? {
      var e := Entry(c.timer, c.clock + c.pause, c.period);
      AddKeepsOrder(s.heap, e);
      if p > 0 { MoveKeepsOrder(s.heap, p, e); }
    }
  }

  ghost predicate HarmlessAll<T>(s: H.State<T>, cs: seq<Command<T>>)
    requires H.Inv(s)
    decreases |cs|
  {
    |cs| > 0 ==> Harmless(s, cs[0]) && HarmlessAll(H.After(s, cs[0]), cs[1..])
  }

  lemma {:induction false} CallsKeepOrder<T>(s: H.State<T>, cs: seq<Command<T>>)
    requires H.Inv(s) && Ordered(s.heap) && HarmlessAll(s, cs)
    ensures Ordered(H.AfterAll(s, cs).heap)
    decreases |cs|
  {
    hide H.Inv, H.After, Ordered, Harmless;
    if |cs| > 0 {
      CallKeepsOrder(s, cs[0]);
      CallsKeepOrder(H.After(s, cs[0]), cs[1..]);
    }
  }

  /** Every call made during the pass is harmless. */
  ghost predicate HarmlessScript<T>(s: H.State<T>, now: int, script: seq<seq<Command<T>>>, i: nat)
    requires Ready(s, now, script)
    decreases DueTotal(s.heap, now)
  {
    HasElapsed(s, now) ==>
      (TurnKeepsForward(s, now, script, i);
       HarmlessAll(H.AfterBegin(s), At(script, i))
       && HarmlessScript(H.AfterTurn(s, At(script, i)), now, script, i + 1))
  }

  lemma TurnKeepsOrder<T>(s: H.State<T>, cs: seq<Command<T>>)
    requires H.Inv(s) && s.exec == [] && s.heap != [] && Ordered(s.heap) && HarmlessAll(H.AfterBegin(s), cs)
    ensures Ordered(H.AfterTurn(s, cs).heap)
  {
    hide H.Inv, H.AfterBegin, H.AfterFinish, H.AfterAll, Ordered, Add, Remove, HarmlessAll, H.Repeats;
    BeginOnHeap(s);
    var begun := H.AfterBegin(s);
    var called := H.AfterAll(begun, cs);
    RemoveKeepsOrder(s.heap, 1);
    CallsKeepOrder(begun, cs);
    FinishOnHeap(called);
    AddKeepsOrder(called.heap, Next(s.heap[0]));
  }

  lemma {:induction false} HarmlessIsSteady<T>(s: H.State<T>, now: int, script: seq<seq<Command<T>>>, i: nat)
    requires Ready(s, now, script) && Ordered(s.heap) && HarmlessScript(s, now, script, i)
    ensures Steady(s, now, script, i)
    decreases DueTotal(s.heap, now)
  {
    hide Ready, H.AfterTurn, DueTotal, FutureAll, H.Inv, H.AfterBegin, HarmlessAll, Ordered;
    ReadyStep(s, now, script, i);
    if HasElapsed(s, now) {
      TurnKeepsOrder(s, At(script, i));
      HarmlessIsSteady(H.AfterTurn(s, At(script, i)), now, script, i + 1);
    }
  }

  /** The entries of other timers, from which the one of a timer is taken if it is there. */
  lemma OthersLeft<T>(s: H.State<T>, t: T)
    requires H.Inv(s)
    ensures var p := H.PositionOf(s.heap, t);
            var q := if p > 0 then Remove(s.heap, p) else s.heap;
            forall f :: f in q <==> f in s.heap && f.timer != t
  {
    hide Remove, Timers, H.PositionOf, Sound, H.Processing;
    var p := H.PositionOf(s.heap, t);
    if p > 0 {
      var without := s.life.(info := s.life.info - {t});
      H.EntryIsActive(s.life, s.heap, p);
      H.LinkedRemove(s.life, without, s.heap, p);
      RemoveMembers(s.heap, p);
      forall f | f in Remove(s.heap, p)
        ensures f.timer != t
      {
        H.InTimers(Remove(s.heap, p), f);
      }
    } else {
      forall f | f in s.heap
        ensures f.timer != t
      {
        H.InTimers(s.heap, f);
      }
    }
  }

  /** An added entry is in front exactly when it is earlier than all others. */
  lemma InFront<T>(q: seq<Entry<T>>, e: Entry<T>)
    requires HeadFirst(q) && forall f :: f in q ==> f.timer != e.timer
    ensures Add(q, e) != []
    ensures Add(q, e)[0].timer == e.timer <==> forall f :: f in q ==> e.when < f.when
  {
    hide Add;
    AddedToFront(q, e);
    if q != [] { assert q[0] in q; }
  }

  /** In an ordered heap an activation notifies the thread exactly when the new timer is the
      earliest one. */
  lemma ActivateNotifies<T>(s: H.State<T>, t: T, when: int, period: int)
    requires H.Inv(s) && Ordered(s.heap) && t in s.life.info
    ensures H.ActivateOutcome(s, t, when, period) ==
            if s.life.info[t].status != Deactivated then Failed(NotDeactivated)
            else Done(forall f :: f in s.heap ==> when < f.when)
  {
    hide H.Inv, Add, Ordered, HeadFirst, Remove;
    if s.life.info[t].status == Deactivated {
      CallOnHeap(s, Activate(t, when, 0, period));
      OthersLeft(s, t);
      OrderedHeadFirst(s.heap);
      InFront(s.heap, Entry(t, when, period));
    }
  }

  lemma MovedToFront<T>(s: H.State<T>, t: T, when: int, period: int)
    requires H.Inv(s) && Ordered(s.heap) && t in s.life.info && s.life.info[t].status == Active
    ensures H.IsHead(H.AfterReschedule(s, t, when, period), t)
            <==> forall f :: f in s.heap && f.timer != t ==> when < f.when
  {
    hide H.Inv, Add, Remove, Ordered, HeadFirst, H.AfterReschedule, H.PositionOf;
    var c := Reschedule(t, when, 0, period);
    CallOnHeap(s, c);
    assert H.After(s, c) == H.AfterReschedule(s, t, when, period);
    var p := H.PositionOf(s.heap, t);
    var q := Remove(s.heap, p);
    OthersLeft(s, t);
    assert forall f :: f in q <==> f in s.heap && f.timer != t;
    RemoveKeepsHead(s.heap, p);
    InFront(q, Entry(t, when, period));
    assert H.AfterReschedule(s, t, when, period).heap == Add(q, Entry(t, when, period));
  }

  /** So does a rescheduling when the timer is earlier than all others, even if it harms the
      order. */
  lemma RescheduleNotifies<T>(s: H.State<T>, t: T, when: int, period: int)
    requires H.Inv(s) && Ordered(s.heap) && t in s.life.info
    ensures H.RescheduleOutcome(s, t, when, period) ==
            if InExec(s.life.info[t]) then Failed(InProcessing)
            else Done(forall f :: f in s.heap && f.timer != t ==> when < f.when)
  {
    hide H.Inv, Ordered, H.AfterReschedule, H.ActivateOutcome, H.IsHead;
    H.RescheduleCases(s, t, when, period);
    if s.life.info[t].status == Active {
      MovedToFront(s, t, when, period);
    } else if s.life.info[t].status == Deactivated {
      ActivateNotifies(s, t, when, period);
      NoneIsIts(s, t);
    }
  }

  lemma NoneIsIts<T>(s: H.State<T>, t: T)
    requires H.Inv(s) && t in s.life.info && s.life.info[t].status != Active
    ensures forall f :: f in s.heap ==> f.timer != t
  {
    hide Timers, Sound, H.Processing;
    H.PositionIffActive(s, t);
    forall f | f in s.heap
      ensures f.timer != t
    {
      H.InTimers(s.heap, f);
    }
  }

  /** Nothing that is left is earlier than the head was. */
  lemma TurnRises<T>(s: H.State<T>, cs: seq<Command<T>>, now: int)
    requires H.Inv(s) && s.exec == [] && HasElapsed(s, now) && FutureAll(cs, now)
    requires Ordered(s.heap) && s.heap[0].period >= 0
    ensures forall f :: f in H.AfterTurn(s, cs).heap ==> f.when >= s.heap[0].when
  {
    hide H.Inv, H.AfterTurn;
    TurnMembers(s, cs, now);
    forall f | f in s.heap
      ensures f.when >= s.heap[0].when
    {
      var k :| 0 <= k < |s.heap| && s.heap[k] == f;
      HeadIsEarliest(s.heap, k + 1);
    }
  }

  ghost predicate InOrder<T>(fired: seq<Entry<T>>) {
    forall j, k :: 0 <= j < k < |fired| ==> fired[j].when <= fired[k].when
  }

  lemma {:induction false} SteadyFiresInOrder<T>(s: H.State<T>, now: int, script: seq<seq<Command<T>>>, i: nat)
    requires Ready(s, now, script) && Steady(s, now, script, i)
    ensures var fired := FiredInPass(s, now, script, i);
            && InOrder(fired)
            && forall k :: 0 <= k < |fired| ==> s.heap != [] && s.heap[0].when <= fired[k].when < now
    ensures Ordered(AfterPass(s, now, script, i).heap)
    decreases DueTotal(s.heap, now)
  {
    hide Ready, H.AfterTurn, DueTotal, FutureAll, H.Inv, Ordered, AfterPass, FiredInPass;
    ReadyStep(s, now, script, i);
    if HasElapsed(s, now) {
      var next := H.AfterTurn(s, At(script, i));
      TurnRises(s, At(script, i), now);
      SteadyFiresInOrder(next, now, script, i + 1);
      if next.heap != [] { assert next.heap[0] in next.heap; }
    }
  }

  /** An ordered heap whose head has not elapsed has nothing due. */
  lemma NothingDue<T>(h: seq<Entry<T>>, t: T, now: int)
    requires Ordered(h) && (h == [] || h[0].when >= now)
    ensures Remaining(h, t, now) == []
    ensures forall p :: 1 <= p <= |h| ==> W(h, p) >= now
  {
    forall p | 1 <= p <= |h|
      ensures W(h, p) >= now
    {
      HeadIsEarliest(h, p);
    }
    if H.PositionOf(h, t) > 0 {
      assert W(h, H.PositionOf(h, t)) >= now;
    }
  }

  /** A pass over an ordered heap during which no call is harmful fires exactly what is due:
      each timer that is not cancelled as often as it is due and at its times, all in order of
      time, and nothing due is left. */
  lemma PassIsExact<T>(s: H.State<T>, now: int, script: seq<seq<Command<T>>>, t: T)
    requires Ready(s, now, script) && Ordered(s.heap) && HarmlessScript(s, now, script, 0)
    ensures var fired, r := FiredInPass(s, now, script, 0), AfterPass(s, now, script, 0);
            && InOrder(fired)
            && (!CancelledFrom(script, t, 0) ==> WhensOf(fired, t) == Remaining(s.heap, t, now))
            && Ordered(r.heap) && (forall p :: 1 <= p <= |r.heap| ==> W(r.heap, p) >= now)
  {
    hide Ready, HarmlessScript, Steady, FiredInPass, Ordered, Remaining;
    HarmlessIsSteady(s, now, script, 0);
    SteadyFiresInOrder(s, now, script, 0);
    FiringsOfOne(s, now, script, 0, t);
    NothingDue(AfterPass(s, now, script, 0).heap, t, now);
  }

  /** Clients that only activate timers, or start and stop to refer to them, do no harm and
      cancel nothing. */
  ghost predicate Additive<T>(script: seq<seq<Command<T>>>) {
    forall i, c :: 0 <= i < |script| && c in script[i] ==> !c.Deactivate? && !c.Reschedule?
  }

  lemma {:induction false} AdditiveCalls<T>(s: H.State<T>, cs: seq<Command<T>>)
    requires H.Inv(s) && forall c :: c in cs ==> !c.Deactivate? && !c.Reschedule?
    ensures HarmlessAll(s, cs)
    decreases |cs|
  {
    hide H.Inv, H.After;
    if |cs| > 0 {
      AdditiveCalls(H.After(s, cs[0]), cs[1..]);
    }
  }

  lemma {:induction false} AdditiveIsHarmless<T>(s: H.State<T>, now: int, script: seq<seq<Command<T>>>, i: nat)
    requires Ready(s, now, script) && Additive(script)
    ensures HarmlessScript(s, now, script, i)
    decreases DueTotal(s.heap, now)
  {
    hide Ready, H.AfterTurn, DueTotal, FutureAll, H.Inv, H.AfterBegin, HarmlessAll;
    ReadyStep(s, now, script, i);
    if HasElapsed(s, now) {
      AdditiveCalls(H.AfterBegin(s), At(script, i));
      AdditiveIsHarmless(H.AfterTurn(s, At(script, i)), now, script, i + 1);
    }
  }

  /** So with such clients each single-shot timer due before `now` is run once and each
      periodic one as often as its periods have come due, in order of time. */
  lemma AdditivePass<T>(s: H.State<T>, now: int, script: seq<seq<Command<T>>>, e: Entry<T>)
    requires Ready(s, now, script) && Ordered(s.heap) && Additive(script) && e in s.heap
    ensures var fired := FiredInPass(s, now, script, 0);
            && InOrder(fired)
            && WhensOf(fired, e.timer) == DueSeq(e.when, e.period, now)
            && |WhensOf(fired, e.timer)| == (if e.when >= now then 0
                                            else if e.period == 0 then 1
                                            else (now - e.when + e.period - 1) / e.period)
  {
    hide H.Inv, HarmlessScript, FiredInPass, AfterPass, Ordered, Remaining;
    AdditiveIsHarmless(s, now, script, 0);
    PassIsExact(s, now, script, e.timer);
    InvLinked(s);
    RemainingIs(s.life, s.heap, e, now);
    if e.when < now && e.period > 0 {
      DueSeqLength(e.when, e.period, now);
    }
  }

  lemma InvLinked<T>(s: H.State<T>)
    requires H.Inv(s)
    ensures H.Linked(s.life, s.heap)
  {
  }

  /** The engine takes the timer: it is not active, or it is to be moved. */
  predicate Accepts<T>(s: H.State<T>, c: Command<T>) {
    c.timer in s.life.info &&
    match c
    case Activate(t, _, _, _) => s.life.info[t].status == Deactivated
    case Reschedule(t, _, _, _) => !InExec(s.life.info[t])
    case _ => false
  }

  /** So a timer that is activated or rescheduled between passes is run by a pass that clients
      leave alone as often as its times, from the time of the call and the pause on, have come. */
  lemma FiresAsAsked<T>(s: H.State<T>, c: Command<T>, now: int)
    requires H.Inv(s) && s.exec == [] && Accepts(s, c)
    requires Ordered(H.After(s, c).heap) && NoneGoesBack(H.After(s, c).heap, now)
    ensures Ready(H.After(s, c), now, [])
    ensures WhensOf(FiredInPass(H.After(s, c), now, [], 0), c.timer)
         == DueSeq(c.clock + c.pause, c.period, now)
  {
    hide H.Inv, H.After, Ordered, FiredInPass, AfterPass, DueSeq, Add, Remove;
    var e := Entry(c.timer, c.clock + c.pause, c.period);
    CallOnHeap(s, c);
    var p := H.PositionOf(s.heap, c.timer);
    AddMembers(s.heap, e);
    if p > 0 { AddMembers(Remove(s.heap, p), e); }
    AdditivePass(H.After(s, c), now, [], e);
  }

  // ------------------------------------------------------------------ when the order is lost

  /** A pass over single-shot timers that clients leave alone, as far as the heap is concerned. */
  function Drained<T>(h: seq<Entry<T>>, now: int): seq<Entry<T>>
    decreases |h|
  {
    if h != [] && now > h[0].when then Drained(Remove(h, 1), now) else h
  }

  lemma {:induction false} IdlePassDrains<T>(s: H.State<T>, now: int, i: nat)
    requires Ready(s, now, []) && forall e :: e in s.heap ==> e.period == 0
    ensures AfterPass(s, now, [], i).heap == Drained(s.heap, now)
    decreases |s.heap|
  {
    hide Ready, H.AfterTurn, DueTotal, H.Inv, AfterPass, FiredInPass, Remove;
    ReadyStep(s, now, [], i);
    if HasElapsed(s, now) {
      assert s.heap[0] in s.heap;
      IdleTurn(s);
      RemoveMembers(s.heap, 1);
      IdlePassDrains(H.AfterTurn(s, []), now, i + 1);
    }
  }

  /** Timers named after the times they are due. */
  function Shots(whens: seq<int>): seq<Entry<int>> {
    seq(|whens|, i requires 0 <= i < |whens| => Entry(whens[i], whens[i], 0))
  }

  lemma ShotsAt(whens: seq<int>, i: nat)
    requires i < |whens|
    ensures Shots(whens)[i] in Shots(whens) && Shots(whens)[i].when == whens[i]
    ensures forall e :: e in Shots(whens) ==> e.period == 0
  {
  }

  /** Single-shot timers and no calls: nothing goes back in time. */
  lemma ShotsReady(s: H.State<int>, whens: seq<int>)
    requires H.Inv(s) && s.exec == [] && s.heap == Shots(whens)
    ensures Ready(s, 4, [])
  {
    hide H.Inv;
  }

  /** Removing the timer due at 11 leaves the one due at 4 below the one due at 10. */
  lemma OrderCanBeLost()
    ensures var h := Shots([1, 10, 2, 11, 12, 3, 4]);
            && Ordered(h) && h[3].when == 11 && !Ordered(Remove(h, 4))
  {
    var h := Shots([1, 10, 2, 11, 12, 3, 4]);
    forall p | 2 <= p <= |h|
      ensures Below(h, p)
    {
      assert p == 2 || p == 3 || p == 4 || p == 5 || p == 6 || p == 7;
    }
    RemoveKeepsOrder(h, 4);
    assert !Fits(h, 4);
  }

  lemma DrainStep<T>(h: seq<Entry<T>>, now: int)
    requires h != []
    ensures Drained(h, now) == if now > h[0].when then Drained(Remove(h, 1), now) else h
  {
  }

  /** What removals do to small heaps, one exchange at a time. */
  lemma RemoveFourth()
    ensures Remove(Shots([1, 4, 2, 5, 6, 7, 3]), 4) == Shots([1, 4, 2, 3, 6, 7])
  {
    hide SiftDown, Permuted;
    var done := Shots([1, 4, 2, 3, 6, 7]);
    assert Swap(Shots([1, 4, 2, 5, 6, 7, 3]), 4, 7)[..6] == done;
    SinkStep(done, 4);
  }

  lemma RemoveOne()
    ensures Remove(Shots([1, 4, 2, 3, 6, 7]), 1) == Shots([2, 4, 7, 3, 6])
  {
    hide SiftDown, Permuted;
    var sunk, done := Shots([7, 4, 2, 3, 6]), Shots([2, 4, 7, 3, 6]);
    assert Swap(Shots([1, 4, 2, 3, 6, 7]), 1, 6)[..5] == sunk && Swap(sunk, 1, 3) == done;
    SinkStep(sunk, 1);
    SinkStep(done, 3);
  }

  lemma RemoveTwo()
    ensures Remove(Shots([2, 4, 7, 3, 6]), 1) == Shots([4, 3, 7, 6])
  {
    hide SiftDown, Permuted;
    var sunk, next, done := Shots([6, 4, 7, 3]), Shots([4, 6, 7, 3]), Shots([4, 3, 7, 6]);
    assert Swap(Shots([2, 4, 7, 3, 6]), 1, 5)[..4] == sunk && Swap(sunk, 1, 2) == next && Swap(next, 2, 4) == done;
    SinkStep(sunk, 1);
    SinkStep(next, 2);
    SinkStep(done, 4);
  }

  lemma DrainedShots()
    ensures Drained(Shots([1, 4, 2, 3, 6, 7]), 4) == Shots([4, 3, 7, 6])
  {
    hide Remove, Drained;
    RemoveOne();
    RemoveTwo();
    DrainStep(Shots([1, 4, 2, 3, 6, 7]), 4);
    DrainStep(Shots([2, 4, 7, 3, 6]), 4);
    DrainStep(Shots([4, 3, 7, 6]), 4);
  }

  /** Single-shot timers in the heap, one smart pointer to each. */
  ghost function Loaded(h: seq<Entry<int>>): (s: H.State<int>)
    ensures s.heap == h && s.exec == []
  {
    H.State(Ledger(map t | t in Timers(h) :: Info(Active, 0, 2, 1), [], |h|, 0), h, [])
  }

  lemma LoadedInv(h: seq<Entry<int>>)
    requires Distinct(Timers(h)) && forall e :: e in h ==> e.period == 0
    ensures H.Inv(Loaded(h))
  {
    var ts := Timers(h);
    forall t | t in multiset(ts)
      ensures t in ts && multiset(ts)[t] == 1
    {
      DistinctOnce(ts, t);
    }
    forall e | e in h
      ensures e.timer in ts
    {
      H.InTimers(h, e);
    }
  }

  lemma SevenShots()
    ensures var h := Shots([1, 4, 2, 5, 6, 7, 3]);
            Ready(Loaded(h), 4, []) && Ordered(h) && h[3].timer == 5
  {
    hide H.Inv;
    var h := Shots([1, 4, 2, 5, 6, 7, 3]);
    assert Timers(h) == [1, 4, 2, 5, 6, 7, 3];
    LoadedInv(h);
    forall p | 2 <= p <= |h|
      ensures Below(h, p)
    {
      assert p == 2 || p == 3 || p == 4 || p == 5 || p == 6 || p == 7;
    }
  }

  /** And then a pass can stop too early: of a heap in order the timer due at 5 is deactivated,
      and the pass at time 4, which clients leave alone, leaves a timer that is due. */
  lemma DueTimerCanBeMissed()
    ensures var s := Loaded(Shots([1, 4, 2, 5, 6, 7, 3]));
            && Ready(s, 4, []) && Ordered(s.heap)
            && var r := H.After(s, Deactivate(5));
               Ready(r, 4, []) && exists e :: e in AfterPass(r, 4, [], 0).heap && e.when < 4
  {
    hide H.Inv, H.After, Remove, Ordered, AfterPass, H.PositionOf, Ready, Shots;
    SevenShots();
    var s := Loaded(Shots([1, 4, 2, 5, 6, 7, 3]));
    WithoutFifth(s);
    MissedTimer(H.After(s, Deactivate(5)));
    ShotsAt([4, 3, 7, 6], 1);
  }

  lemma MissedTimer(r: H.State<int>)
    requires Ready(r, 4, []) && r.heap == Shots([1, 4, 2, 3, 6, 7])
    ensures AfterPass(r, 4, [], 0).heap == Shots([4, 3, 7, 6])
  {
    hide H.Inv, Drained, AfterPass, Ready, Shots;
    ShotsAt([1, 4, 2, 3, 6, 7], 0);
    IdlePassDrains(r, 4, 0);
    DrainedShots();
  }

  lemma WithoutFifth(s: H.State<int>)
    requires Ready(s, 4, []) && s.heap == Shots([1, 4, 2, 5, 6, 7, 3])
    ensures H.Inv(s) && H.After(s, Deactivate(5)).heap == Shots([1, 4, 2, 3, 6, 7])
    ensures Ready(H.After(s, Deactivate(5)), 4, [])
  {
    hide H.Inv, H.After, Remove, H.PositionOf;
    InvLinked(s);
    assert s.heap[3].timer == 5;
    H.EntryIsActive(s.life, s.heap, 4);
    H.PositionIs(s.life, s.heap, 4);
    CallOnHeap(s, Deactivate(5));
    RemoveFourth();
  }
}
