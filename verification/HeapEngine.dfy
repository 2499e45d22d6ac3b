/**
  timer_heap_engine: a vector of timers that know their 1-based position, updated in place.
  The ghost field `state` says what the memory stands for, and every method is proved to
  change it as HeapSpec says.
 */
module HeapEngine {
  import opened Lifecycle
  import opened Sequences
  import opened TimerObject
  import opened Holders
  import opened BinaryHeap
  import HeapSpec
  import HeapPass

  function EntryOf(t: Timer): Entry<Timer>
    reads t`when, t`period
  {
    Entry(t, t.when, t.period)
  }

  class HeapEngine {
    var heap: seq<Timer>
    var processing: Timer?
    const common: EngineCommon

    ghost var timers: set<Timer>   // every timer this engine has allocated
    ghost var state: HeapSpec.State<Timer>

    /** The source has no status field: it looks at the position and at the timer in processing. */
    ghost function StatusOf(t: Timer): Status
      reads `processing, t`position
    {
      if t == processing then (if t.position == 0 then WaitForDeactivation else WaitForExecution)
      else if t.position == 0 then Deactivated
      else Active
    }

    ghost function BookOf(t: Timer): Info
      reads `processing, t`position, t`period, t`references, t`holders
    {
      Info(StatusOf(t), t.period, t.references, t.holders)
    }

    /** The ledger agrees with memory: it lists the timers that have not been deleted. */
    ghost predicate BooksAgree(info: map<Timer, Info>)
      reads `processing, `timers, timers`position, timers`period, timers`references, timers`holders
    {
      && (forall t {:trigger t in info} :: t in info ==> t in timers && t.references > 0 && info[t] == BookOf(t))
      && (forall t {:trigger t in timers} :: t in timers && t.references > 0 ==> t in info)
    }

    /** Every timer in the vector knows its place. */
    ghost predicate Coherent()
      reads `heap, `timers, heap`position
    {
      CoherentBut(null)
    }

    /** Every timer but `x`, which may be there more than once. */
    ghost predicate CoherentBut(x: Timer?)
      reads `heap, `timers, heap`position
    {
      forall i {:trigger heap[i].position} :: 0 <= i < |heap| ==>
        heap[i] in timers && (heap[i] == x || heap[i].position == i + 1)
    }

    ghost predicate HeapAgrees(entries: seq<Entry<Timer>>)
      reads `heap, heap`when, heap`period
    {
      && |entries| == |heap|
      && forall i {:trigger entries[i]} {:trigger heap[i]} :: 0 <= i < |heap| ==> entries[i] == EntryOf(heap[i])
    }

    ghost predicate ProcessingAgrees(exec: seq<Entry<Timer>>)
      reads `processing, if processing == null then {} else {processing}
    {
      exec == if processing == null then [] else [EntryOf(processing)]
    }

    ghost predicate Valid()
      reads this, heap, common, timers, if processing == null then {} else {processing}
    {
      && Coherent() && HeapAgrees(state.heap) && BooksAgree(state.life.info) && ProcessingAgrees(state.exec)
      && common.single == state.life.single && common.periodic == state.life.periodic
      && HeapSpec.Inv(state) && Counted(state.life)
    }

    constructor ()
      ensures Valid() && timers == {} && processing == null && fresh(common)
      ensures state == HeapSpec.State(Ledger(map[], [], 0, 0), [], [])
    {
      common := new EngineCommon();
      heap, processing, timers := [], null, {};
      state := HeapSpec.State(Ledger(map[], [], 0, 0), [], []);
      new;
      assert Owned(state.life.info, false) == {} && Owned(state.life.info, true) == {};
    }

    // ---------------------------------------------------------------- the heap array

    method HeapSwap(a: Timer, b: Timer, ghost entries: seq<Entry<Timer>>, ghost x: Timer?)
      requires CoherentBut(x) && HeapAgrees(entries) && a != b
      requires 1 <= a.position <= |heap| && heap[a.position - 1] == a
      requires 1 <= b.position <= |heap| && heap[b.position - 1] == b
      modifies `heap, a`position, b`position
      ensures CoherentBut(x) && HeapAgrees(Swap(entries, old(a.position), old(b.position)))
      ensures a.position == old(b.position) && b.position == old(a.position)
      ensures |heap| == |old(heap)| && multiset(heap) == multiset(old(heap))
      ensures heap[a.position - 1] == a && heap[b.position - 1] == b
    {
      ghost var p, q, before := a.position, b.position, heap;
      heap := heap[a.position - 1 := b];
      heap := heap[b.position - 1 := a];
      a.position, b.position := b.position, a.position;
      ghost var r := Swap(entries, p, q);
      forall i | 0 <= i < |heap|
        ensures r[i] == EntryOf(heap[i]) && (heap[i] == x || heap[i].position == i + 1) && heap[i] in timers
      {
        assert entries[p - 1] == EntryOf(before[p - 1]) && entries[q - 1] == EntryOf(before[q - 1]);
        assert i != p - 1 && i != q - 1 ==> heap[i] == before[i] && r[i] == entries[i] == EntryOf(before[i]);
        assert old(before[i] == x || before[i].position == i + 1);
      }
    }

    lemma InHeap(t: Timer, q: seq<Timer>)
      requires t in heap && multiset(heap) == multiset(q)
      ensures t in q
    {
      assert t in multiset(heap);
    }

    /** Puts the timer, whose fields are set, behind the others and lets it rise. */
    method HeapAdd(timer: Timer, ghost entries: seq<Entry<Timer>>, ghost x: Timer?)
      requires CoherentBut(x) && HeapAgrees(entries) && timer in timers && (x == timer || (x == null && timer !in heap))
      modifies `heap, heap`position, timer`position
      ensures CoherentBut(x) && HeapAgrees(Add(entries, EntryOf(timer)))
      ensures multiset(heap) == multiset(old(heap)) + multiset{timer}
      ensures 1 <= timer.position <= |heap| && heap[timer.position - 1] == timer
    {
      hide Permuted, SiftUp;
      if timer !in heap { Apart(timer); }
      timer.position := |heap| + 1;
      heap := heap + [timer];
      forall i {:trigger heap[i]} | 0 <= i < |heap|
        ensures (entries + [EntryOf(timer)])[i] == EntryOf(heap[i])
        ensures (heap[i] == x || heap[i].position == i + 1) && heap[i] in timers
      {
        assert i < |entries| ==> heap[i] == old(heap)[i] && old(heap[i] == x || heap[i].position == i + 1);
      }
      Rise(timer, entries + [EntryOf(timer)], x);
    }

    /** The timer changes places with its parent. */
    method RiseOnce(timer: Timer, parent: Timer, ghost entries: seq<Entry<Timer>>, ghost x: Timer?)
      requires CoherentBut(x) && (x == null || x == timer) && HeapAgrees(entries)
      requires 2 <= timer.position <= |heap| && heap[timer.position - 1] == timer
      requires parent == heap[timer.position / 2 - 1] && parent != timer
      modifies `heap, heap`position
      ensures CoherentBut(x) && HeapAgrees(Swap(entries, old(timer.position), old(timer.position) / 2))
      ensures timer.position == old(timer.position) / 2 <= |heap| && heap[timer.position - 1] == timer
      ensures multiset(heap) == multiset(old(heap))
    {
      hide Permuted, Swap;
      assert parent.position == timer.position / 2;
      HeapSwap(timer, parent, entries, x);
    }

    method Rise(timer: Timer, ghost entries: seq<Entry<Timer>>, ghost x: Timer?)
      requires CoherentBut(x) && (x == null || x == timer) && HeapAgrees(entries)
      requires 1 <= timer.position <= |heap| && heap[timer.position - 1] == timer
      modifies `heap, heap`position
      ensures CoherentBut(x) && HeapAgrees(SiftUp(entries, old(timer.position)))
      ensures multiset(heap) == multiset(old(heap))
      ensures 1 <= timer.position <= |heap| && heap[timer.position - 1] == timer
    {
      hide Permuted, SiftUp, Swap, CoherentBut;
      ghost var cur := entries;
      while timer.position != 1
        invariant CoherentBut(x) && HeapAgrees(cur) && multiset(heap) == multiset(old(heap))
        invariant 1 <= timer.position <= |heap| && heap[timer.position - 1] == timer
        invariant SiftUp(cur, timer.position) == SiftUp(entries, old(timer.position))
        decreases timer.position
      {
        RiseStep(cur, timer.position);
        var parent := HeapItem(timer.position / 2);
        if parent.when > timer.when {
          ghost var p := timer.position;
          SameMembers(old(heap));
          RiseOnce(timer, parent, cur, x);
          cur := Swap(cur, p, p / 2);
        } else {
          return;
        }
      }
      RiseStep(cur, 1);
    }

    lemma SameMembers(q: seq<Timer>)
      requires multiset(heap) == multiset(q)
      ensures forall i {:trigger heap[i]} :: 0 <= i < |heap| ==> heap[i] in q
    {
      forall i {:trigger heap[i]} | 0 <= i < |heap|
        ensures heap[i] in q
      {
        InHeap(heap[i], q);
      }
    }

    lemma Apart(timer: Timer)
      requires timer !in heap
      ensures forall i {:trigger heap[i]} :: 0 <= i < |heap| ==> heap[i] != timer
    {
    }

    method HeapItem(position: nat) returns (t: Timer)
      requires 1 <= position <= |heap|
      ensures t == heap[position - 1]
    {
      t := heap[position - 1];
    }

    /** Takes the timer out of the vector; it keeps a position, as it may be in processing. */
    method HeapRemove(timer: Timer, ghost entries: seq<Entry<Timer>>)
      requires Coherent() && HeapAgrees(entries)
      requires 1 <= timer.position <= |heap| && heap[timer.position - 1] == timer
      modifies `heap, heap`position
      ensures Coherent() && HeapAgrees(Remove(entries, old(timer.position)))
      ensures timer !in heap && timer.position == |old(heap)|
      ensures multiset(old(heap)) == multiset(heap) + multiset{timer}
    {
      hide Permuted, SiftDown;
      ghost var p := timer.position;
      if timer.position == |heap| {
        DropLastTimer(entries);
      } else {
        var last := heap[|heap| - 1];
        assert last.position == |heap|;
        HeapSwap(timer, last, entries, null);
        DropLastTimer(Swap(entries, p, |entries|));
        ghost var q := heap;
        Sink(last, Swap(entries, p, |entries|)[..|entries| - 1]);
        if timer in heap { InHeap(timer, q); }
      }
    }

    method DropLastTimer(ghost entries: seq<Entry<Timer>>)
      requires Coherent() && HeapAgrees(entries) && heap != []
      modifies `heap
      ensures Coherent() && HeapAgrees(entries[..|entries| - 1])
      ensures heap == old(heap)[..|old(heap)| - 1] && old(heap)[|old(heap)| - 1] !in heap
      ensures multiset(old(heap)) == multiset(heap) + multiset{old(heap)[|old(heap)| - 1]}
      ensures forall t :: t in heap ==> t in old(heap)
    {
      ghost var q := heap;
      heap := heap[..|heap| - 1];
      assert q == heap + [q[|q| - 1]];
      assert forall i {:trigger heap[i]} :: 0 <= i < |heap| ==> heap[i] == q[i] && heap[i].position == i + 1;
      assert q[|q| - 1].position == |q|;
    }

    /** The timer changes places with a child. */
    method SinkOnce(timer: Timer, child: Timer, ghost entries: seq<Entry<Timer>>, ghost m: nat)
      requires Coherent() && HeapAgrees(entries)
      requires 1 <= timer.position < m <= |heap| && heap[timer.position - 1] == timer && child == heap[m - 1]
      modifies `heap, heap`position
      ensures Coherent() && HeapAgrees(Swap(entries, old(timer.position), m))
      ensures timer.position == m <= |heap| == |old(heap)| && heap[m - 1] == timer
      ensures multiset(heap) == multiset(old(heap))
    {
      hide Permuted, Swap;
      assert child.position == m;
      HeapSwap(timer, child, entries, null);
    }

    /** Lets a timer sink to its place. */
    method Sink(last: Timer, ghost entries: seq<Entry<Timer>>)
      requires Coherent() && HeapAgrees(entries)
      requires 1 <= last.position <= |heap| && heap[last.position - 1] == last
      modifies `heap, heap`position
      ensures Coherent() && HeapAgrees(SiftDown(entries, old(last.position)))
      ensures multiset(heap) == multiset(old(heap))
    {
      hide Permuted, SiftDown, MinIndex, Swap, Coherent;
      ghost var cur := entries;
      while true
        invariant Coherent() && HeapAgrees(cur) && multiset(heap) == multiset(old(heap))
        invariant 1 <= last.position <= |heap| && heap[last.position - 1] == last
        invariant SiftDown(cur, last.position) == SiftDown(entries, old(last.position))
        decreases |heap| - last.position
      {
        SinkStep(cur, last.position);
        var min := FindMin(last, cur);
        if min != last.position {
          ghost var p := last.position;
          var child := HeapItem(min);
          SameMembers(old(heap));
          SinkOnce(last, child, cur, min);
          cur := Swap(cur, p, min);
        } else {
          return;
        }
      }
    }

    /** The position of the earliest among a timer and its children. */
    method FindMin(last: Timer, ghost entries: seq<Entry<Timer>>) returns (min: nat)
      requires Coherent() && HeapAgrees(entries)
      requires 1 <= last.position <= |heap| && heap[last.position - 1] == last
      ensures min == MinIndex(entries, last.position)
    {
      assert forall p {:trigger W(entries, p)} :: 1 <= p <= |heap| ==> W(entries, p) == heap[p - 1].when;
      var left, right := last.position * 2, last.position * 2 + 1;
      min := last.position;
      if left <= |heap| && heap[left - 1].when <= heap[min - 1].when {
        min := left;
      }
      if right <= |heap| && heap[right - 1].when <= heap[min - 1].when {
        min := right;
      }
    }

    // ---------------------------------------------------------------- calls

    /** A timer that a client can name: it was allocated here and not deleted. */
    ghost predicate Known(t: Timer)
      reads `timers, t`references
    {
      t in timers && t.references > 0
    }

    /** Records what the memory stands for now. */
    ghost method Become(r: HeapSpec.State<Timer>)
      requires Coherent()
      requires HeapAgrees(r.heap)
      requires BooksAgree(r.life.info)
      requires ProcessingAgrees(r.exec)
      requires common.single == r.life.single && common.periodic == r.life.periodic
      requires HeapSpec.Inv(r) && Counted(r.life)
      modifies `state
      ensures state == r && Valid()
    {
      hide HeapSpec.Inv, Counted, Coherent, HeapAgrees, BooksAgree;
      state := r;
    }

    /** The vector and its entries have the same timers at the same places. */
    lemma SameTimers(entries: seq<Entry<Timer>>, t: Timer)
      requires Coherent() && HeapAgrees(entries)
      ensures t in heap <==> t in Timers(entries)
      ensures var p := HeapSpec.PositionOf(entries, t);
              p > 0 ==> p <= |heap| && heap[p - 1] == t && t.position == p
      ensures t in heap ==> t in timers
    {
      hide HeapSpec.PositionOf;
      var p := HeapSpec.PositionOf(entries, t);
      assert p > 0 ==> entries[p - 1] == EntryOf(heap[p - 1]) && heap[p - 1].position == p;
      if t in heap {
        var i :| 0 <= i < |heap| && heap[i] == t;
        assert heap[i].position == i + 1;
        assert entries[i] == EntryOf(heap[i]) && Timers(entries)[i] == t;
      }
    }

    /** What the memory stands for. */
    lemma Parts()
      requires Valid()
      ensures Coherent() && HeapAgrees(state.heap) && BooksAgree(state.life.info) && ProcessingAgrees(state.exec)
      ensures common.single == state.life.single && common.periodic == state.life.periodic
      ensures HeapSpec.Inv(state) && Counted(state.life)
    {
    }

    /** Where a timer can be, by its status. */
    lemma Placement(timer: Timer)
      requires Valid() && Known(timer)
      ensures timer in state.life.info && state.life.info[timer] == BookOf(timer)
      ensures StatusOf(timer) == Active ==>
        && 1 <= timer.position <= |heap| && heap[timer.position - 1] == timer
        && timer.position == HeapSpec.PositionOf(state.heap, timer)
      ensures StatusOf(timer) != Active ==> timer !in heap
      ensures timer == processing <==> InExec(BookOf(timer))
      ensures processing != null ==> processing !in heap
      ensures forall t :: t in heap ==> t in timers
    {
      hide HeapSpec.PositionOf, Sound, Counted, Coherent, HeapAgrees, Timers, HeapSpec.Linked;
      HeapSpec.PositionIffActive(state, timer);
      SameTimers(state.heap, timer);
      if processing != null {
        HeapSpec.PositionIffActive(state, processing);
        SameTimers(state.heap, processing);
      }
      forall t | t in heap
        ensures t in timers
      {
        SameTimers(state.heap, t);
      }
    }

    /** Sets the fields of a timer and puts it in the heap; the books of the others stay. */
    method Insert(timer: Timer, when: int, period: int, references: nat, ghost entries: seq<Entry<Timer>>)
      requires Coherent() && HeapAgrees(entries)
      requires timer in timers && timer !in heap
      modifies `heap, heap`position, timer`position, timer`when, timer`period, timer`references
      ensures Coherent() && HeapAgrees(Add(entries, Entry(timer, when, period)))
      ensures timer.when == when && timer.period == period && timer.references == references && timer.position > 0
      ensures forall t {:trigger BookOf(t)} :: t in timers && t != timer ==>
        BookOf(t) == old(BookOf(t)) && t.references == old(t.references)
    {
      hide Add, CoherentBut, HeapAgrees;
      AllPlaced(heap);
      Apart(timer);
      timer.when, timer.period, timer.references := when, period, references;
      HeapAdd(timer, entries, null);
      AllPlaced(old(heap) + [timer]);
      assert forall t :: t in old(heap) ==> t in old(heap) + [timer];
    }

    /** Takes a timer out of the heap; the books of the others stay. */
    method Extract(timer: Timer, ghost entries: seq<Entry<Timer>>)
      requires Coherent() && HeapAgrees(entries)
      requires 1 <= timer.position <= |heap| && heap[timer.position - 1] == timer
      modifies `heap, heap`position
      ensures Coherent() && HeapAgrees(Remove(entries, old(timer.position)))
      ensures timer !in heap && timer.position > 0
      ensures forall t {:trigger BookOf(t)} :: t in timers ==> BookOf(t) == old(BookOf(t))
    {
      hide Remove, Coherent, HeapAgrees;
      AllPlaced(heap);
      HeapRemove(timer, entries);
      AllPlaced(heap);
      forall t | t in old(heap)
        ensures t.position > 0
      {
        assert t in multiset(old(heap));
        assert t in multiset(heap) || t == timer;
      }
    }

    method Enlist(timer: Timer, when: int, period: int, references: nat,
                  ghost entries: seq<Entry<Timer>>, ghost info: map<Timer, Info>)
      requires Coherent() && HeapAgrees(entries) && BooksAgree(info)
      requires timer in timers && timer !in heap && timer.references > 0 && references > 0
      modifies `heap, heap`position, timer`position, timer`when, timer`period, timer`references
      ensures Coherent() && HeapAgrees(Add(entries, Entry(timer, when, period)))
      ensures timer.position > 0 && timer.references == references
      ensures BooksAgree(info[timer := Info(Linked(timer), period, references, timer.holders)])
    {
      hide Add, Coherent, HeapAgrees;
      Insert(timer, when, period, references, entries);
      assert BookOf(timer) == Info(Linked(timer), period, references, timer.holders);
      hide StatusOf;
    }

    /** What a position in the heap says of a timer. */
    ghost function Linked(t: Timer): Status
      reads `processing
    {
      if t == processing then WaitForExecution else Active
    }

    /** Every timer of the heap has a position. */
    lemma AllPlaced(q: seq<Timer>)
      requires Coherent() && multiset(heap) == multiset(q)
      ensures forall t :: t in q ==> t.position > 0
    {
      forall t | t in q
        ensures t.position > 0
      {
        assert t in multiset(heap);
        var i :| 0 <= i < |heap| && heap[i] == t;
      }
    }

    /** The timer in processing, which its own action had deactivated, has been activated: it is
        in the heap. */
    ghost predicate Reactivated(before: HeapSpec.State<Timer>, when: int, period: int)
      reads this, heap, common, timers, if processing == null then {} else {processing}
    {
      && processing != null && processing in timers && processing.position > 0 && processing.references > 0
      && processing in before.life.info
      && Coherent() && HeapAgrees(Add(before.heap, Entry(processing, when, period)))
      && (var i := before.life.info[processing];
          BooksAgree(before.life.info[processing := Info(WaitForExecution, period, i.refs + 1, i.holders)]))
      && before.life.single >= 0 && common.single == before.life.single + (if period == 0 then 1 else 0)
      && before.life.periodic >= 0 && common.periodic == before.life.periodic + (if period == 0 then 0 else 1)
    }

    /** The part of `activate` behind its check. */
    method Start(timer: Timer, when: int, period: int)
      requires Valid() && Known(timer) && timer.position == 0
      modifies this, common, timers
      ensures timers == old(timers) && processing == old(processing) && heap != []
      ensures timer != processing ==>
        && Valid() && state == HeapSpec.AfterActivate(old(state), timer, when, period) && state.heap != []
      ensures timer == processing ==> state == old(state) && Reactivated(state, when, period)
    {
      hide Valid, Timers, Permuted, HeapSpec.PositionOf;
      hide HeapSpec.Inv, Sound, Counted, HeapSpec.AfterActivate, Lifecycle.AfterActivate;
      hide Add, Coherent, HeapAgrees, BooksAgree;
      Parts();
      Placement(timer);
      if timer != processing {
        HeapSpec.ActivateEquation(state, timer, when, period);
      }
      Enlist(timer, when, period, timer.references + 1, state.heap, state.life.info);
      common.IncTimerCount(period);
      NotEmpty(Add(state.heap, Entry(timer, when, period)));
      if timer != processing {
        Become(HeapSpec.AfterActivate(state, timer, when, period));
      }
    }

    lemma NotEmpty(entries: seq<Entry<Timer>>)
      requires HeapAgrees(entries) && entries != []
      ensures heap != []
    {
    }

    /** The source checks the position only, so that it takes the timer in processing for a
        deactivated one when its own action has deactivated it, and links it: see SelfActivation. */
    method Activate(timer: Timer, clock: int, pause: int, period: int) returns (r: Outcome)
      requires Valid() && Known(timer)
      modifies this, common, timers
      ensures timers == old(timers) && processing == old(processing)
      ensures old(StatusOf(timer)) != WaitForDeactivation ==>
        && Valid() && r == HeapSpec.ActivateOutcome(old(state), timer, clock + pause, period)
        && state == HeapSpec.AfterActivate(old(state), timer, clock + pause, period)
      ensures old(StatusOf(timer)) == WaitForDeactivation ==>
        && state == old(state) && Reactivated(state, clock + pause, period)
        && heap != [] && r == Done(timer == heap[0])
    {
      hide HeapSpec.Inv, Sound, Counted, Coherent, BooksAgree, HeapAgrees, ProcessingAgrees, Lifecycle.AfterActivate;
      hide HeapSpec.AfterActivate, HeapSpec.IsHead, Add, Reactivated;
      Placement(timer);
      Refused(timer, clock + pause, period);
      if timer.position != 0 {
        return Failed(NotDeactivated);
      }
      Start(timer, clock + pause, period);
      if timer != processing { HeadIs(timer); }
      r := Done(timer == heap[0]);
    }

    lemma Refused(timer: Timer, when: int, period: int)
      requires Valid() && Known(timer) && timer in state.life.info && state.life.info[timer] == BookOf(timer)
      ensures StatusOf(timer) != Deactivated ==> HeapSpec.AfterActivate(state, timer, when, period) == state
    {
      hide HeapSpec.Inv, Sound, Counted, Coherent, BooksAgree, HeapAgrees, ProcessingAgrees;
    }

    lemma HeadIs(timer: Timer)
      requires Valid() && heap != []
      ensures HeapSpec.IsHead(state, timer) <==> timer == heap[0]
    {
      hide HeapSpec.Inv, Sound, Counted, Coherent, BooksAgree, ProcessingAgrees;
    }

    /** Takes a timer out of the heap and deactivates it. */
    method Delist(timer: Timer, ghost entries: seq<Entry<Timer>>, ghost info: map<Timer, Info>)
      requires Coherent() && HeapAgrees(entries) && BooksAgree(info)
      requires 1 <= timer.position <= |heap| && heap[timer.position - 1] == timer && timer != processing
      requires timer in timers && timer.references > 0
      modifies `heap, heap`position, timer`position, timer`references
      ensures Coherent() && HeapAgrees(Remove(entries, old(timer.position)))
      ensures BooksAgree(Put(info, timer, Info(Deactivated, timer.period, old(timer.references) - 1, timer.holders)))
      ensures timer.references == old(timer.references) - 1
    {
      hide Remove, HeapAgrees;
      Extract(timer, entries);
      timer.position := 0;
      timer.references := timer.references - 1;
    }

    /** Takes out a timer that is in the heap. */
    method Stop(timer: Timer)
      requires Valid() && Known(timer) && StatusOf(timer) == Active
      modifies this, common, timers
      ensures Valid() && timers == old(timers) && processing == old(processing)
      ensures state == HeapSpec.AfterDeactivate(old(state), timer)
    {
      hide Timers, Permuted, HeapSpec.PositionOf;
      hide HeapSpec.Inv, Sound, Counted, HeapSpec.AfterDeactivate, Lifecycle.AfterDeactivate;
      hide Remove, Coherent, HeapAgrees, BooksAgree, Put;
      Placement(timer);
      HeapSpec.DeactivateEquation(state, timer);
      Delist(timer, state.heap, state.life.info);
      common.DecTimerCount(timer.period);
      Become(HeapSpec.AfterDeactivate(state, timer));
    }

    /** Deactivates the timer in processing. */
    method Unplace(timer: Timer, ghost info: map<Timer, Info>)
      requires Coherent() && timer !in heap
      requires BooksAgree(info) && timer == processing && timer in timers && timer.references > 0
      modifies timer`position
      ensures Coherent()
      ensures BooksAgree(Put(info, timer, Info(WaitForDeactivation, timer.period, timer.references, timer.holders)))
    {
      timer.position := 0;
    }

    method Deactivate(timer: Timer)
      requires Valid() && Known(timer)
      modifies this, common, timers
      ensures Valid() && timers == old(timers) && processing == old(processing)
      ensures state == HeapSpec.AfterDeactivate(old(state), timer)
    {
      hide Timers, Permuted, HeapSpec.PositionOf;
      hide HeapSpec.Inv, Sound, Counted, HeapSpec.AfterDeactivate, Lifecycle.AfterDeactivate;
      hide Remove, Coherent, BooksAgree, Put;
      Placement(timer);
      HeapSpec.DeactivateEquation(state, timer);
      if timer.position != 0 {
        if timer != processing {
          Stop(timer);
        } else {
          Unplace(timer, state.life.info);
          Become(HeapSpec.AfterDeactivate(state, timer));
        }
      }
    }

    /** Takes a timer out of the heap, which the books do not show yet. */
    method Withdraw(timer: Timer, ghost entries: seq<Entry<Timer>>, ghost info: map<Timer, Info>)
      requires Coherent() && HeapAgrees(entries) && BooksAgree(info)
      requires 1 <= timer.position <= |heap| && heap[timer.position - 1] == timer
      modifies `heap, heap`position
      ensures Coherent() && HeapAgrees(Remove(entries, old(timer.position))) && BooksAgree(info)
      ensures timer !in heap && timer.position > 0
      ensures forall i {:trigger heap[i]} :: 0 <= i < |heap| ==> heap[i] in timers
    {
      hide Remove, Coherent, HeapAgrees, StatusOf;
      Extract(timer, entries);
      HeapKnown();
    }

    lemma HeapKnown()
      requires Coherent()
      ensures forall i {:trigger heap[i]} :: 0 <= i < |heap| ==> heap[i] in timers
    {
      assert forall i {:trigger heap[i]} :: 0 <= i < |heap| ==> heap[i].position == i + 1;
    }

    /** Exchanges the entry of a timer in the heap for another one. */
    method Relist(timer: Timer, when: int, period: int, ghost entries: seq<Entry<Timer>>, ghost info: map<Timer, Info>)
      requires Coherent() && HeapAgrees(entries) && BooksAgree(info)
      requires 1 <= timer.position <= |heap| && heap[timer.position - 1] == timer && timer != processing
      requires timer in timers && timer.references > 0 && timer.position <= |entries|
      modifies `heap, timers`position, timer`when, timer`period, timer`references
      ensures Coherent() && HeapAgrees(Add(Remove(entries, old(timer.position)), Entry(timer, when, period)))
      ensures BooksAgree(info[timer := Info(Active, period, old(timer.references), old(timer.holders))])
    {
      hide Add, Remove, Coherent, HeapAgrees, BooksAgree;
      HeapKnown();
      Withdraw(timer, entries, info);
      Enlist(timer, when, period, timer.references, Remove(entries, old(timer.position)), info);
    }

    /** The part of `reschedule` behind its checks. */
    method Renew(timer: Timer, when: int, period: int, ghost entries: seq<Entry<Timer>>, ghost info: map<Timer, Info>)
      requires Coherent() && HeapAgrees(entries) && BooksAgree(info)
      requires 1 <= timer.position <= |heap| && heap[timer.position - 1] == timer && timer != processing
      requires timer in timers && timer.references > 0 && timer.position <= |entries|
      requires if timer.period == 0 then common.single > 0 else common.periodic > 0
      modifies `heap, common, timers`position, timer`when, timer`period, timer`references
      ensures heap != [] && Coherent()
      ensures HeapAgrees(Add(Remove(entries, old(timer.position)), Entry(timer, when, period)))
      ensures BooksAgree(info[timer := Info(Active, period, old(timer.references), old(timer.holders))])
      ensures common.single
           == old(common.single) - (if old(timer.period) == 0 then 1 else 0) + (if period == 0 then 1 else 0)
      ensures common.periodic
           == old(common.periodic) - (if old(timer.period) == 0 then 0 else 1) + (if period == 0 then 0 else 1)
    {
      hide Add, Remove, Coherent, HeapAgrees, BooksAgree;
      common.DecTimerCount(timer.period);
      Relist(timer, when, period, entries, info);
      common.IncTimerCount(period);
      NotEmpty(Add(Remove(entries, old(timer.position)), Entry(timer, when, period)));
    }

    method Restart(timer: Timer, when: int, period: int)
      requires Valid() && Known(timer) && StatusOf(timer) == Active
      modifies this, common, timers
      ensures Valid() && timers == old(timers) && processing == old(processing)
      ensures state == HeapSpec.AfterReschedule(old(state), timer, when, period) && heap != []
    {
      hide Valid, Timers, Permuted, HeapSpec.PositionOf;
      hide HeapSpec.Inv, Sound, Counted, HeapSpec.AfterReschedule, Lifecycle.AfterReschedule;
      hide Add, Remove, Coherent, HeapAgrees, BooksAgree;
      Parts();
      Placement(timer);
      HeapSpec.RescheduleEquation(state, timer, when, period);
      Renew(timer, when, period, state.heap, state.life.info);
      Become(HeapSpec.AfterReschedule(state, timer, when, period));
    }

    method Reschedule(timer: Timer, clock: int, pause: int, period: int) returns (r: Outcome)
      requires Valid() && Known(timer)
      modifies this, common, timers
      ensures timers == old(timers) && processing == old(processing)
      ensures old(StatusOf(timer)) != WaitForDeactivation ==>
        && Valid() && r == HeapSpec.RescheduleOutcome(old(state), timer, clock + pause, period)
        && state == HeapSpec.AfterReschedule(old(state), timer, clock + pause, period)
      ensures old(StatusOf(timer)) == WaitForDeactivation ==>
        && state == old(state) && Reactivated(state, clock + pause, period)
        && heap != [] && r == Done(timer == heap[0])
    {
      hide HeapSpec.Inv, Sound, Counted, Coherent, BooksAgree, HeapAgrees, ProcessingAgrees, Reactivated;
      hide HeapSpec.AfterActivate, HeapSpec.IsHead, Timers, Permuted, HeapSpec.PositionOf;
      hide HeapSpec.AfterReschedule, HeapSpec.RescheduleOutcome, HeapSpec.ActivateOutcome;
      Placement(timer);
      HeapSpec.RescheduleCases(state, timer, clock + pause, period);
      if timer.position == 0 {
        r := Activate(timer, clock, pause, period);
      } else if timer == processing {
        r := Failed(InProcessing);
      } else {
        Restart(timer, clock + pause, period);
        HeadIs(timer);
        r := Done(timer == heap[0]);
      }
    }

    /** Enters a new timer in the books. */
    ghost method Register(timer: Timer, info: map<Timer, Info>)
      requires timer !in timers && timer.references > 0
      requires Coherent() && BooksAgree(info)
      modifies `timers
      ensures timers == old(timers) + {timer}
      ensures Coherent() && BooksAgree(info[timer := BookOf(timer)])
    {
      timers := timers + {timer};
      var none: Timer? := null;
      forall i {:trigger heap[i].position} | 0 <= i < |heap|
        ensures heap[i] in timers && (heap[i] == none || heap[i].position == i + 1)
      {
        assert old(heap[i] in timers && heap[i].position == i + 1);
      }
      assert CoherentBut(none);
    }

    lemma Unknown(timer: Timer)
      requires Valid() && timer !in timers
      ensures timer !in state.life.info && timer != processing
    {
      assert processing != null ==> state.exec == [EntryOf(processing)] && processing in state.life.info;
    }

    /** `allocate`: the smart pointer that is returned is the first one to refer to the timer.
        The constructor of a scoped timer does the same for a timer that it contains, which
        keeps it from being deleted: then `h` stands for the scoped object. */
    method Allocate(r: Registry) returns (h: Holder)
      requires Valid() && r.Accounts(state.life.info)
      modifies this, r
      ensures Valid() && processing == old(processing)
      ensures fresh(h) && h.timer != null && fresh(h.timer) && timers == old(timers) + {h.timer}
      ensures h.timer !in old(state).life.info && state == HeapSpec.AfterAllocate(old(state), h.timer)
      ensures r.live == old(r.live) + {h} && r.Accounts(state.life.info)
    {
      hide HeapSpec.Inv, Sound, Counted, HeapSpec.AfterAllocate, Coherent, BooksAgree, HeapAgrees, r.Accounts;
      h := NewTimer(r, state.life.info);
      Unknown(h.timer);
      Register(h.timer, state.life.info);
      HeapSpec.AllocateEquation(state, h.timer);
      Become(HeapSpec.AfterAllocate(state, h.timer));
    }

    /** `take_object` and `dismiss_object`, and what they do to the books. */
    method Take(h: Holder, t: Timer, ghost r: Registry, ghost info: map<Timer, Info>)
      requires BooksAgree(info) && t in timers && t.references > 0
      requires r.Accounts(info) && h in r.live && h.timer == null
      modifies h, t`references, t`holders
      ensures h.timer == t
      ensures BooksAgree(Recounted(info, t, 1)) && r.Accounts(Recounted(info, t, 1))
    {
      hide StatusOf, r.Accounts;
      h.TakeObject(t, r, info);
    }

    method Dismiss(h: Holder, ghost r: Registry, ghost info: map<Timer, Info>)
      requires BooksAgree(info) && r.Accounts(info) && h in r.live && h.timer != null
      requires forall t :: t in info ==> info[t].holders <= info[t].refs
      modifies h, h.timer`references, h.timer`holders
      ensures h.timer == null && old(h.timer) in info && info[old(h.timer)].holders > 0 && info[old(h.timer)].refs > 0
      ensures var t: Timer := old(h.timer);
              BooksAgree(Recounted(info, t, -1)) && r.Accounts(Recounted(info, t, -1))
    {
      hide StatusOf;
      r.NoDanglingPointer(info, h);
      h.DismissObject(r, info);
    }

    /** A smart pointer starts to refer to the timer. */
    method TakeObject(h: Holder, timer: Timer, ghost r: Registry)
      requires Valid() && Known(timer) && r.Accounts(state.life.info) && h in r.live && h.timer == null
      modifies `state, h, timer`references, timer`holders
      ensures Valid() && h.timer == timer
      ensures state == HeapSpec.After(old(state), Hold(timer)) && r.Accounts(state.life.info)
    {
      hide HeapSpec.Inv, Sound, Counted, HeapSpec.After, BooksAgree, HeapAgrees, Coherent, Put, r.Accounts;
      Placement(timer);
      HeapSpec.CallKeepsCount(state, Hold(timer));
      HeapSpec.HoldEquation(state, timer);
      Take(h, timer, r, state.life.info);
      Become(HeapSpec.After(state, Hold(timer)));
    }

    /** A smart pointer stops to refer to its timer. */
    method DismissObject(h: Holder, ghost r: Registry)
      requires Valid() && r.Accounts(state.life.info) && h in r.live && h.timer != null
      modifies `state, h, h.timer`references, h.timer`holders
      ensures Valid() && h.timer == null
      ensures state == HeapSpec.After(old(state), Drop(old(h.timer))) && r.Accounts(state.life.info)
    {
      hide HeapSpec.Inv, Sound, Counted, HeapSpec.After, BooksAgree, HeapAgrees, Coherent, Put, r.Accounts;
      ghost var timer: Timer := h.timer;
      SoundBooks();
      Dismiss(h, r, state.life.info);
      HeapSpec.CallKeepsCount(state, Drop(timer));
      HeapSpec.HoldEquation(state, timer);
      Become(HeapSpec.After(state, Drop(timer)));
    }

    lemma SoundBooks()
      requires Valid()
      ensures forall t :: t in state.life.info ==> state.life.info[t].holders <= state.life.info[t].refs
    {
      forall t | t in state.life.info
        ensures state.life.info[t].holders <= state.life.info[t].refs
      {
        assert Balanced(state.life.info[t]);
      }
    }

    lemma HoldersOf(timer: Timer)
      requires Valid() && Known(timer)
      ensures timer in state.life.info && state.life.info[timer].holders == timer.holders
    {
      Placement(timer);
    }

    /** A new smart pointer refers to the timer. */
    method PointTo(timer: Timer, r: Registry)
      requires Valid() && Known(timer) && r.Accounts(state.life.info)
      modifies `state, r, timer`references, timer`holders
      ensures Valid() && state == HeapSpec.After(old(state), Hold(timer))
      ensures r.Accounts(state.life.info) && r.OnlyGrew()
    {
      hide Valid, HeapSpec.After, r.Accounts;
      var h := new Holder(r, state.life.info);
      TakeObject(h, timer, r);
    }

    /** Some smart pointer that refers to the timer lets go of it. */
    method PointAway(timer: Timer, r: Registry)
      requires Valid() && Known(timer) && timer.holders > 0 && r.Accounts(state.life.info)
      modifies `state, r.live, timer`references, timer`holders
      ensures Valid() && state == HeapSpec.After(old(state), Drop(timer))
      ensures r.Accounts(state.life.info) && r.OnlyGrew()
    {
      hide Valid, HeapSpec.After, r.Accounts;
      HoldersOf(timer);
      r.SomePointer(state.life.info, timer);
      var h :| h in r.live && h.timer == timer;
      DismissObject(h, r);
    }

    /** A smart pointer comes, or goes if there is one. */
    method PointerCall(c: Command<Timer>, r: Registry)
      requires Valid() && Known(c.timer) && (c.Hold? || c.Drop?) && r.Accounts(state.life.info)
      modifies `state, r, r.live, c.timer`references, c.timer`holders
      ensures Valid() && state == HeapSpec.After(old(state), c)
      ensures r.Accounts(state.life.info) && r.OnlyGrew()
    {
      hide Valid, HeapSpec.After, r.Accounts;
      if c.Hold? {
        PointTo(c.timer, r);
      } else if c.timer.holders > 0 {
        PointAway(c.timer, r);
      } else {
        NothingToDrop(c.timer);
      }
    }

    lemma NothingToDrop(timer: Timer)
      requires Valid() && Known(timer) && timer.holders == 0
      ensures HeapSpec.Inv(state) && HeapSpec.After(state, Drop(timer)) == state
    {
      hide HeapSpec.Inv, HeapSpec.After;
      InvHere();
      Placement(timer);
      HeapSpec.HoldEquation(state, timer);
    }

    lemma InvHere()
      requires Valid()
      ensures HeapSpec.Inv(state)
    {
    }

    /** A call made by a client, or a smart pointer that comes or goes; nobody can make a call
        for a timer that was deleted, and clients do not activate the timer in processing after
        it was deactivated. */
    method Call(c: Command<Timer>, r: Registry)
      requires Valid() && c.timer in timers && r.Accounts(state.life.info)
      modifies this, common, timers, r, r.live
      ensures Valid() && timers == old(timers) && processing == old(processing)
      ensures state == HeapSpec.After(old(state), c)
      ensures r.Accounts(state.life.info) && r.OnlyGrew()
    {
      hide Valid, HeapSpec.After, StatusOf, r.Accounts;
      Unnameable(c);
      if c.timer.references > 0 {
        if c.Hold? || c.Drop? {
          PointerCall(c, r);
        } else {
          var _ := EngineCall(c, r);
        }
      }
    }

    /** The calls that nobody can make. */
    lemma Unnameable(c: Command<Timer>)
      requires Valid() && c.timer in timers
      ensures HeapSpec.Inv(state)
      ensures c.timer.references == 0 || (c.Drop? && c.timer.holders == 0) ==> HeapSpec.After(state, c) == state
    {
      hide HeapSpec.After, HeapSpec.Inv;
      Excluded(c);
    }

    /** A call that is not about smart pointers. */
    method EngineCall(c: Command<Timer>, ghost r: Registry) returns (outcome: Outcome)
      requires Valid() && Known(c.timer) && !c.Hold? && !c.Drop? && r.Accounts(state.life.info)
      modifies this, common, timers
      ensures Valid() && timers == old(timers) && processing == old(processing)
      ensures state == HeapSpec.After(old(state), c)
      ensures old(HeapSpec.Inv(state) && c.timer in state.life.info) && outcome == old(HeapSpec.Answer(state, c))
      ensures Sound(old(state.life)) && state.life == Lifecycle.After(old(state.life), c)
      ensures r.Accounts(state.life.info) && OnlyDeletes(old(state.life.info), state.life.info)
    {
      hide HeapSpec.Inv, Sound, Counted, BooksAgree, HeapAgrees, Coherent, Timers, Permuted, HeapSpec.PositionOf;
      hide HeapSpec.AfterActivate, HeapSpec.AfterReschedule, HeapSpec.AfterDeactivate;
      Excluded(c);
      ghost var before := state;
      match c {
        case Activate(t, clock, pause, period) =>
          if t != processing || t.position != 0 {
            outcome := Activate(t, clock, pause, period);
          } else {
            outcome := Failed(NotDeactivated);
          }
        case Reschedule(t, clock, pause, period) =>
          if t != processing || t.position != 0 {
            outcome := Reschedule(t, clock, pause, period);
          } else {
            outcome := Failed(InProcessing);
          }
        case Deactivate(t) =>
          Deactivate(t);
          outcome := Done(false);
      }
      KeepsHolders(before, c, r);
    }

    lemma KeepsHolders(before: HeapSpec.State<Timer>, c: Command<Timer>, r: Registry)
      requires HeapSpec.Inv(before) && state == HeapSpec.After(before, c) && !c.Hold? && !c.Drop?
      requires r.Accounts(before.life.info)
      ensures Sound(before.life) && state.life == Lifecycle.After(before.life, c)
      ensures r.Accounts(state.life.info) && OnlyDeletes(before.life.info, state.life.info)
    {
      hide HeapSpec.After, Lifecycle.After, HeapSpec.Linked, HeapSpec.Processing;
      CallKeepsHolders(before.life, c);
      r.StillAccounts(before.life.info, state.life.info);
    }

    /** The calls that the specification leaves out. */
    lemma Excluded(c: Command<Timer>)
      requires Valid() && c.timer in timers
      ensures HeapSpec.Inv(state)
      ensures c.timer.references > 0 <==> c.timer in state.life.info
      ensures c.timer.references == 0 ==> HeapSpec.After(state, c) == state
      ensures c.timer.references > 0 ==> state.life.info[c.timer] == BookOf(c.timer)
      ensures c.timer.references > 0 && StatusOf(c.timer) == WaitForDeactivation && (c.Activate? || c.Reschedule?)
              ==> HeapSpec.After(state, c) == state
      ensures c.timer.references > 0 && c.timer.holders == 0 && c.Drop? ==> HeapSpec.After(state, c) == state
    {
      hide HeapSpec.Linked, Sound, Counted, HeapAgrees, Coherent, HeapSpec.Processing;
    }

    method Calls(cs: seq<Command<Timer>>, r: Registry)
      requires Valid() && (forall c :: c in cs ==> c.timer in timers) && r.Accounts(state.life.info)
      modifies this, common, timers, r, r.live
      ensures Valid() && timers == old(timers) && processing == old(processing)
      ensures HeapSpec.Inv(old(state)) && state == HeapSpec.AfterAll(old(state), cs)
      ensures r.Accounts(state.life.info) && r.OnlyGrew()
      decreases |cs|
    {
      hide HeapSpec.Inv, Sound, Counted, BooksAgree, HeapAgrees, Coherent, r.Accounts;
      if |cs| > 0 {
        Call(cs[0], r);
        Calls(cs[1..], r);
      }
    }

    // ---------------------------------------------------------------- one pass

    /** Marks a timer of the heap as the one in processing. */
    method Seize(t: Timer, ghost info: map<Timer, Info>)
      requires BooksAgree(info) && processing == null && t in timers && t.references > 0 && t.position > 0
      modifies `processing
      ensures processing == t
      ensures BooksAgree(info[t := Info(WaitForExecution, t.period, t.references, t.holders)])
    {
      processing := t;
    }

    /** The head of the heap goes into processing. */
    method Begin()
      requires Valid() && processing == null && heap != []
      modifies this, common, timers
      ensures Valid() && timers == old(timers) && processing == old(heap)[0] == old(state).heap[0].timer
      ensures processing.when == old(state).heap[0].when && processing.period == old(state).heap[0].period
      ensures state == HeapSpec.AfterBegin(old(state))
    {
      hide HeapSpec.Inv, Sound, Counted, Coherent, BooksAgree, HeapAgrees, HeapSpec.AfterBegin;
      hide Remove, Timers, Permuted, HeapSpec.PositionOf;
      Head();
      HeapSpec.BeginEquation(state);
      ghost var t := heap[0];
      ghost var info := state.life.info[t := Info(WaitForExecution, t.period, t.references, t.holders)];
      Seize(heap[0], state.life.info);
      Withdraw(processing, state.heap, info);
      Become(HeapSpec.AfterBegin(state));
    }

    lemma Head()
      requires Valid() && processing == null && heap != []
      ensures state.exec == [] && |heap| == |state.heap| && state.heap[0] == EntryOf(heap[0])
      ensures Known(heap[0]) && heap[0].position == 1
      ensures heap[0] in state.life.info && state.life.info[heap[0]] == BookOf(heap[0])
      ensures forall i {:trigger heap[i]} :: 0 <= i < |heap| ==> heap[i] in timers
    {
      hide HeapSpec.PositionOf, Sound, Counted;
      HeapKnown();
      assert state.heap[0] == EntryOf(heap[0]) && heap[0].position == 1;
      HeapSpec.EntryIsActive(state.life, state.heap, 1);
    }

    /** What is known of the timer in processing. */
    lemma InProcess()
      requires Valid() && processing != null
      ensures Known(processing) && state.exec == [EntryOf(processing)] && processing !in heap
      ensures processing in state.life.info && state.life.info[processing] == BookOf(processing)
      ensures forall i {:trigger heap[i]} :: 0 <= i < |heap| ==> heap[i] in timers
      ensures HeapSpec.Inv(state)
    {
      hide Sound, Counted, HeapSpec.Linked;
      HeapKnown();
      assert state.exec[0].timer in state.life.info;
      Placement(processing);
    }

    /** The timer in processing goes back into the heap with its next time. */
    method Repeat(ghost entries: seq<Entry<Timer>>, ghost info: map<Timer, Info>)
      requires processing != null && processing.position > 0 && processing !in heap
      requires processing in timers && processing.references > 0
      requires Coherent() && HeapAgrees(entries) && BooksAgree(info)
      requires forall i {:trigger heap[i]} :: 0 <= i < |heap| ==> heap[i] in timers
      modifies `heap, `processing, timers`position, timers`when, timers`period, timers`references
      ensures processing == null && Coherent()
      ensures var t: Timer := old(processing);
              && HeapAgrees(Add(entries, Entry(t, old(t.when) + t.period, t.period)))
              && t.period == old(t.period)
              && BooksAgree(info[t := Info(Active, t.period, old(t.references), t.holders)])
    {
      hide Add, Coherent, HeapAgrees;
      var t := processing;
      Insert(t, t.when + t.period, t.period, t.references, entries);
      label Inserted:
      processing := null;
      assert BookOf(t) == Info(Active, t.period, t.references, t.holders);
      forall u | u in info && u != t
        ensures info[u] == BookOf(u)
      {
        assert info[u] == old(BookOf(u)) == old@Inserted(BookOf(u));
      }
    }

    /** The timer in processing is deactivated and released. */
    method LetGo(ghost info: map<Timer, Info>)
      requires processing != null && processing !in heap
      requires processing in timers && processing.references > 0
      requires Coherent() && BooksAgree(info)
      modifies `processing, timers`position, timers`references
      ensures processing == null && Coherent()
      ensures var t: Timer := old(processing);
              BooksAgree(Put(info, t, Info(Deactivated, t.period, old(t.references) - 1, t.holders)))
    {
      processing.position := 0;
      processing.references := processing.references - 1;
      processing := null;
    }

    /** What follows the action of the timer in processing. */
    method Finish()
      requires Valid() && processing != null
      modifies this, common, timers
      ensures Valid() && timers == old(timers) && processing == null
      ensures state == HeapSpec.AfterFinish(old(state))
    {
      hide HeapSpec.Inv, Sound, Counted, Coherent, BooksAgree, HeapAgrees, HeapSpec.AfterFinish;
      hide Add, Timers, Permuted, Put;
      InProcess();
      HeapSpec.FinishEquation(state);
      if processing.position == 0 || processing.period == 0 {
        common.DecTimerCount(processing.period);
        LetGo(state.life.info);
      } else {
        Repeat(state.heap, state.life.info);
      }
      Become(HeapSpec.AfterFinish(state));
    }

    /** The time of a timer changes wherever the heap has it. */
    method Retime(t: Timer, ghost entries: seq<Entry<Timer>>, when: int)
      requires Coherent() && HeapAgrees(entries)
      modifies t`when
      ensures t.when == when && CoherentBut(t) && HeapAgrees(HeapSpec.Retimed(entries, t, when))
    {
      t.when := when;
    }

    /** An added timer has the time of its entry. */
    lemma HoldsEntry(entries: seq<Entry<Timer>>, e: Entry<Timer>)
      requires HeapAgrees(Add(entries, e))
      ensures EntryOf(e.timer) == e
    {
      hide Add;
      var r := Add(entries, e);
      assert e in multiset(r);
      var i :| 0 <= i < |r| && r[i] == e;
      assert r[i] == EntryOf(heap[i]);
    }

    /** The timer in processing, which is in the heap, is put there again with its next time. */
    method LinkAgain(timer: Timer, ghost entries: seq<Entry<Timer>>)
      requires Coherent() && HeapAgrees(entries) && timer in timers
      modifies `heap, timers`position, timer`when
      ensures HeapAgrees(Add(HeapSpec.Retimed(entries, timer, timer.when), EntryOf(timer)))
      ensures timer.when == old(timer.when) + timer.period
    {
      hide Add, HeapSpec.Retimed, HeapAgrees;
      HeapKnown();
      Retime(timer, entries, timer.when + timer.period);
      HeapAdd(timer, HeapSpec.Retimed(entries, timer, timer.when), timer);
    }

    lemma SelfActivatedIs(entries: seq<Entry<Timer>>, t: Timer, when: int, period: int)
      ensures HeapSpec.SelfActivated(entries, t, when, period) ==
              if period == 0 then Add(entries, Entry(t, when, period))
              else Add(HeapSpec.Retimed(Add(entries, Entry(t, when, period)), t, when + period),
                       Entry(t, when + period, period))
    {
      hide Add, HeapSpec.Retimed;
    }

    /** The end of the turn, after the timer in processing was activated: it is found active. */
    method FinishReactivated(ghost before: HeapSpec.State<Timer>, ghost when: int, ghost period: int)
      requires processing != null && Reactivated(before, when, period)
      modifies `heap, `processing, common, timers`position, timers`when, timers`references
      ensures processing == null
      ensures var t: Timer := old(processing);
              && HeapAgrees(HeapSpec.SelfActivated(before.heap, t, when, period))
              && (period == 0 ==> t.position == 0 && t.references == old(t.references) - 1)
    {
      hide Add, HeapSpec.Retimed, HeapSpec.SelfActivated, BooksAgree, Coherent, HeapAgrees, Timers, Permuted;
      var t := processing;
      SelfActivatedIs(before.heap, t, when, period);
      HoldsEntry(before.heap, Entry(t, when, period));
      if t.position == 0 || t.period == 0 {
        common.DecTimerCount(t.period);
        t.position := 0;
        t.references := t.references - 1;
      } else {
        LinkAgain(t, Add(before.heap, Entry(t, when, period)));
      }
      processing := null;
    }

    /** An action deactivates its own timer and then activates it. */
    method Reactivate(clock: int, pause: int, period: int)
      requires Valid() && processing != null
      modifies this, common, timers
      ensures timers == old(timers) && processing == old(processing)
      ensures state.heap == old(state).heap && Reactivated(state, clock + pause, period)
    {
      hide Valid, HeapSpec.Inv, HeapSpec.AfterDeactivate, Add, Timers, Coherent, BooksAgree, HeapAgrees;
      Parts();
      InProcess();
      HeapSpec.DeactivateEquation(state, processing);
      Deactivate(processing);
      Parts();
      InProcess();
      var _ := Activate(processing, clock, pause, period);
    }

    /** The heap then holds the timer twice, or holds it although it was released, and what is in
        memory stands for no state at all. */
    method SelfActivation(clock: int, pause: int, period: int)
      requires Valid() && processing != null
      modifies this, common, timers
      ensures processing == null
      ensures HeapAgrees(HeapSpec.SelfActivated(old(state).heap, old(processing), clock + pause, period))
      ensures forall s: HeapSpec.State<Timer> :: HeapAgrees(s.heap) && BooksAgree(s.life.info) ==> !HeapSpec.Inv(s)
    {
      hide Valid, HeapSpec.Inv, HeapSpec.SelfActivated, Reactivated, Coherent, BooksAgree, HeapAgrees;
      var t := processing;
      Reactivate(clock, pause, period);
      FinishReactivated(state, clock + pause, period);
      NoState(old(state).heap, t, clock + pause, period);
    }

    lemma NoState(entries: seq<Entry<Timer>>, t: Timer, when: int, period: int)
      requires processing == null && HeapAgrees(HeapSpec.SelfActivated(entries, t, when, period))
      requires period == 0 ==> t.position == 0
      ensures forall s: HeapSpec.State<Timer> :: HeapAgrees(s.heap) && BooksAgree(s.life.info) ==> !HeapSpec.Inv(s)
    {
      hide HeapSpec.SelfActivated, HeapSpec.Processing, Sound, HeapSpec.Members, HeapSpec.PeriodsAgree;
      forall s: HeapSpec.State<Timer> | HeapAgrees(s.heap) && BooksAgree(s.life.info)
        ensures !HeapSpec.Inv(s)
      {
        assert s.heap == HeapSpec.SelfActivated(entries, t, when, period);
        HeapSpec.SelfActivationBreaksTheHeap(entries, s.life, t, when, period);
      }
    }

    /** One turn of the loop below deletes no timer that a smart pointer refers to. */
    lemma BeginKeepsHolders(r: Registry)
      requires Valid() && processing == null && heap != [] && r.Accounts(state.life.info)
      requires state.exec == [] && state.heap != [] && HeapSpec.Inv(state)
      ensures r.Accounts(HeapSpec.AfterBegin(state).life.info)
    {
      hide HeapSpec.AfterBegin, HeapSpec.Inv, Coherent, BooksAgree, HeapAgrees;
      HeapSpec.BeginEquation(state);
      r.StillAccounts(state.life.info, HeapSpec.AfterBegin(state).life.info);
    }

    lemma EndKeepsHolders(r: Registry)
      requires Valid() && processing != null && r.Accounts(state.life.info)
      requires state.exec != [] && HeapSpec.Inv(state)
      ensures r.Accounts(HeapSpec.AfterFinish(state).life.info)
    {
      hide HeapSpec.AfterFinish, Lifecycle.AfterFinishOne, HeapSpec.Linked, Coherent, BooksAgree, HeapAgrees;
      FinishOneKeepsHolders(state.life);
      r.StillAccounts(state.life.info, HeapSpec.AfterFinish(state).life.info);
    }

    /** One turn of the loop below. */
    method Turn(cs: seq<Command<Timer>>, r: Registry) returns (run: Entry<Timer>)
      requires Valid() && processing == null && heap != [] && r.Accounts(state.life.info)
      requires state.exec == [] && state.heap != [] && HeapSpec.Inv(state)
      requires forall c :: c in cs ==> c.timer in timers
      modifies this, common, timers, r, r.live
      ensures Valid() && timers == old(timers) && processing == null
      ensures run == old(state).heap[0] && state == HeapSpec.AfterTurn(old(state), cs)
      ensures r.Accounts(state.life.info) && r.OnlyGrew()
    {
      hide Valid, HeapSpec.Inv, HeapSpec.AfterBegin, HeapSpec.AfterFinish, HeapSpec.AfterAll, r.Accounts;
      Head();
      run := EntryOf(heap[0]);
      BeginKeepsHolders(r);
      Begin();
      Calls(cs, r);
      InProcess();
      EndKeepsHolders(r);
      Finish();
    }

    /** Runs the elapsed timers one at a time: `script[i]` says which calls clients make while
        action number `i` is run with the lock released, `fired` which actions are run.  All
        that is asked for is that the loop ends. */
    method ProcessExpiredTimers(now: int, script: seq<seq<Command<Timer>>>, r: Registry)
      returns (fired: seq<Entry<Timer>>)
      requires Valid() && processing == null
      requires HeapSpec.Inv(state) && state.exec == [] && HeapPass.Ends(state, now, script, 0)
      requires forall i, c :: 0 <= i < |script| && c in script[i] ==> c.timer in timers
      requires r.Accounts(state.life.info)
      modifies this, common, timers, r, r.live
      ensures Valid() && timers == old(timers) && processing == null
      ensures state == HeapPass.AfterPass(old(state), now, script, 0)
      ensures fired == HeapPass.FiredInPass(old(state), now, script, 0)
      ensures r.Accounts(state.life.info) && r.OnlyGrew()
    {
      hide Valid, HeapSpec.Inv, HeapPass.AfterTurns, HeapPass.FiredInTurns, HeapSpec.AfterTurn, HeapPass.Ends;
      hide r.Accounts;
      ghost var left := HeapPass.TurnsOf(state, now, script, 0);
      fired := [];
      var i := 0;
      SameHead();
      while heap != [] && now > heap[0].when
        invariant Valid() && timers == old(timers) && processing == null
        invariant HeapSpec.Inv(state) && state.exec == []
        invariant HeapPass.HasElapsed(state, now) <==> heap != [] && now > heap[0].when
        invariant HeapPass.AfterTurns(state, now, script, i, left) == HeapPass.AfterPass(old(state), now, script, 0)
        invariant fired + HeapPass.FiredInTurns(state, now, script, i, left)
               == HeapPass.FiredInPass(old(state), now, script, 0)
        invariant r.Accounts(state.life.info) && r.OnlyGrew()
        decreases left
      {
        HeapPass.TurnsStep(state, now, script, i, left);
        var run := Turn(At(script, i), r);
        NoExec();
        assert fired + ([run] + HeapPass.FiredInTurns(state, now, script, i + 1, left - 1))
            == fired + [run] + HeapPass.FiredInTurns(state, now, script, i + 1, left - 1);
        fired := fired + [run];
        i, left := i + 1, left - 1;
        SameHead();
      }
      HeapPass.TurnsStep(state, now, script, i, left);
    }

    /** The same loop, left after `limit` turns if it has not ended by then: what can be seen
        of a pass that does not end. */
    method SomeTurns(now: int, script: seq<seq<Command<Timer>>>, limit: nat, r: Registry)
      requires Valid() && processing == null && HeapSpec.Inv(state) && state.exec == []
      requires forall i, c :: 0 <= i < |script| && c in script[i] ==> c.timer in timers
      requires r.Accounts(state.life.info)
      modifies this, common, timers, r, r.live
      ensures Valid() && timers == old(timers) && processing == null
      ensures state == HeapPass.AfterTurns(old(state), now, script, 0, limit)
      ensures r.Accounts(state.life.info) && r.OnlyGrew()
    {
      hide Valid, HeapSpec.Inv, HeapPass.AfterTurns, HeapPass.FiredInTurns, HeapSpec.AfterTurn, r.Accounts;
      var i := 0;
      SameHead();
      while i < limit && heap != [] && now > heap[0].when
        invariant i <= limit && Valid() && timers == old(timers) && processing == null
        invariant HeapSpec.Inv(state) && state.exec == []
        invariant HeapPass.HasElapsed(state, now) <==> heap != [] && now > heap[0].when
        invariant HeapPass.AfterTurns(state, now, script, i, limit - i)
               == HeapPass.AfterTurns(old(state), now, script, 0, limit)
        invariant r.Accounts(state.life.info) && r.OnlyGrew()
      {
        HeapPass.TurnsStep(state, now, script, i, limit - i);
        var _ := Turn(At(script, i), r);
        NoExec();
        i := i + 1;
        SameHead();
      }
      HeapPass.TurnsStep(state, now, script, i, limit - i);
    }

    lemma NoExec()
      requires Valid() && processing == null
      ensures HeapSpec.Inv(state) && state.exec == []
    {
    }

    lemma SameHead()
      requires Valid()
      ensures heap != [] <==> state.heap != []
      ensures heap != [] ==> state.heap[0].when == heap[0].when
    {
    }

    method ClearOne(timer: Timer, ghost cleared: seq<Timer>, ghost info: map<Timer, Info>)
      requires timer in timers && timer in info && info[timer].refs > 0 && timer !in cleared && timer != processing
      requires BooksAgree(Cleared(info, cleared))
      modifies timer`position, timer`references
      ensures BooksAgree(Cleared(info, cleared + [timer]))
    {
      hide Cleared;
      ClearedOneMore(info, cleared, timer);
      timer.position := 0;
      timer.references := timer.references - 1;
    }

    /** Clearing deletes no timer that a smart pointer refers to, and brings none back. */
    lemma ClearKeepsHolders(r: Registry)
      requires Valid() && processing == null && r.Accounts(state.life.info)
      ensures HeapSpec.Inv(state) && state.exec == []
      ensures r.Accounts(HeapSpec.AfterClear(state).life.info)
      ensures OnlyDeletes(state.life.info, HeapSpec.AfterClear(state).life.info)
    {
      hide HeapSpec.AfterClear;
      HeapSpec.ClearEquation(state);
      HeapSpec.ActiveOnesAreInHeap(state);
      Lifecycle.ClearKeepsHolders(state.life, Timers(state.heap));
      r.StillAccounts(state.life.info, Cleared(state.life.info, Timers(state.heap)));
    }

    /** Deactivates every timer; the engine can be used again afterwards. */
    method ClearAll()
      requires Valid() && processing == null
      modifies this, common, timers
      ensures Valid() && timers == old(timers) && processing == null
      ensures state == HeapSpec.AfterClear(old(state))
    {
      hide HeapSpec.Inv, Sound, Counted, Coherent, HeapAgrees, BooksAgree, Cleared, HeapSpec.AfterClear;
      BeforeClear();
      HeapSpec.ClearEquation(state);
      ClearedNone(state.life.info);
      assert heap[..0] == [];
      var k := 0;
      while k < |heap|
        invariant k <= |heap| && heap == old(heap) && timers == old(timers) && processing == null && state == old(state)
        invariant BooksAgree(Cleared(state.life.info, heap[..k]))
      {
        assert heap[k] !in heap[..k];
        ClearOne(heap[k], heap[..k], state.life.info);
        assert heap[..k + 1] == heap[..k] + [heap[k]];
        k := k + 1;
      }
      assert heap[..k] == heap;
      common.ResetTimerCount();
      heap := [];
      NothingLeft();
      Become(HeapSpec.AfterClear(state));
    }

    lemma BeforeClear()
      requires Valid() && processing == null
      ensures Timers(state.heap) == heap && Distinct(heap)
      ensures forall i {:trigger heap[i]} :: 0 <= i < |heap| ==>
        heap[i] in timers && heap[i] in state.life.info && state.life.info[heap[i]].refs > 0
      ensures state.exec == [] && HeapSpec.Inv(state)
    {
      hide Counted, Permuted;
      assert forall i {:trigger heap[i]} :: 0 <= i < |heap| ==> state.heap[i] == EntryOf(heap[i]);
      forall i {:trigger heap[i]} | 0 <= i < |heap|
        ensures heap[i] in state.life.info && state.life.info[heap[i]].refs > 0 && heap[i].position == i + 1
      {
        HeapSpec.EntryIsActive(state.life, state.heap, i + 1);
      }
    }

    lemma NothingLeft()
      requires heap == []
      ensures Coherent() && HeapAgrees([])
    {
    }
  }
}
