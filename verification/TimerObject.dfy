/**
  Timer objects as they sit in memory.  The three engines declare a timer_type of their own;
  `Timer` has the fields of all three, and each engine uses the fields of its own type.
 */
module TimerObject {
  import opened Lifecycle
  import opened Sequences

  class Timer {
    var references: nat
    var status: Status         // wheel and list
    var when: int              // list and heap
    var period: int            // a duration, or a number of ticks for the wheel
    var position: nat          // slot of the wheel, or 1-based index in the heap
    var fullRollsLeft: nat     // wheel
    var prev: Timer?           // wheel and list
    var next: Timer?           // wheel and list

    /** Not in the source: how many of the references belong to smart pointers and scoped
        objects, kept so that the rest can be told apart. */
    var holders: nat

    constructor ()
      ensures references == 0 && holders == 0
      ensures status == Deactivated && period == 0 && position == 0 && prev == null && next == null
    {
      references, holders := 0, 0;
      status, when, period := Deactivated, 0, 0;
      position, fullRollsLeft := 0, 0;
      prev, next := null, null;
    }

    /** Changes what the ledger says of this timer, and nothing else. */
    method Update(newStatus: Status, newPeriod: int, newReferences: nat,
                  ghost timers: set<Timer>, ghost info: map<Timer, Info>)
      requires this in timers && references > 0 && InfosAgree(timers, info)
      modifies `status, `period, `references
      ensures status == newStatus && period == newPeriod && references == newReferences
      ensures InfosAgree(timers, Put(info, this, Info(newStatus, newPeriod, newReferences, holders)))
    {
      status, period, references := newStatus, newPeriod, newReferences;
    }
  }

  /** What the ledger says of a timer. */
  ghost function InfoOf(t: Timer): Info
    reads t`status, t`period, t`references, t`holders
  {
    Info(t.status, t.period, t.references, t.holders)
  }

  /** The ledger agrees with memory: it lists the timers that have not been deleted. */
  ghost predicate InfosAgree(timers: set<Timer>, info: map<Timer, Info>)
    reads timers`status, timers`period, timers`references, timers`holders
  {
    && (forall t {:trigger t in info} :: t in info ==> t in timers && t.references > 0 && info[t] == InfoOf(t))
    && (forall t {:trigger t in timers} :: t in timers && t.references > 0 ==> t in info)
  }

  /** The two counters of engine_common, which every engine inherits.  They are unsigned: an
      underflow would wrap, and is excluded by a precondition. */
  class EngineCommon {
    var single: nat
    var periodic: nat

    constructor ()
      ensures single == 0 && periodic == 0
    {
      single, periodic := 0, 0;
    }

    method IncTimerCount(period: int)
      modifies this
      ensures single == old(single) + (if period == 0 then 1 else 0)
      ensures periodic == old(periodic) + (if period == 0 then 0 else 1)
    {
      if period == 0 {
        single := single + 1;
      } else {
        periodic := periodic + 1;
      }
    }

    method DecTimerCount(period: int)
      requires if period == 0 then single > 0 else periodic > 0
      modifies this
      ensures single == old(single) - (if period == 0 then 1 else 0)
      ensures periodic == old(periodic) - (if period == 0 then 0 else 1)
    {
      if period == 0 {
        single := single - 1;
      } else {
        periodic := periodic - 1;
      }
    }

    method ResetTimerCount()
      modifies this
      ensures single == 0 && periodic == 0
    {
      single, periodic := 0, 0;
    }
  }

  // ------------------------------------------------------------------ doubly linked lists

  /** The node at an index, null next to either end. */
  ghost function Node(q: seq<Timer>, i: int): Timer? {
    if 0 <= i < |q| then q[i] else null
  }

  /** The next links lead through exactly the nodes `q`. */
  ghost predicate Forward(q: seq<Timer>)
    reads q`next
  {
    forall i {:trigger q[i].next} :: 0 <= i < |q| ==> q[i].next == Node(q, i + 1)
  }

  /** The prev links lead back through exactly the nodes `q`. */
  ghost predicate Backward(q: seq<Timer>)
    reads q`prev
  {
    forall i {:trigger q[i].prev} :: 0 <= i < |q| ==> q[i].prev == Node(q, i - 1)
  }

  /** The head and tail pointers of one list of timers: those of the list engine, or those of
      one slot of the wheel. */
  class TimerList {
    var head: Timer?
    var tail: Timer?
    ghost var nodes: seq<Timer>

    ghost predicate Valid()
      reads this, nodes`prev, nodes`next
    {
      && head == Node(nodes, 0) && tail == Node(nodes, |nodes| - 1)
      && Forward(nodes) && Backward(nodes) && Distinct(nodes)
    }

    constructor ()
      ensures Valid() && nodes == []
    {
      head, tail, nodes := null, null, [];
    }

    /** Forgets the nodes, whose links stay as they are. */
    method Reset()
      modifies this
      ensures Valid() && nodes == []
    {
      head, tail, nodes := null, null, [];
    }

    /** The next links around a new node at index `k`; `point` is the node before it. */
    method LinkForward(point: Timer?, timer: Timer, ghost k: nat)
      requires head == Node(nodes, 0) && Forward(nodes) && Distinct(nodes) && timer !in nodes
      requires k <= |nodes| && point == Node(nodes, k - 1)
      modifies `head, nodes`next, timer`next
      ensures head == Node(InsertAt(nodes, k, timer), 0) && Forward(InsertAt(nodes, k, timer))
    {
      if point == null {
        timer.next := head;
        head := timer;
      } else {
        timer.next := point.next;
        point.next := timer;
      }
      ghost var q, r := nodes, InsertAt(nodes, k, timer);
      forall i | 0 <= i < |r|
        ensures r[i].next == Node(r, i + 1)
      {
        assert i != k ==> r[i] == q[if i < k then i else i - 1];
      }
    }

    /** The prev links around a new node at index `k`; `after` is the node behind it. */
    method LinkBackward(point: Timer?, timer: Timer, after: Timer?, ghost k: nat)
      requires tail == Node(nodes, |nodes| - 1) && Backward(nodes) && Distinct(nodes) && timer !in nodes
      requires k <= |nodes| && point == Node(nodes, k - 1) && after == Node(nodes, k)
      modifies `tail, nodes`prev, timer`prev
      ensures tail == Node(InsertAt(nodes, k, timer), |nodes|) && Backward(InsertAt(nodes, k, timer))
    {
      timer.prev := point;
      if after != null {
        after.prev := timer;
      }
      if point == tail {
        tail := timer;
      }
      ghost var q, r := nodes, InsertAt(nodes, k, timer);
      forall i | 0 <= i < |r|
        ensures r[i].prev == Node(r, i - 1)
      {
        assert i != k ==> r[i] == q[if i < k then i else i - 1];
      }
    }

    /** Inserts the timer behind `point`, or in front of all the others if there is none. */
    method Link(point: Timer?, timer: Timer, ghost k: nat)
      requires Valid() && timer !in nodes
      requires k <= |nodes| && point == Node(nodes, k - 1)
      modifies this, nodes`prev, nodes`next, timer`prev, timer`next
      ensures Valid() && nodes == InsertAt(old(nodes), k, timer)
    {
      var after := if point == null then head else point.next;
      assert after == Node(nodes, k);
      LinkForward(point, timer, k);
      LinkBackward(point, timer, after, k);
      InsertAtDistinct(nodes, k, timer);
      nodes := InsertAt(nodes, k, timer);
    }

    method UnlinkForward(timer: Timer, ghost k: nat)
      requires Valid() && k < |nodes| && nodes[k] == timer
      modifies `head, nodes`next
      ensures head == Node(RemoveAt(nodes, k), 0) && Forward(RemoveAt(nodes, k)) && timer.next == old(timer.next)
    {
      if timer.prev != null {
        timer.prev.next := timer.next;
      } else {
        head := timer.next;
      }
      ghost var q, r := nodes, RemoveAt(nodes, k);
      forall i | 0 <= i < |r|
        ensures r[i].next == Node(r, i + 1)
      {
        assert r[i] == q[if i < k then i else i + 1];
      }
    }

    method UnlinkBackward(timer: Timer, after: Timer?, ghost k: nat)
      requires tail == Node(nodes, |nodes| - 1) && Backward(nodes) && Distinct(nodes)
      requires k < |nodes| && nodes[k] == timer && after == Node(nodes, k + 1)
      modifies `tail, nodes`prev
      ensures tail == Node(RemoveAt(nodes, k), |nodes| - 2) && Backward(RemoveAt(nodes, k))
    {
      if after != null {
        after.prev := timer.prev;
      } else {
        tail := timer.prev;
      }
      ghost var q, r := nodes, RemoveAt(nodes, k);
      forall i | 0 <= i < |r|
        ensures r[i].prev == Node(r, i - 1)
      {
        assert r[i] == q[if i < k then i else i + 1];
      }
    }

    /** Takes the timer out; its own links are left as they were. */
    method Unlink(timer: Timer, ghost k: nat)
      requires Valid() && k < |nodes| && nodes[k] == timer
      modifies this, nodes`prev, nodes`next
      ensures Valid() && nodes == RemoveAt(old(nodes), k)
      ensures timer.next == old(timer.next)
    {
      UnlinkForward(timer, k);
      UnlinkBackward(timer, timer.next, k);
      RemoveAtDistinct(nodes, k);
      nodes := RemoveAt(nodes, k);
    }

    /** Cuts the list in front of `rest`; the nodes before it stay chained to each other. */
    method DetachPrefix(rest: Timer?, ghost k: nat)
      requires Valid() && 0 < k <= |nodes| && rest == Node(nodes, k)
      modifies this, nodes`prev, nodes`next
      ensures Valid() && nodes == old(nodes)[k..] && Forward(old(nodes)[..k])
    {
      ghost var q := nodes;
      if rest != null {
        head := rest;
        assert rest == q[k] && rest.prev == q[k - 1];
        rest.prev.next := null;
        rest.prev := null;
      } else {
        head, tail := null, null;
      }
      nodes := q[k..];
      forall i | 0 <= i < |nodes|
        ensures nodes[i].prev == Node(nodes, i - 1) && nodes[i].next == Node(nodes, i + 1)
      {
        assert nodes[i] == q[k + i];
      }
    }
  }
}
