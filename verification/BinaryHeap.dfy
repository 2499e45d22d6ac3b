/**
  The heap array of timer_heap_engine, on values: a binary heap whose positions start from 1,
  ordered by the time each timer is due.
 */
module BinaryHeap {

  /** A timer in the heap with its m_when and its m_period. */
  datatype Entry<T(==)> = Entry(timer: T, when: int, period: int)

  function Timers<T>(h: seq<Entry<T>>): (r: seq<T>)
    ensures |r| == |h| && forall i {:trigger r[i]} :: 0 <= i < |h| ==> r[i] == h[i].timer
  {
    seq(|h|, i requires 0 <= i < |h| => h[i].timer)
  }

  /** The same entries, and so the same timers, in any order. */
  ghost predicate Permuted<T>(a: seq<Entry<T>>, b: seq<Entry<T>>) {
    |a| == |b| && multiset(a) == multiset(b) && multiset(Timers(a)) == multiset(Timers(b))
  }

  function W<T>(h: seq<Entry<T>>, p: nat): int
    requires 1 <= p <= |h|
  {
    h[p - 1].when
  }

  /** The entry at position `p` is not earlier than its parent. */
  predicate Below<T>(h: seq<Entry<T>>, p: nat)
    requires 2 <= p <= |h|
  {
    W(h, p / 2) <= W(h, p)
  }

  ghost predicate Ordered<T>(h: seq<Entry<T>>) {
    forall p :: 2 <= p <= |h| ==> Below(h, p)
  }

  lemma ExchangeKeeps<X>(s: seq<X>, i: nat, j: nat)
    requires i < |s| && j < |s|
    ensures multiset(s[i := s[j]][j := s[i]]) == multiset(s)
  {
  }

  lemma ExchangePermutes<T>(h: seq<Entry<T>>, i: nat, j: nat)
    requires i < |h| && j < |h|
    ensures Permuted(h, h[i := h[j]][j := h[i]])
  {
    hide Timers;
    var r, ts := h[i := h[j]][j := h[i]], Timers(h);
    ExchangeKeeps(h, i, j);
    ExchangeKeeps(ts, i, j);
    assert Timers(r) == ts[i := ts[j]][j := ts[i]];
  }

  function Swap<T>(h: seq<Entry<T>>, p: nat, q: nat): (r: seq<Entry<T>>)
    requires 1 <= p <= |h| && 1 <= q <= |h|
    ensures |r| == |h| && r[p - 1] == h[q - 1] && r[q - 1] == h[p - 1]
    ensures forall i {:trigger r[i]} :: 0 <= i < |h| && i != p - 1 && i != q - 1 ==> r[i] == h[i]
    ensures Permuted(h, r)
  {
    hide Permuted;
    ExchangePermutes(h, p - 1, q - 1);
    h[p - 1 := h[q - 1]][q - 1 := h[p - 1]]
  }

  /** The loop of heap_add. */
  function SiftUp<T>(h: seq<Entry<T>>, p: nat): (r: seq<Entry<T>>)
    requires 1 <= p <= |h|
    ensures |r| == |h| && Permuted(h, r)
    decreases p
  {
    if p == 1 then h
    else if W(h, p / 2) > W(h, p) then SiftUp(Swap(h, p, p / 2), p / 2)
    else h
  }

  lemma RiseStep<T>(h: seq<Entry<T>>, p: nat)
    requires 1 <= p <= |h|
    ensures SiftUp(h, p) == if p > 1 && W(h, p / 2) > W(h, p) then SiftUp(Swap(h, p, p / 2), p / 2) else h
  {
  }

  function Add<T>(h: seq<Entry<T>>, e: Entry<T>): (r: seq<Entry<T>>)
    ensures |r| == |h| + 1 && multiset(r) == multiset(h) + multiset{e}
    ensures multiset(Timers(r)) == multiset(Timers(h)) + multiset{e.timer}
  {
    assert Timers(h + [e]) == Timers(h) + [e.timer];
    SiftUp(h + [e], |h| + 1)
  }

  /** The earliest of an entry and its children; a child wins a tie, the right one over the left. */
  function MinIndex<T>(h: seq<Entry<T>>, p: nat): (m: nat)
    requires 1 <= p <= |h|
    ensures p <= m <= |h| && (m == p || m == 2 * p || m == 2 * p + 1)
    ensures forall c {:trigger W(h, c)} :: (c == p || c == 2 * p || c == 2 * p + 1) && c <= |h| ==>
      W(h, m) <= W(h, c) && (c > m ==> W(h, m) < W(h, c))
  {
    var l := if 2 * p <= |h| && W(h, 2 * p) <= W(h, p) then 2 * p else p;
    if 2 * p + 1 <= |h| && W(h, 2 * p + 1) <= W(h, l) then 2 * p + 1 else l
  }

  /** The loop of heap_remove. */
  function SiftDown<T>(h: seq<Entry<T>>, p: nat): (r: seq<Entry<T>>)
    requires 1 <= p <= |h|
    ensures |r| == |h| && Permuted(h, r)
    decreases |h| - p
  {
    var m := MinIndex(h, p);
    if m == p then h else SiftDown(Swap(h, p, m), m)
  }

  lemma SinkStep<T>(h: seq<Entry<T>>, p: nat)
    requires 1 <= p <= |h|
    ensures var m := MinIndex(h, p);
            SiftDown(h, p) == if m == p then h else SiftDown(Swap(h, p, m), m)
  {
  }

  /** The entry at position `p` goes; the last one takes its place and sinks. */
  function Remove<T>(h: seq<Entry<T>>, p: nat): (r: seq<Entry<T>>)
    requires 1 <= p <= |h|
    ensures |r| == |h| - 1 && multiset(h) == multiset(r) + multiset{h[p - 1]}
    ensures multiset(Timers(h)) == multiset(Timers(r)) + multiset{h[p - 1].timer}
  {
    hide SiftDown, Timers, Swap, Permuted;
    if p == |h| then
      DropLast(h);
      h[..|h| - 1]
    else
      LastSinks(h, p);
      SiftDown(Swap(h, p, |h|)[..|h| - 1], p)
  }

  lemma LastSinks<T>(h: seq<Entry<T>>, p: nat)
    requires 1 <= p < |h|
    ensures var r := SiftDown(Swap(h, p, |h|)[..|h| - 1], p);
            && |r| == |h| - 1 && multiset(h) == multiset(r) + multiset{h[p - 1]}
            && multiset(Timers(h)) == multiset(Timers(r)) + multiset{h[p - 1].timer}
  {
    hide SiftDown, Timers;
    DropLast(Swap(h, p, |h|));
  }

  lemma DropLast<T>(h: seq<Entry<T>>)
    requires h != []
    ensures var last, rest := h[|h| - 1], h[..|h| - 1];
            && multiset(h) == multiset(rest) + multiset{last}
            && multiset(Timers(h)) == multiset(Timers(rest)) + multiset{last.timer}
  {
    assert h == h[..|h| - 1] + [h[|h| - 1]];
    assert Timers(h) == Timers(h[..|h| - 1]) + [h[|h| - 1].timer];
  }

  // ------------------------------------------------------------------ order

  /** Ordered but for the entry at `p`, which may be too early. */
  ghost predicate Rising<T>(h: seq<Entry<T>>, p: nat)
    requires 1 <= p <= |h|
  {
    && (forall q :: 2 <= q <= |h| && q != p ==> Below(h, q))
    && (p > 1 ==> forall q {:trigger W(h, q)} :: 2 <= q <= |h| && q / 2 == p ==> W(h, p / 2) <= W(h, q))
  }

  lemma {:induction false} SiftUpOrders<T>(h: seq<Entry<T>>, p: nat)
    requires 1 <= p <= |h| && Rising(h, p)
    ensures Ordered(SiftUp(h, p))
    decreases p
  {
    if p > 1 {
      if W(h, p / 2) > W(h, p) {
        var s := Swap(h, p, p / 2);
        forall q | 2 <= q <= |h| && q != p / 2
          ensures Below(s, q)
        {
          assert q != p ==> Below(h, q);
        }
        if p / 2 > 1 {
          assert Below(h, p / 2);
          forall q {:trigger W(s, q)} | 2 <= q <= |h| && q / 2 == p / 2
            ensures W(s, p / 2 / 2) <= W(s, q)
          {
            assert q != p ==> Below(h, q);
          }
        }
        SiftUpOrders(s, p / 2);
      } else {
        assert Below(h, p);
      }
    }
  }

  lemma AddKeepsOrder<T>(h: seq<Entry<T>>, e: Entry<T>)
    requires Ordered(h)
    ensures Ordered(Add(h, e))
  {
    hide Permuted, SiftUp;
    var s := h + [e];
    forall q | 2 <= q <= |s| && q != |s|
      ensures Below(s, q)
    {
      assert Below(h, q);
    }
    SiftUpOrders(s, |s|);
  }

  /** Ordered but for the children of `p`, which may be earlier than it. */
  ghost predicate Sinking<T>(h: seq<Entry<T>>, p: nat)
    requires 1 <= p <= |h|
  {
    && (forall q :: 2 <= q <= |h| && q / 2 != p ==> Below(h, q))
    && (p > 1 ==> forall q {:trigger W(h, q)} :: 2 <= q <= |h| && q / 2 == p ==> W(h, p / 2) <= W(h, q))
  }

  lemma {:induction false} SiftDownOrders<T>(h: seq<Entry<T>>, p: nat)
    requires 1 <= p <= |h| && Sinking(h, p)
    ensures Ordered(SiftDown(h, p))
    decreases |h| - p
  {
    var m := MinIndex(h, p);
    if m == p {
      forall q | 2 <= q <= |h|
        ensures Below(h, q)
      {
        assert q / 2 == p ==> q == 2 * p || q == 2 * p + 1;
      }
    } else {
      var s := Swap(h, p, m);
      forall q | 2 <= q <= |h| && q / 2 != m
        ensures Below(s, q)
      {
        assert q / 2 == p ==> q == 2 * p || q == 2 * p + 1;
        assert q / 2 != p ==> Below(h, q);
      }
      forall q {:trigger W(s, q)} | 2 <= q <= |h| && q / 2 == m
        ensures W(s, m / 2) <= W(s, q)
      {
        assert Below(h, q);
      }
      SiftDownOrders(s, m);
    }
  }

  /** The entry sinks past everything that is not later: where it comes to rest, its children
      are strictly later. */
  lemma {:induction false} SinksPastTies<T>(h: seq<Entry<T>>, p: nat) returns (q: nat)
    requires 1 <= p <= |h|
    ensures var r := SiftDown(h, p);
            && p <= q <= |r| && r[q - 1] == h[p - 1]
            && forall c {:trigger W(r, c)} :: 2 <= c <= |r| && c / 2 == q ==> W(r, q) < W(r, c)
    ensures forall x {:trigger SiftDown(h, p)[x]} :: 0 <= x < p - 1 ==> SiftDown(h, p)[x] == h[x]
    decreases |h| - p
  {
    hide Permuted;
    var m := MinIndex(h, p);
    SinkStep(h, p);
    if m == p {
      q := p;
      forall c {:trigger W(h, c)} | 2 <= c <= |h| && c / 2 == q
        ensures W(h, q) < W(h, c)
      {
        assert c == 2 * p || c == 2 * p + 1;
      }
    } else {
      q := SinksPastTies(Swap(h, p, m), m);
    }
  }

  /** What removal needs: the last entry is not earlier than the parent of the vacated place. */
  predicate Fits<T>(h: seq<Entry<T>>, p: nat)
    requires 1 <= p <= |h|
  {
    p == |h| || p == 1 || W(h, p / 2) <= W(h, |h|)
  }

  lemma RemoveOrders<T>(h: seq<Entry<T>>, p: nat)
    requires 1 <= p <= |h| && Ordered(h) && Fits(h, p)
    ensures Ordered(Remove(h, p))
  {
    if p == |h| {
      var s := h[..|h| - 1];
      forall q | 2 <= q <= |s|
        ensures Below(s, q)
      {
        assert Below(h, q);
      }
    } else {
      var s := Swap(h, p, |h|)[..|h| - 1];
      forall q | 2 <= q <= |s| && q / 2 != p
        ensures Below(s, q)
      {
        assert Below(h, q);
      }
      if p > 1 {
        assert Below(h, p);
        forall q {:trigger W(s, q)} | 2 <= q <= |s| && q / 2 == p
          ensures W(s, p / 2) <= W(s, q)
        {
          assert Below(h, q);
        }
      }
      SiftDownOrders(s, p);
    }
  }

  lemma Disorder<T>(h: seq<Entry<T>>, p: nat)
    requires 2 <= p <= |h| && W(h, p) < W(h, p / 2)
    ensures !Ordered(h)
  {
    assert !Below(h, p);
  }

  /** The heap without the entry, when the last one has to rise but does not. */
  lemma Misplaced<T>(h: seq<Entry<T>>, p: nat)
    requires 1 <= p <= |h| && Ordered(h) && !Fits(h, p)
    ensures var r := Remove(h, p);
            2 <= p <= |r| && |r| == |h| - 1 && W(r, p) < W(r, p / 2) && r[0] == h[0]
  {
    var s := Swap(h, p, |h|)[..|h| - 1];
    assert Below(h, p);
    assert 2 * p <= |s| ==> Below(h, 2 * p);
    assert 2 * p + 1 <= |s| ==> Below(h, 2 * p + 1);
    assert MinIndex(s, p) == p;
    assert Remove(h, p) == s;
  }

  /** heap_remove only sinks the last entry.  That keeps the heap ordered exactly when the
      entry did not have to rise. */
  lemma RemoveKeepsOrder<T>(h: seq<Entry<T>>, p: nat)
    requires 1 <= p <= |h| && Ordered(h)
    ensures Ordered(Remove(h, p)) <==> Fits(h, p)
  {
    hide Remove, Ordered;
    if Fits(h, p) {
      RemoveOrders(h, p);
    } else {
      Misplaced(h, p);
      Disorder(Remove(h, p), p);
    }
  }

  lemma {:induction false} SiftUpKeepsRoot<T>(h: seq<Entry<T>>, p: nat)
    requires 1 <= p <= |h| && W(h, 1) <= W(h, p)
    ensures SiftUp(h, p)[0] == h[0]
    decreases p
  {
    if p > 1 && W(h, p / 2) > W(h, p) {
      SiftUpKeepsRoot(Swap(h, p, p / 2), p / 2);
    }
  }

  /** An ordered heap has its earliest entry in front. */
  lemma {:induction false} HeadIsEarliest<T>(h: seq<Entry<T>>, p: nat)
    requires Ordered(h) && 1 <= p <= |h|
    ensures W(h, 1) <= W(h, p)
    decreases p
  {
    if p > 1 {
      assert Below(h, p);
      HeadIsEarliest(h, p / 2);
    }
  }

  /** The earliest entry is in front, whatever the order of the others. */
  ghost predicate HeadFirst<T>(h: seq<Entry<T>>) {
    forall f :: f in h ==> h[0].when <= f.when
  }

  lemma OrderedHeadFirst<T>(h: seq<Entry<T>>)
    requires Ordered(h)
    ensures HeadFirst(h)
  {
    forall f | f in h
      ensures h[0].when <= f.when
    {
      var k :| 0 <= k < |h| && h[k] == f;
      HeadIsEarliest(h, k + 1);
    }
  }

  lemma {:induction false} RisesToRoot<T>(h: seq<Entry<T>>, p: nat)
    requires 1 <= p <= |h| && forall x :: 1 <= x <= |h| && x != p ==> W(h, p) < W(h, x)
    ensures SiftUp(h, p)[0] == h[p - 1]
    decreases p
  {
    hide Permuted;
    if p > 1 {
      var s := Swap(h, p, p / 2);
      forall x | 1 <= x <= |h| && x != p / 2
        ensures W(s, p / 2) < W(s, x)
      {
        assert W(h, p) < W(h, if x == p then p / 2 else x);
      }
      RisesToRoot(s, p / 2);
    }
  }

  /** A new entry gets to the front exactly when it is earlier than the one there. */
  lemma AddedToFront<T>(h: seq<Entry<T>>, e: Entry<T>)
    requires HeadFirst(h)
    ensures Add(h, e)[0] == if h == [] || e.when < h[0].when then e else h[0]
  {
    hide Permuted, SiftUp;
    var s := h + [e];
    if h != [] && h[0].when <= e.when {
      SiftUpKeepsRoot(s, |s|);
    } else {
      forall x | 1 <= x <= |s| && x != |s|
        ensures W(s, |s|) < W(s, x)
      {
        assert h[x - 1] in h;
      }
      RisesToRoot(s, |s|);
    }
  }

  /** Removal from an ordered heap leaves the earliest entry in front, even if it harms the order. */
  lemma RemoveKeepsHead<T>(h: seq<Entry<T>>, p: nat)
    requires 1 <= p <= |h| && Ordered(h)
    ensures HeadFirst(Remove(h, p))
  {
    hide Remove, Ordered;
    var r := Remove(h, p);
    if Fits(h, p) {
      RemoveKeepsOrder(h, p);
      OrderedHeadFirst(r);
    } else {
      Misplaced(h, p);
      OrderedHeadFirst(h);
      forall f | f in r
        ensures f in h
      {
        assert f in multiset(r) && f in multiset(h);
      }
    }
  }

  // ------------------------------------------------------------------ an entry that is moved

  /** The position `q` is `x` or below it. */
  predicate Under(q: nat, x: nat)
    requires x > 0
    decreases q
  {
    q == x || (q > x && Under(q / 2, x))
  }

  lemma {:induction false} UnderParent(q: nat, x: nat)
    requires x > 1 && Under(q, x)
    ensures Under(q, x / 2)
    decreases q
  {
    if q > x { UnderParent(q / 2, x); }
  }

  lemma NotUnder(q: nat, x: nat)
    requires 0 < q < x
    ensures !Under(q, x)
  {
  }

  /** In an ordered heap no entry is earlier than one above it. */
  lemma {:induction false} AboveIsEarlier<T>(h: seq<Entry<T>>, q: nat, x: nat)
    requires Ordered(h) && 1 <= x <= q <= |h| && Under(q, x)
    ensures W(h, x) <= W(h, q)
    decreases q
  {
    if q > x {
      assert Below(h, q);
      AboveIsEarlier(h, q / 2, x);
    }
  }

  /** So an entry that would have to rise stands neither below the vacated place nor below its
      parent. */
  lemma LastIsAside<T>(h: seq<Entry<T>>, p: nat)
    requires 1 <= p <= |h| && Ordered(h) && !Fits(h, p)
    ensures !Under(|h|, p) && !Under(|h|, p / 2)
  {
    if Under(|h|, p) { UnderParent(|h|, p); }
    if Under(|h|, p / 2) { AboveIsEarlier(h, |h|, p / 2); }
  }

  /** Only the entries above the rising one can change. */
  lemma {:induction false} Unmoved<T>(h: seq<Entry<T>>, q: nat, x: nat)
    requires 1 <= q <= |h| && 1 <= x <= |h| && !Under(q, x)
    ensures SiftUp(h, q)[x - 1] == h[x - 1]
    decreases q
  {
    hide Permuted;
    if q > 1 && W(h, q / 2) > W(h, q) {
      if x > q { NotUnder(q / 2, x); }
      Unmoved(Swap(h, q, q / 2), q / 2, x);
    }
  }

  /** Exchanging an entry for another one keeps the heap ordered exactly when the last entry did
      not have to rise: whatever the new entry is, its way up passes by the misplaced one. */
  lemma MoveKeepsOrder<T>(h: seq<Entry<T>>, p: nat, e: Entry<T>)
    requires 1 <= p <= |h| && Ordered(h)
    ensures Ordered(Add(Remove(h, p), e)) <==> Fits(h, p)
  {
    hide Remove, Ordered, Permuted, SiftUp;
    if Fits(h, p) {
      RemoveKeepsOrder(h, p);
      AddKeepsOrder(Remove(h, p), e);
    } else {
      Misplaced(h, p);
      LastIsAside(h, p);
      var a := Remove(h, p) + [e];
      Unmoved(a, |a|, p);
      Unmoved(a, |a|, p / 2);
      Disorder(SiftUp(a, |a|), p);
    }
  }
}
