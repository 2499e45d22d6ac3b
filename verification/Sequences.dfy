/** Insertion into and removal from sequences without repetition. */
module Sequences {

  predicate Distinct<T(==)>(q: seq<T>) {
    forall i, j :: 0 <= i < j < |q| ==> q[i] != q[j]
  }

  lemma DistinctTail<T>(q: seq<T>)
    requires Distinct(q) && q != []
    ensures Distinct(q[1..]) && q[0] !in q[1..]
    ensures forall t :: t in q ==> t == q[0] || t in q[1..]
  {
    assert q == [q[0]] + q[1..];
  }

  function InsertAt<T>(q: seq<T>, k: nat, t: T): (r: seq<T>)
    requires k <= |q|
    ensures |r| == |q| + 1 && r[k] == t
    ensures forall i {:trigger r[i]} :: 0 <= i < k ==> r[i] == q[i]
    ensures forall i {:trigger r[i]} :: k < i < |r| ==> r[i] == q[i - 1]
  {
    if k == 0 then [t] + q else [q[0]] + InsertAt(q[1..], k - 1, t)
  }

  function RemoveAt<T>(q: seq<T>, k: nat): (r: seq<T>)
    requires k < |q|
    ensures |r| == |q| - 1
    ensures forall i {:trigger r[i]} :: 0 <= i < k ==> r[i] == q[i]
    ensures forall i {:trigger r[i]} :: k <= i < |r| ==> r[i] == q[i + 1]
  {
    if k == 0 then q[1..] else [q[0]] + RemoveAt(q[1..], k - 1)
  }

  lemma InsertAtDistinct<T>(q: seq<T>, k: nat, t: T)
    requires k <= |q| && Distinct(q) && t !in q
    ensures Distinct(InsertAt(q, k, t))
  {
  }

  lemma RemoveAtDistinct<T>(q: seq<T>, k: nat)
    requires k < |q| && Distinct(q)
    ensures Distinct(RemoveAt(q, k)) && q[k] !in RemoveAt(q, k)
  {
  }

  lemma {:induction false} InsertAtSlices<T>(q: seq<T>, k: nat, t: T)
    requires k <= |q|
    ensures InsertAt(q, k, t) == q[..k] + [t] + q[k..]
  {
  }

  lemma RemoveAtSlices<T>(q: seq<T>, k: nat)
    requires k < |q|
    ensures RemoveAt(q, k) == q[..k] + q[k + 1..]
  {
  }

  lemma InsertAtMembers<T>(q: seq<T>, k: nat, t: T)
    requires k <= |q|
    ensures forall u :: u in InsertAt(q, k, t) ==> u == t || u in q
    ensures forall u :: u in q ==> u in InsertAt(q, k, t)
    ensures t in InsertAt(q, k, t)
  {
    InsertAtSlices(q, k, t);
    assert q == q[..k] + q[k..];
  }

  lemma RemoveAtMembers<T>(q: seq<T>, k: nat)
    requires k < |q| && Distinct(q)
    ensures q[k] !in RemoveAt(q, k)
    ensures forall u :: u in RemoveAt(q, k) ==> u in q
    ensures forall u :: u in q && u != q[k] ==> u in RemoveAt(q, k)
  {
    var r := RemoveAt(q, k);
    forall i | 0 <= i < |q| && i != k
      ensures q[i] in r
    {
      assert r[if i < k then i else i - 1] == q[i];
    }
  }

  function IndexOf<T(==)>(q: seq<T>, t: T): (k: nat)
    ensures k <= |q| && (k < |q| <==> t in q) && (k < |q| ==> q[k] == t)
  {
    if q == [] then 0 else if q[0] == t then 0 else 1 + IndexOf(q[1..], t)
  }

  function Without<T(==)>(q: seq<T>, t: T): (r: seq<T>)
    ensures t !in q ==> r == q
  {
    if t in q then RemoveAt(q, IndexOf(q, t)) else q
  }

  lemma WithoutMembers<T>(q: seq<T>, t: T)
    requires Distinct(q)
    ensures Distinct(Without(q, t)) && t !in Without(q, t)
    ensures forall u :: u in Without(q, t) ==> u in q
    ensures forall u :: u in q && u != t ==> u in Without(q, t)
  {
    if t in q {
      RemoveAtMembers(q, IndexOf(q, t));
      RemoveAtDistinct(q, IndexOf(q, t));
    }
  }

  lemma CountTwice<T>(q: seq<T>, i: nat, j: nat)
    requires i < j < |q| && q[i] == q[j]
    ensures multiset(q)[q[i]] >= 2
  {
    assert q == q[..j] + q[j..];
    assert q[i] in q[..j] && q[j] in q[j..];
  }

  lemma {:induction false} DistinctOnce<T>(q: seq<T>, t: T)
    requires Distinct(q)
    ensures multiset(q)[t] == if t in q then 1 else 0
    decreases |q|
  {
    if q != [] {
      assert q == [q[0]] + q[1..];
      DistinctOnce(q[1..], t);
    }
  }
}
