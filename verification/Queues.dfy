/** Queues of distinct members, as the kernel's intrusive lists hold them. */
module Queues {

  datatype Option<+T> = None | Some(value: T)

  predicate Distinct<T(==)>(q: seq<T>) {
    forall i, j :: 0 <= i < j < |q| ==> q[i] != q[j]
  }

  /** q with member t taken out. */
  function Without<T(==,!new)>(q: seq<T>, t: T): (r: seq<T>)
    ensures forall x :: x in r <==> x in q && x != t
    ensures t !in q ==> r == q
  {
    if q == [] then []
    else if q[0] == t then Without(q[1..], t)
    else [q[0]] + Without(q[1..], t)
  }

  lemma {:induction false} WithoutDistinct<T(!new)>(q: seq<T>, t: T)
    requires Distinct(q)
    ensures Distinct(Without(q, t))
  {
    if q != [] {
      WithoutDistinct(q[1..], t);
      assert q[0] !in q[1..];
    }
  }
}
