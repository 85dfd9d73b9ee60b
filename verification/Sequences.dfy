/** Lists of distinct items, as the kernel's linked lists hold them. */
module Sequences {

  ghost predicate NoDup<T>(q: seq<T>) {
    forall i, j :: 0 <= i < j < |q| ==> q[i] != q[j]
  }

  /** `list_del` of one item. */
  function Without<T(==)>(q: seq<T>, x: T): seq<T> {
    if q == [] then [] else if q[0] == x then q[1..] else [q[0]] + Without(q[1..], x)
  }

  lemma {:induction false} WithoutOthers<T>(q: seq<T>, x: T)
    requires NoDup(q) && x in q
    ensures NoDup(Without(q, x))
    ensures forall y :: y in Without(q, x) <==> y in q && y != x
  {
    if q[0] != x {
      WithoutOthers(q[1..], x);
      assert q[0] !in Without(q[1..], x);
    }
  }

  lemma NoDupAppend<T>(a: seq<T>, b: seq<T>)
    requires NoDup(a) && NoDup(b) && (forall x :: x in a ==> x !in b)
    ensures NoDup(a + b)
  {
    forall i, j | 0 <= i < |a| && 0 <= j < |b|
      ensures a[i] != b[j]
    {
      assert a[i] in a && b[j] in b;
    }
  }

  lemma {:induction false} OnceIfPresent<T>(q: seq<T>, x: T)
    requires NoDup(q)
    ensures multiset(q)[x] == if x in q then 1 else 0
  {
    if q != [] {
      var n := |q| - 1;
      assert q == q[..n] + [q[n]];
      OnceIfPresent(q[..n], x);
    }
  }

  /** An item that occurs at two places occurs twice. */
  lemma TwoPlaces<T>(q: seq<T>, i: nat, j: nat)
    requires i < j < |q| && q[i] == q[j]
    ensures multiset(q)[q[i]] >= 2
  {
    assert q == q[..j] + [q[j]] + q[j + 1..];
    assert q[i] in q[..j];
  }
}
