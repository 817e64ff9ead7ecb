/** Strictly sorted lists under any strict order. */
module Sorting {

  ghost predicate StrictOrder<T(!new)>(less: (T, T) -> bool) {
    forall x, y :: less(x, y) ==> x != y && !less(y, x)
  }

  ghost predicate Sorted<T(!new)>(less: (T, T) -> bool, a: seq<T>) {
    forall i, j :: 0 <= i < j < |a| ==> less(a[i], a[j])
  }

  lemma SortedAppend<T(!new)>(less: (T, T) -> bool, a: seq<T>, x: T)
    requires Sorted(less, a) && forall y :: y in a ==> less(y, x)
    ensures Sorted(less, a + [x])
  {
  }

  lemma InInit<T(!new)>(less: (T, T) -> bool, a: seq<T>, x: T)
    requires StrictOrder(less) && Sorted(less, a) && a != []
    ensures x in a[..|a| - 1] <==> x in a && x != a[|a| - 1]
  {
    var n := |a| - 1;
    assert a == a[..n] + [a[n]];
    if x in a[..n] {
      var i :| 0 <= i < n && a[i] == x;
      assert less(a[i], a[n]);
    }
  }

  lemma FirstOccurs<T(!new)>(b: seq<T>)
    requires b != []
    ensures exists x :: x in b
  {
    assert b[0] in b;
  }

  /** A strictly sorted list is determined by what occurs in it. */
  lemma {:induction false} SortedIsUnique<T(!new)>(less: (T, T) -> bool, a: seq<T>, b: seq<T>)
    requires StrictOrder(less) && Sorted(less, a) && Sorted(less, b)
    requires forall x :: x in a <==> x in b
    ensures a == b
  {
    if a == [] {
      assert |b| == 0 by {
        if 0 < |b| {
          FirstOccurs(b);
        }
      }
    } else {
      var m := |a| - 1;
      assert a[m] in b;
      var n := |b| - 1;
      assert b[n] in a;
      LastIsGreatest(less, a, b[n]);
      LastIsGreatest(less, b, a[m]);
      forall x
        ensures x in a[..m] <==> x in b[..n]
      {
        InInit(less, a, x);
        InInit(less, b, x);
      }
      SortedIsUnique(less, a[..m], b[..n]);
      assert a == a[..m] + [a[m]] && b == b[..n] + [b[n]];
    }
  }

  lemma LastIsGreatest<T(!new)>(less: (T, T) -> bool, a: seq<T>, x: T)
    requires Sorted(less, a) && x in a
    ensures x == a[|a| - 1] || less(x, a[|a| - 1])
  {
    var i :| 0 <= i < |a| && a[i] == x;
    if i < |a| - 1 {
      assert less(a[i], a[|a| - 1]);
    }
  }
}
