/** Saying of a list exactly which entries it has and in which order, whatever way it was built. */
module Enumeration {
  import opened Options
  import opened Sorting

  /** `got` has one entry for each index `pick` accepts, the entry it picks, in the order of the indices. */
  ghost predicate Enumerates<I(!new), B>(got: seq<B>, at: seq<I>, less: (I, I) -> bool, pick: I -> Option<B>) {
    && |at| == |got| && Sorted(less, at)
    && (forall i {:trigger pick(at[i])} :: 0 <= i < |at| ==> pick(at[i]) == Some(got[i]))
    && (forall x :: pick(x).Some? ==> x in at)
  }

  ghost predicate Lists<I(!new), B>(got: seq<B>, less: (I, I) -> bool, pick: I -> Option<B>) {
    exists at: seq<I> :: Enumerates(got, at, less, pick)
  }

  /** The order of places in a list. */
  predicate Before(i: int, j: int) { i < j }

  /** An index into a list of lists, or a time and a place. */
  datatype Pair = Pair(major: int, minor: int)

  predicate Earlier(a: Pair, b: Pair) { a.major < b.major || (a.major == b.major && a.minor < b.minor) }

  lemma OrdersAreStrict()
    ensures StrictOrder(Before) && StrictOrder(Earlier)
  {
  }

  /** There is only one such list. */
  lemma ListIsUnique<I(!new), B>(a: seq<B>, b: seq<B>, less: (I, I) -> bool, pick: I -> Option<B>)
    requires StrictOrder(less) && Lists(a, less, pick) && Lists(b, less, pick)
    ensures a == b
  {
    var p: seq<I> :| Enumerates(a, p, less, pick);
    var q: seq<I> :| Enumerates(b, q, less, pick);
    forall x
      ensures x in p <==> x in q
    {
    }
    SortedIsUnique(less, p, q);
    assert forall i :: 0 <= i < |a| ==> Some(a[i]) == pick(p[i]) == Some(b[i]);
  }

  lemma ListsNothing<I(!new), B>(less: (I, I) -> bool, pick: I -> Option<B>)
    requires forall x :: pick(x).None?
    ensures Lists([], less, pick)
  {
    assert Enumerates([], [], less, pick);
  }

  lemma ListsSame<I(!new), B>(got: seq<B>, less: (I, I) -> bool, pick: I -> Option<B>, pick': I -> Option<B>)
    requires Lists(got, less, pick) && forall x :: pick'(x) == pick(x)
    ensures Lists(got, less, pick')
  {
    var at: seq<I> :| Enumerates(got, at, less, pick);
    assert Enumerates(got, at, less, pick');
  }

  /** One entry more, at an index behind all others. */
  lemma ListsOneMore<I(!new), B>(got: seq<B>, less: (I, I) -> bool, pick: I -> Option<B>, pick': I -> Option<B>,
                                 last: I, entry: B)
    requires Lists(got, less, pick) && pick(last).None? && pick'(last) == Some(entry)
    requires forall x :: x != last ==> pick'(x) == pick(x)
    requires forall x :: pick(x).Some? ==> less(x, last)
    ensures Lists(got + [entry], less, pick')
  {
    var at: seq<I> :| Enumerates(got, at, less, pick);
    forall i | 0 <= i < |at|
      ensures at[i] != last && less(at[i], last)
    {
      assert pick(at[i]).Some?;
    }
    var longer := at + [last];
    assert longer[|at|] == last;
    forall x | pick'(x).Some?
      ensures x in longer
    {
      assert x != last ==> x in at;
    }
    SortedAppend(less, at, last);
    assert Enumerates(got + [entry], longer, less, pick');
  }

  /** One list behind another. */
  lemma ListsBoth<I(!new), B>(a: seq<B>, b: seq<B>, less: (I, I) -> bool,
                              first: I -> Option<B>, second: I -> Option<B>, both: I -> Option<B>)
    requires Lists(a, less, first) && Lists(b, less, second)
    requires forall x :: both(x) == if first(x).Some? then first(x) else second(x)
    requires forall x, y :: first(x).Some? && second(y).Some? ==> less(x, y) && x != y
    ensures Lists(a + b, less, both)
  {
    var p: seq<I> :| Enumerates(a, p, less, first);
    var q: seq<I> :| Enumerates(b, q, less, second);
    EnumeratesBoth(a, b, p, q, less, first, second, both);
  }

  lemma EnumeratesBoth<I(!new), B>(a: seq<B>, b: seq<B>, p: seq<I>, q: seq<I>, less: (I, I) -> bool,
                                   first: I -> Option<B>, second: I -> Option<B>, both: I -> Option<B>)
    requires Enumerates(a, p, less, first) && Enumerates(b, q, less, second)
    requires forall x :: both(x) == if first(x).Some? then first(x) else second(x)
    requires forall x, y :: first(x).Some? && second(y).Some? ==> less(x, y) && x != y
    ensures Enumerates(a + b, p + q, less, both)
  {
    SortedBoth(less, first, second, p, q);
    PicksBoth(less, first, second, both, a, b, p, q);
    InBoth(p, q, first, second, both);
  }

  lemma PicksBoth<I(!new), B>(less: (I, I) -> bool, first: I -> Option<B>, second: I -> Option<B>,
                              both: I -> Option<B>, a: seq<B>, b: seq<B>, p: seq<I>, q: seq<I>)
    requires |p| == |a| && forall i :: 0 <= i < |p| ==> first(p[i]) == Some(a[i])
    requires |q| == |b| && forall i :: 0 <= i < |q| ==> second(q[i]) == Some(b[i])
    requires forall x :: both(x) == if first(x).Some? then first(x) else second(x)
    requires forall x, y :: first(x).Some? && second(y).Some? ==> less(x, y) && x != y
    ensures forall i :: 0 <= i < |p + q| ==> both((p + q)[i]) == Some((a + b)[i])
  {
    forall i | 0 <= i < |p + q|
      ensures both((p + q)[i]) == Some((a + b)[i])
    {
      if i < |p| {
        assert (p + q)[i] == p[i] && first(p[i]) == Some(a[i]);
      } else {
        var x := q[i - |p|];
        assert (p + q)[i] == x && second(x) == Some(b[i - |p|]) && first(x).None?;
      }
    }
  }

  lemma SortedBoth<I(!new), B>(less: (I, I) -> bool, first: I -> Option<B>, second: I -> Option<B>,
                               p: seq<I>, q: seq<I>)
    requires Sorted(less, p) && Sorted(less, q)
    requires forall i :: 0 <= i < |p| ==> first(p[i]).Some?
    requires forall j :: 0 <= j < |q| ==> second(q[j]).Some?
    requires forall x, y :: first(x).Some? && second(y).Some? ==> less(x, y)
    ensures Sorted(less, p + q)
  {
    var at := p + q;
    forall i, j | 0 <= i < j < |at|
      ensures less(at[i], at[j])
    {
      if j < |p| {
        assert less(p[i], p[j]);
      } else if i < |p| {
        assert first(p[i]).Some? && second(q[j - |p|]).Some?;
      } else {
        assert less(q[i - |p|], q[j - |p|]);
      }
    }
  }

  lemma InBoth<I(!new), B>(p: seq<I>, q: seq<I>,
                           first: I -> Option<B>, second: I -> Option<B>, both: I -> Option<B>)
    requires forall x :: first(x).Some? ==> x in p
    requires forall x :: second(x).Some? ==> x in q
    requires forall x :: both(x) == if first(x).Some? then first(x) else second(x)
    ensures forall x :: both(x).Some? ==> x in p + q
  {
    forall x | both(x).Some?
      ensures x in p + q
    {
      assert x in p || x in q;
    }
  }

  function PairsWith(m: int, at: seq<int>): (pairs: seq<Pair>)
    ensures |pairs| == |at| && forall i :: 0 <= i < |at| ==> pairs[i] == Pair(m, at[i])
  {
    seq(|at|, i requires 0 <= i < |at| => Pair(m, at[i]))
  }

  /** A list as one row of a list of lists. */
  lemma ListsRow<B>(got: seq<B>, m: int, pick: int -> Option<B>, pick': Pair -> Option<B>)
    requires Lists(got, Before, pick)
    requires forall p: Pair :: pick'(p) == if p.major == m then pick(p.minor) else None
    ensures Lists(got, Earlier, pick')
  {
    var at: seq<int> :| Enumerates(got, at, Before, pick);
    var pairs := PairsWith(m, at);
    forall i | 0 <= i < |pairs|
      ensures pick'(pairs[i]) == Some(got[i])
    {
      assert pick(at[i]) == Some(got[i]);
    }
    forall p | pick'(p).Some?
      ensures p in pairs
    {
      var i :| 0 <= i < |at| && at[i] == p.minor;
      assert pairs[i] == p;
    }
    assert Enumerates(got, pairs, Earlier, pick');
  }
}
