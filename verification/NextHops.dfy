/** Next hops: not counted but owned, by one `NextHop` handle, by one route, or by a caller who took
    or allocated the raw pointer. */
module NextHops {
  import opened Libnl

  datatype HopHeap<V> = HopHeap(hops: map<Ptr, V>, next: Ptr, fault: bool)

  function NewHop<V>(h: HopHeap<V>, v: V): (HopHeap<V>, Ptr) {
    (h.(hops := h.hops[h.next := v], next := h.next + 1), h.next)
  }

  /** `rtnl_route_nh_clone`: reads its argument, so null or stale is a fault; null when out of memory. */
  function CloneHop<V>(h: HopHeap<V>, p: Ptr, ok: bool): (HopHeap<V>, Ptr) {
    if p !in h.hops then (h.(fault := true), NULL)
    else if ok then NewHop(h, h.hops[p])
    else (h, NULL)
  }

  function FreeHop<V>(h: HopHeap<V>, p: Ptr): HopHeap<V> {
    if p in h.hops then h.(hops := h.hops - {p}) else h.(fault := true)
  }

  /** `if (nexthop) rtnl_route_nh_free(nexthop)` */
  function Discarded<V>(h: HopHeap<V>, p: Ptr): HopHeap<V> {
    if p == NULL then h else FreeHop(h, p)
  }

  function WriteHop<V>(h: HopHeap<V>, p: Ptr, v: V): HopHeap<V> {
    if p in h.hops then h.(hops := h.hops[p := v]) else h.(fault := true)
  }

  /** `rtnl_route_add_nexthop` links the hop into the list, so null is a fault. */
  function Linked<V>(h: HopHeap<V>, p: Ptr): HopHeap<V> {
    if p in h.hops then h else h.(fault := true)
  }

  /** Fresh copies of a list of hops, made one after another. */
  function CopiedHops<V>(h: HopHeap<V>, ps: seq<Ptr>): HopHeap<V>
    requires forall i :: 0 <= i < |ps| ==> ps[i] in h.hops
  {
    if ps == [] then h
    else
      var n := |ps| - 1;
      NewHop(CopiedHops(h, ps[..n]), h.hops[ps[n]]).0
  }

  lemma {:induction false} CopiesKeep<V>(h: HopHeap<V>, ps: seq<Ptr>)
    requires forall i :: 0 <= i < |ps| ==> ps[i] in h.hops
    ensures CopiedHops(h, ps).next == h.next + |ps| && CopiedHops(h, ps).fault == h.fault
    ensures forall p :: p in h.hops && p < h.next ==>
              p in CopiedHops(h, ps).hops && CopiedHops(h, ps).hops[p] == h.hops[p]
  {
    if ps != [] {
      CopiesKeep(h, ps[..|ps| - 1]);
    }
  }

  /** One copy more. */
  lemma CopyNext<V>(h: HopHeap<V>, ps: seq<Ptr>, i: nat)
    requires i < |ps| && forall i :: 0 <= i < |ps| ==> ps[i] in h.hops && ps[i] < h.next
    ensures var copied := CopiedHops(h, ps[..i]);
            && ps[i] in copied.hops && copied.hops[ps[i]] == h.hops[ps[i]] && copied.next == h.next + i
            && CopiedHops(h, ps[..i + 1]) == CloneHop(copied, ps[i], true).0
            && CloneHop(copied, ps[i], true).1 == h.next + i
  {
    CopiesKeep(h, ps[..i]);
    assert ps[..i + 1][..i] == ps[..i];
  }

  function Interval(from: Ptr, n: nat): seq<Ptr> {
    seq(n, i => from + i)
  }

  /** Consecutive names for the members of a list. */
  function Named<T>(first: nat, xs: seq<T>): map<nat, T> {
    if xs == [] then map[]
    else
      var n := |xs| - 1;
      Named(first, xs[..n])[first + n := xs[n]]
  }

  lemma {:induction false} NamedHas<T>(first: nat, xs: seq<T>, h: nat)
    ensures h in Named(first, xs) <==> first <= h < first + |xs|
    ensures h in Named(first, xs) ==> Named(first, xs)[h] == xs[h - first]
  {
    if xs != [] {
      NamedHas(first, xs[..|xs| - 1], h);
    }
  }

  /** A heap without the given hops. */
  function Without<V>(h: HopHeap<V>, ps: seq<Ptr>): HopHeap<V> {
    h.(hops := h.hops - (set p | p in ps))
  }

  /** The copies occupy the next addresses in order and equal their originals; nothing else changes. */
  lemma {:induction false} CopiesAreEqualAndFresh<V>(h: HopHeap<V>, ps: seq<Ptr>)
    requires forall p :: p in h.hops ==> p < h.next
    requires forall i :: 0 <= i < |ps| ==> ps[i] in h.hops
    ensures var r := CopiedHops(h, ps);
            && (forall q :: q in r.hops <==> q in h.hops || h.next <= q < h.next + |ps|)
            && (forall q :: h.next <= q < h.next + |ps| ==> r.hops[q] == h.hops[ps[q - h.next]])
  {
    CopiesKeep(h, ps);
    if ps != [] {
      CopiesKeep(h, ps[..|ps| - 1]);
      CopiesAreEqualAndFresh(h, ps[..|ps| - 1]);
    }
  }

  lemma CopyIsEqualAndFresh<V>(h: HopHeap<V>, ps: seq<Ptr>, i: nat)
    requires forall p :: p in h.hops ==> p < h.next
    requires forall i :: 0 <= i < |ps| ==> ps[i] in h.hops
    requires i < |ps|
    ensures var q := h.next + i;
            q !in h.hops && q in CopiedHops(h, ps).hops && CopiedHops(h, ps).hops[q] == h.hops[ps[i]]
  {
    CopiesAreEqualAndFresh(h, ps);
  }

  lemma InIntervalIff(from: Ptr, n: nat, q: Ptr)
    ensures q in Interval(from, n) <==> from <= q < from + n
  {
    if from <= q < from + n {
      assert Interval(from, n)[q - from] == q;
    }
  }

  /** Freeing the copies again leaves the heap as it was, apart from the addresses used up. */
  lemma CopiesThenFreed<V>(h: HopHeap<V>, ps: seq<Ptr>)
    requires forall p :: p in h.hops ==> p < h.next
    requires forall i :: 0 <= i < |ps| ==> ps[i] in h.hops
    ensures Without(CopiedHops(h, ps), Interval(h.next, |ps|)) == h.(next := h.next + |ps|)
  {
    CopiesKeep(h, ps);
    CopiesAreEqualAndFresh(h, ps);
    var r := Without(CopiedHops(h, ps), Interval(h.next, |ps|));
    forall q: Ptr
      ensures q in r.hops <==> q in h.hops
    {
      InIntervalIff(h.next, |ps|, q);
    }
    assert r.hops == h.hops;
  }

  // ---------- the classes ----------

  class HopLibrary<V> {
    var heap: HopHeap<V>

    constructor ()
      ensures heap == HopHeap(map[], 1, false)
    {
      heap := HopHeap(map[], 1, false);
    }

    method Alloc(v: V) returns (q: Ptr)
      modifies this
      ensures (heap, q) == NewHop(old(heap), v)
    {
      q := heap.next;
      heap := NewHop(heap, v).0;
    }

    method Clone(p: Ptr, ok: bool) returns (q: Ptr)
      modifies this
      ensures (heap, q) == CloneHop(old(heap), p, ok)
    {
      q := CloneHop(heap, p, ok).1;
      heap := CloneHop(heap, p, ok).0;
    }

    method Free(p: Ptr)
      modifies this
      ensures heap == FreeHop(old(heap), p)
    {
      heap := FreeHop(heap, p);
    }
  }

  class NextHop<V> {
    const lib: HopLibrary<V>
    var nexthop: Ptr

    constructor TakeOwnership(lib: HopLibrary<V>, p: Ptr)
      ensures this.lib == lib && nexthop == p
    {
      this.lib, this.nexthop := lib, p;
    }

    /** `NextHop()`, which throws when the allocation fails. */
    static method Construct(lib: HopLibrary<V>, v: V, ok: bool) returns (r: NextHop?<V>)
      modifies lib
      ensures r == null <==> !ok
      ensures !ok ==> lib.heap == old(lib.heap)
      ensures ok ==> fresh(r) && r.lib == lib && (lib.heap, r.nexthop) == NewHop(old(lib.heap), v)
    {
      if !ok {
        return null;
      }
      var p := lib.Alloc(v);
      r := new NextHop<V>.TakeOwnership(lib, p);
    }

    /** Both copying constructors; a constructor that throws leaves no handle. */
    static method CreateCopy(lib: HopLibrary<V>, p: Ptr, ok: bool) returns (r: NextHop?<V>)
      modifies lib
      ensures lib.heap == CloneHop(old(lib.heap), p, ok).0
      ensures r == null <==> CloneHop(old(lib.heap), p, ok).1 == NULL
      ensures r != null ==> fresh(r) && r.lib == lib && r.nexthop == CloneHop(old(lib.heap), p, ok).1
    {
      var q := lib.Clone(p, ok);
      if q == NULL {
        return null;
      }
      r := new NextHop<V>.TakeOwnership(lib, q);
    }

    constructor Move(other: NextHop<V>)
      modifies other
      ensures lib == other.lib && nexthop == old(other.nexthop) && other.nexthop == NULL
    {
      lib, nexthop := other.lib, other.nexthop;
      new;
      other.nexthop := NULL;
    }

    /** On a failed clone the old hop is already gone and the handle is left null. */
    method CopyAssign(other: NextHop<V>, ok: bool) returns (thrown: bool)
      requires other.lib == lib
      modifies this, lib
      ensures this == other ==> !thrown && nexthop == old(nexthop) && lib.heap == old(lib.heap)
      ensures this != other ==>
                && (lib.heap, nexthop) == CloneHop(Discarded(old(lib.heap), old(nexthop)), other.nexthop, ok)
                && (thrown <==> nexthop == NULL)
    {
      thrown := false;
      if this != other {
        if nexthop != NULL {
          lib.Free(nexthop);
        }
        nexthop := lib.Clone(other.nexthop, ok);
        if nexthop == NULL {
          thrown := true;
        }
      }
    }

    method MoveAssign(other: NextHop<V>)
      requires other.lib == lib
      modifies this, other, lib
      ensures this == other ==> nexthop == old(nexthop) && lib.heap == old(lib.heap)
      ensures this != other ==>
                && lib.heap == Discarded(old(lib.heap), old(nexthop))
                && nexthop == old(other.nexthop) && other.nexthop == NULL
    {
      if this != other {
        if nexthop != NULL {
          lib.Free(nexthop);
        }
        nexthop := other.nexthop;
        other.nexthop := NULL;
      }
    }

    method Destroy()
      modifies lib
      ensures lib.heap == Discarded(old(lib.heap), nexthop)
    {
      if nexthop != NULL {
        lib.Free(nexthop);
      }
    }

    /** The setters of weight, interface and gateway: a new value of the hop. */
    method Set(v: V)
      modifies lib
      ensures lib.heap == WriteHop(old(lib.heap), nexthop, v)
    {
      lib.heap := WriteHop(lib.heap, nexthop, v);
    }

    method Take() returns (p: Ptr)
      modifies this
      ensures p == old(nexthop) && nexthop == NULL
    {
      p := nexthop;
      nexthop := NULL;
    }
  }

  /** A route object with libnl's list of its next hops. */
  class Route<V> {
    const lib: HopLibrary<V>
    var hops: seq<Ptr>

    constructor (lib: HopLibrary<V>)
      ensures this.lib == lib && hops == []
    {
      this.lib, this.hops := lib, [];
    }

    /** `rtnl_route_add_nexthop` */
    method Append(p: Ptr)
      modifies this, lib
      ensures hops == old(hops) + [p] && lib.heap == Linked(old(lib.heap), p)
    {
      hops := hops + [p];
      lib.heap := Linked(lib.heap, p);
    }

    method AddMove(nexthop: NextHop<V>)
      requires nexthop.lib == lib
      modifies this, lib, nexthop
      ensures nexthop.nexthop == NULL
      ensures hops == old(hops) + [old(nexthop.nexthop)]
      ensures lib.heap == Linked(old(lib.heap), old(nexthop.nexthop))
    {
      var p := nexthop.Take();
      Append(p);
    }

    /** The source is only read; a failed copy throws before the route is touched. */
    method AddCopy(nexthop: NextHop<V>, ok: bool) returns (thrown: bool)
      requires nexthop.lib == lib
      modifies this, lib
      ensures var made := CloneHop(old(lib.heap), nexthop.nexthop, ok);
              && (thrown <==> made.1 == NULL)
              && lib.heap == made.0
              && hops == (if thrown then old(hops) else old(hops) + [made.1])
    {
      var copy := NextHop.CreateCopy(lib, nexthop.nexthop, ok);
      if copy == null {
        return true;
      }
      AddMove(copy);
      copy.Destroy();
      thrown := false;
    }

    /** The list of hops as fresh handles.  `memory` is how many clones succeed; when one fails the
        exception destroys the copies made so far. */
    method Nexthops(memory: nat) returns (result: seq<NextHop<V>>, thrown: bool)
      requires 0 < lib.heap.next && forall q :: q in lib.heap.hops ==> 0 < q < lib.heap.next
      requires forall i :: 0 <= i < |hops| ==> hops[i] in lib.heap.hops
      modifies lib
      ensures thrown <==> memory < |hops|
      ensures thrown ==> result == [] && lib.heap == old(lib.heap).(next := old(lib.heap).next + memory)
      ensures !thrown ==> lib.heap == CopiedHops(old(lib.heap), hops)
      ensures !thrown ==> |result| == |hops| && FreshHandles(result, old(lib.heap).next)
      ensures forall k :: 0 <= k < |result| ==> fresh(result[k])
    {
      result := CopyWhile(memory);
      thrown := |result| < |hops|;
      if thrown {
        DestroyCopies(result, old(lib.heap), hops[..|result|]);
        result := [];
      } else {
        assert hops[..|result|] == hops;
      }
    }

    /** The loop over the hops, up to its end or to the first clone that fails. */
    method CopyWhile(memory: nat) returns (result: seq<NextHop<V>>)
      requires 0 < lib.heap.next && forall q :: q in lib.heap.hops ==> 0 < q < lib.heap.next
      requires forall i :: 0 <= i < |hops| ==> hops[i] in lib.heap.hops
      modifies lib
      ensures |result| == if memory < |hops| then memory else |hops|
      ensures lib.heap == CopiedHops(old(lib.heap), hops[..|result|])
      ensures FreshHandles(result, old(lib.heap).next) && forall k :: 0 <= k < |result| ==> fresh(result[k])
    {
      result := [];
      ghost var before := lib.heap;
      while |result| < |hops|
        invariant |result| <= |hops| && |result| <= memory
        invariant lib.heap == CopiedHops(before, hops[..|result|])
        invariant FreshHandles(result, before.next)
        invariant forall k :: 0 <= k < |result| ==> fresh(result[k])
      {
        var i := |result|;
        CopyNext(before, hops, i);
        var copy := NextHop.CreateCopy(lib, hops[i], i < memory);
        if copy == null {
          break;
        }
        result := result + [copy];
      }
    }

    /** The exception leaves the vector, and every copy made so far is freed. */
    method DestroyCopies(handles: seq<NextHop<V>>, ghost before: HopHeap<V>, ghost ps: seq<Ptr>)
      requires 0 < before.next && forall q :: q in before.hops ==> q < before.next
      requires forall i :: 0 <= i < |ps| ==> ps[i] in before.hops
      requires lib.heap == CopiedHops(before, ps)
      requires |handles| == |ps| && FreshHandles(handles, before.next)
      modifies lib
      ensures lib.heap == before.(next := before.next + |ps|)
    {
      CopiesAreEqualAndFresh(before, ps);
      CopiesThenFreed(before, ps);
      DestroyAll(handles, before.next);
    }

    /** Distinct handles on consecutive hops. */
    ghost predicate FreshHandles(handles: seq<NextHop<V>>, from: Ptr)
      reads handles
    {
      && (forall k :: 0 <= k < |handles| ==> handles[k].lib == lib && handles[k].nexthop == from + k)
      && (forall j, k :: 0 <= j < k < |handles| ==> handles[j] != handles[k])
    }

    method DestroyAll(handles: seq<NextHop<V>>, ghost from: Ptr)
      requires 0 < from && FreshHandles(handles, from)
      requires forall q :: from <= q < from + |handles| ==> q in lib.heap.hops
      modifies lib
      ensures lib.heap == Without(old(lib.heap), Interval(from, |handles|))
    {
      ghost var all := Interval(from, |handles|);
      var k := 0;
      while k < |handles|
        invariant 0 <= k <= |handles|
        invariant lib.heap == Without(old(lib.heap), all[..k])
      {
        FreeNext(old(lib.heap), all, k);
        handles[k].Destroy();
        k := k + 1;
      }
      assert all[..k] == all;
    }

    lemma FreeNext(h: HopHeap<V>, ps: seq<Ptr>, k: nat)
      requires k < |ps| && forall i, j :: 0 <= i < j < |ps| ==> ps[i] != ps[j]
      requires ps[k] in h.hops
      ensures FreeHop(Without(h, ps[..k]), ps[k]) == Without(h, ps[..k + 1])
    {
      assert ps[k] !in ps[..k];
      assert ps[..k + 1] == ps[..k] + [ps[k]];
      assert FreeHop(Without(h, ps[..k]), ps[k]).hops == Without(h, ps[..k + 1]).hops;
    }

    /** libnl frees the hops with the route; the route itself is counted in `Handles`. */
    method Free()
      modifies this, lib
      requires forall i, j :: 0 <= i < j < |hops| ==> hops[i] != hops[j]
      requires forall p :: p in hops ==> p in lib.heap.hops
      ensures hops == [] && lib.heap == Without(old(lib.heap), old(hops))
    {
      var i := 0;
      while i < |hops|
        invariant 0 <= i <= |hops| && hops == old(hops)
        invariant lib.heap == Without(old(lib.heap), hops[..i])
      {
        FreeNext(old(lib.heap), hops, i);
        lib.Free(hops[i]);
        i := i + 1;
      }
      assert hops[..i] == hops;
      hops := [];
    }
  }
}
