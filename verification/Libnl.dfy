/** The assumed environment: libnl's reference-counted objects.

    A pointer is a number and `NULL` is 0.  A reference to an object that does not exist (never
    allocated, already freed, or null where libnl dereferences it) sets `fault`, which no operation
    clears again.  Addresses are never handed out twice, so a stale pointer stays stale. */
module Libnl {

  type Ptr = nat
  const NULL: Ptr := 0

  datatype Object<V> = Object(refs: nat, value: V)
  datatype Heap<V> = Heap(objs: map<Ptr, Object<V>>, next: Ptr, fault: bool)

  predicate WellFormed<V>(h: Heap<V>) {
    && 0 < h.next
    && forall p :: p in h.objs ==> 0 < p < h.next && 0 < h.objs[p].refs
  }

  function Refs<V>(h: Heap<V>, p: Ptr): nat {
    if p in h.objs then h.objs[p].refs else 0
  }

  /** `nl_object_get`, `nl_addr_get`, `nl_cache_get`, `nlmsg_get`: dereference, then count up. */
  function GetRef<V>(h: Heap<V>, p: Ptr): Heap<V> {
    if p in h.objs then h.(objs := h.objs[p := h.objs[p].(refs := h.objs[p].refs + 1)])
    else h.(fault := true)
  }

  /** `nl_object_put` and its relatives: nothing on null; frees the object with its last reference. */
  function PutRef<V>(h: Heap<V>, p: Ptr): Heap<V> {
    if p == NULL then h
    else if p !in h.objs then h.(fault := true)
    else if h.objs[p].refs <= 1 then h.(objs := h.objs - {p})
    else h.(objs := h.objs[p := h.objs[p].(refs := h.objs[p].refs - 1)])
  }

  /** A new object with one reference, held by whoever asked for it. */
  function Alloc<V>(h: Heap<V>, v: V): (Heap<V>, Ptr) {
    (h.(objs := h.objs[h.next := Object(1, v)], next := h.next + 1), h.next)
  }

  /** `nl_addr_clone`, `nl_cache_clone`: a fresh equal object, or null when out of memory. */
  function Clone<V>(h: Heap<V>, p: Ptr, ok: bool): (Heap<V>, Ptr) {
    if p !in h.objs then (h.(fault := true), NULL)
    else if ok then Alloc(h, h.objs[p].value)
    else (h, NULL)
  }

  /** A setter writing through a pointer, as `nl_addr_set_prefixlen` does. */
  function Write<V>(h: Heap<V>, p: Ptr, v: V): Heap<V> {
    if p in h.objs then h.(objs := h.objs[p := h.objs[p].(value := v)]) else h.(fault := true)
  }

  /** Taking a reference and dropping it again restores every count and frees nothing. */
  lemma GetThenPut<V>(h: Heap<V>, p: Ptr)
    requires WellFormed(h) && p in h.objs
    ensures PutRef(GetRef(h, p), p) == h
  {
    assert PutRef(GetRef(h, p), p).objs == h.objs;
  }

  /** Dropping one reference and taking another commute as long as the dropped one is not the last. */
  lemma ExchangeRefs<V>(h: Heap<V>, p: Ptr, q: Ptr)
    requires WellFormed(h) && p in h.objs && q in h.objs
    ensures PutRef(GetRef(GetRef(h, p), q), p) == GetRef(h, q)
  {
    assert PutRef(GetRef(GetRef(h, p), q), p).objs == GetRef(h, q).objs;
  }

  /** The library as the program sees it: one heap, changed in place. */
  class Library<V> {
    var heap: Heap<V>

    constructor ()
      ensures heap == Heap(map[], 1, false)
    {
      heap := Heap(map[], 1, false);
    }

    method Get(p: Ptr)
      modifies this
      ensures heap == GetRef(old(heap), p)
    {
      heap := GetRef(heap, p);
    }

    method Put(p: Ptr)
      modifies this
      ensures heap == PutRef(old(heap), p)
    {
      heap := PutRef(heap, p);
    }

    method New(v: V) returns (p: Ptr)
      modifies this
      ensures (heap, p) == Alloc(old(heap), v)
    {
      p := heap.next;
      heap := Alloc(heap, v).0;
    }

    method Copy(q: Ptr, ok: bool) returns (p: Ptr)
      modifies this
      ensures (heap, p) == Clone(old(heap), q, ok)
    {
      p := Clone(heap, q, ok).1;
      heap := Clone(heap, q, ok).0;
    }
  }
}
