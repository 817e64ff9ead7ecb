/** Filtered iteration over a cache: `TypedCache::Iterator` and `TypedCache::Filtered`. */
module Iteration {
  import opened Libnl
  import opened Handles
  import opened Options
  import opened Enumeration

  /** Attributes set on an object, as numbers. */
  type Attrs = map<nat, int>

  /** libnl's loose comparison: what the filter sets, the object has, with the same value. */
  predicate Matches(obj: Attrs, filter: Attrs) {
    forall a :: a in filter ==> a in obj && obj[a] == filter[a]
  }

  /** A cached object; the cache holds one reference on each. */
  datatype Entry = Entry(ptr: Ptr, attrs: Attrs)

  function Ptrs(cache: seq<Entry>): seq<Ptr> {
    seq(|cache|, i requires 0 <= i < |cache| => cache[i].ptr)
  }

  ghost predicate InHeap(h: Heap<Attrs>, cache: seq<Entry>) {
    && WellFormed(h)
    && (forall e :: e in cache ==> e.ptr in h.objs && h.objs[e.ptr].value == e.attrs)
    && (forall i, j :: 0 <= i < j < |cache| ==> cache[i].ptr != cache[j].ptr)
  }

  ghost predicate InCache(cache: seq<Entry>, p: Ptr) {
    exists i :: 0 <= i < |cache| && cache[i].ptr == p
  }

  lemma InHeapAddRef(h: Heap<Attrs>, cache: seq<Entry>, p: Ptr)
    requires InHeap(h, cache) && (p == NULL || p in h.objs)
    ensures InHeap(AddRef(h, p), cache)
  {
  }

  lemma CachedIsInHeap(h: Heap<Attrs>, cache: seq<Entry>, p: Ptr)
    requires InHeap(h, cache) && (p == NULL || InCache(cache, p))
    ensures p == NULL || p in h.objs
  {
    if p != NULL {
      var i :| 0 <= i < |cache| && cache[i].ptr == p;
      assert cache[i] in cache;
    }
  }

  /** What a filtered iteration should produce. */
  function Select(cache: seq<Entry>, filter: Attrs): seq<Entry> {
    if cache == [] then []
    else (if Matches(cache[0].attrs, filter) then [cache[0]] else []) + Select(cache[1..], filter)
  }

  // ---------- libnl's list of cached objects ----------

  function First(cache: seq<Entry>): Ptr {
    if cache == [] then NULL else cache[0].ptr
  }

  /** The entries behind the object `p`. */
  function After(cache: seq<Entry>, p: Ptr): seq<Entry> {
    if cache == [] then [] else if cache[0].ptr == p then cache[1..] else After(cache[1..], p)
  }

  function FirstMatch(cache: seq<Entry>, filter: Attrs): Ptr {
    if cache == [] then NULL
    else if Matches(cache[0].attrs, filter) then cache[0].ptr
    else FirstMatch(cache[1..], filter)
  }

  /** In the loop of the increments, which tests the filter pointer first, a null one selects everything,
      as the empty filter does.  `begin()` on a filtered cache has no such test. */
  function FilterValue(h: Heap<Attrs>, f: Ptr): Attrs {
    if f in h.objs then h.objs[f].value else map[]
  }

  function AddRef(h: Heap<Attrs>, p: Ptr): Heap<Attrs> { Shared(ObjectKind, h, p) }

  /** `nl_cache_get_next`: reads the object's list link. */
  method GetNext(lib: Library<Attrs>, cache: seq<Entry>, p: Ptr) returns (next: Ptr)
    modifies lib
    ensures next == First(After(cache, p))
    ensures lib.heap == if p == NULL then old(lib.heap).(fault := true) else old(lib.heap)
    requires forall e :: e in cache ==> e.ptr != NULL
  {
    if p == NULL {
      lib.heap := lib.heap.(fault := true);
      AfterAbsent(cache, p);
    }
    next := First(After(cache, p));
  }

  /** `nl_object_match_filter`: reads both objects. */
  method MatchFilter(lib: Library<Attrs>, p: Ptr, f: Ptr) returns (b: bool)
    modifies lib
    ensures p in old(lib.heap).objs && f in old(lib.heap).objs ==>
              && lib.heap == old(lib.heap)
              && b == Matches(lib.heap.objs[p].value, lib.heap.objs[f].value)
    ensures p !in old(lib.heap).objs || f !in old(lib.heap).objs ==>
              !b && lib.heap == old(lib.heap).(fault := true)
  {
    if p in lib.heap.objs && f in lib.heap.objs {
      b := Matches(lib.heap.objs[p].value, lib.heap.objs[f].value);
    } else {
      b := false;
      lib.heap := lib.heap.(fault := true);
    }
  }

  // ---------- facts about the list ----------

  lemma {:induction false} AfterAbsent(cache: seq<Entry>, p: Ptr)
    requires forall e :: e in cache ==> e.ptr != p
    ensures After(cache, p) == []
  {
    if cache != [] {
      AfterAbsent(cache[1..], p);
    }
  }

  lemma {:induction false} AfterAt(cache: seq<Entry>, i: nat)
    requires i < |cache|
    requires forall i, j :: 0 <= i < j < |cache| ==> cache[i].ptr != cache[j].ptr
    ensures After(cache, cache[i].ptr) == cache[i + 1..]
  {
    if 0 < i {
      AfterAt(cache[1..], i - 1);
    }
  }

  lemma AfterIsTail(cache: seq<Entry>, p: Ptr) returns (k: nat)
    requires forall e :: e in cache ==> e.ptr != NULL
    requires forall i, j :: 0 <= i < j < |cache| ==> cache[i].ptr != cache[j].ptr
    requires p != NULL ==> InCache(cache, p)
    ensures k <= |cache| && After(cache, p) == cache[k..]
    ensures p != NULL ==> 0 < k
    ensures k < |cache| ==> cache[k] in cache
  {
    if p == NULL {
      AfterAbsent(cache, p);
      k := |cache|;
    } else {
      var i :| 0 <= i < |cache| && cache[i].ptr == p;
      AfterAt(cache, i);
      k := i + 1;
    }
  }

  /** The first match and the rest after it make up the selection. */
  lemma {:induction false} SelectFromFirstMatch(cache: seq<Entry>, filter: Attrs)
    requires forall e :: e in cache ==> e.ptr != NULL
    requires forall i, j :: 0 <= i < j < |cache| ==> cache[i].ptr != cache[j].ptr
    ensures var q := FirstMatch(cache, filter);
            Ptrs(Select(cache, filter)) ==
            if q == NULL then [] else [q] + Ptrs(Select(After(cache, q), filter))
    ensures FirstMatch(cache, filter) != NULL ==> InCache(cache, FirstMatch(cache, filter))
  {
    if cache != [] {
      if !Matches(cache[0].attrs, filter) {
        SelectFromFirstMatch(cache[1..], filter);
        var q := FirstMatch(cache, filter);
        if q != NULL {
          var i :| 0 <= i < |cache[1..]| && cache[1..][i].ptr == q;
          assert cache[i + 1].ptr == q;
        }
      } else {
        assert cache[0].ptr == FirstMatch(cache, filter);
      }
    }
  }

  /** Skipping within a tail of the cache stays within the same cache. */
  lemma AfterAfter(cache: seq<Entry>, p: Ptr, filter: Attrs)
    requires forall e :: e in cache ==> e.ptr != NULL
    requires forall i, j :: 0 <= i < j < |cache| ==> cache[i].ptr != cache[j].ptr
    requires InCache(cache, p)
    ensures var q := FirstMatch(After(cache, p), filter);
            && |After(cache, p)| < |cache|
            && (q != NULL ==>
                  && InCache(cache, q)
                  && After(After(cache, p), q) == After(cache, q)
                  && |After(cache, q)| < |After(cache, p)|)
            && Ptrs(Select(After(cache, p), filter)) ==
               if q == NULL then [] else [q] + Ptrs(Select(After(cache, q), filter))
  {
    var k := AfterIsTail(cache, p);
    var tail := cache[k..];
    SelectFromFirstMatch(tail, filter);
    var q := FirstMatch(tail, filter);
    if q != NULL {
      var j :| 0 <= j < |tail| && tail[j].ptr == q;
      AfterInTail(cache, k, j);
    }
  }

  lemma AfterInTail(cache: seq<Entry>, k: nat, j: nat)
    requires forall i, j :: 0 <= i < j < |cache| ==> cache[i].ptr != cache[j].ptr
    requires k + j < |cache|
    ensures var q := cache[k..][j].ptr;
            InCache(cache, q) && After(cache[k..], q) == After(cache, q) && |After(cache, q)| < |cache| - k
  {
    assert cache[k..][j] == cache[k + j];
    AfterAt(cache[k..], j);
    AfterAt(cache, k + j);
    assert cache[k..][j + 1..] == cache[k + j + 1..];
  }

  /** A pointer is null or refers to a live object. */
  predicate NullOrAlive(h: Heap<Attrs>, p: Ptr) { p == NULL || p in h.objs }

  lemma ShareBoth(h: Heap<Attrs>, p: Ptr, f: Ptr)
    requires WellFormed(h) && NullOrAlive(h, f) && NullOrAlive(h, p)
    ensures AddRef(AddRef(h, p), f) == AddRef(AddRef(h, f), p)
  {
    assert AddRef(AddRef(h, p), f).objs == AddRef(AddRef(h, f), p).objs;
  }

  lemma AddThenPut(h: Heap<Attrs>, p: Ptr)
    requires WellFormed(h) && NullOrAlive(h, p)
    ensures PutRef(AddRef(h, p), p) == h
  {
    if p != NULL {
      GetThenPut(h, p);
    }
  }

  lemma FirstIsCached(h: Heap<Attrs>, cache: seq<Entry>)
    requires InHeap(h, cache)
    ensures cache == [] <==> First(cache) == NULL
    ensures cache != [] ==>
              && InCache(cache, First(cache))
              && First(cache) in h.objs && h.objs[First(cache)].value == cache[0].attrs
  {
    if cache != [] {
      assert cache[0] in cache;
    }
  }

  lemma Exchange(h: Heap<Attrs>, p: Ptr, q: Ptr)
    requires WellFormed(h) && (p == NULL || p in h.objs) && (q == NULL || q in h.objs)
    ensures p != NULL ==> PutRef(AddRef(AddRef(h, p), q), p) == AddRef(h, q)
  {
    if p != NULL {
      if q == NULL {
        GetThenPut(h, p);
      } else {
        ExchangeRefs(h, p, q);
      }
    }
  }

  /** The references `it++` takes and the ones the returned iterator drops. */
  lemma PostThenDestroy(base: Heap<Attrs>, p: Ptr, q: Ptr, f: Ptr)
    requires WellFormed(base) && p in base.objs && NullOrAlive(base, q) && NullOrAlive(base, f)
    ensures PutRef(PutRef(AddRef(AddRef(AddRef(base, p), q), f), f), p) == AddRef(base, q)
  {
    AddThenPut(AddRef(AddRef(base, p), q), f);
    Exchange(base, p, q);
  }

  /** What is still to come for an iterator standing on `p`. */
  function Remaining(cache: seq<Entry>, p: Ptr, filter: Attrs): seq<Ptr> {
    if p == NULL then [] else [p] + Ptrs(Select(After(cache, p), filter))
  }

  lemma RemainingFromFirst(cache: seq<Entry>, filter: Attrs)
    requires forall e :: e in cache ==> e.ptr != NULL
    requires forall i, j :: 0 <= i < j < |cache| ==> cache[i].ptr != cache[j].ptr
    ensures Remaining(cache, FirstMatch(cache, filter), filter) == Ptrs(Select(cache, filter))
  {
    SelectFromFirstMatch(cache, filter);
  }

  /** A spare object allocated and freed around anything else. */
  lemma AllocAround(base: Heap<Attrs>, p: Ptr, v: Attrs)
    requires WellFormed(base) && (p == NULL || p in base.objs)
    ensures Alloc(AddRef(base, p), v).0 == AddRef(Alloc(base, v).0, p)
    ensures PutRef(Alloc(base, v).0, base.next) == base.(next := base.next + 1)
  {
    assert Alloc(AddRef(base, p), v).0.objs == AddRef(Alloc(base, v).0, p).objs;
    assert PutRef(Alloc(base, v).0, base.next).objs == base.objs;
  }

  // ---------- the iterator ----------

  class Iterator {
    const lib: Library<Attrs>
    const cache: seq<Entry>
    var obj: Handle<Attrs>
    var filter: Handle<Attrs>

    ghost predicate Valid()
      reads this, obj, filter, lib
    {
      && obj != filter && obj.lib == lib && filter.lib == lib
      && obj.kind == ObjectKind && filter.kind == ObjectKind
      && InHeap(lib.heap, cache)
      && (obj.ptr != NULL ==> InCache(cache, obj.ptr))
      && (filter.ptr != NULL ==> filter.ptr in lib.heap.objs)
    }

    constructor (lib: Library<Attrs>, cache: seq<Entry>, obj: Handle<Attrs>, filter: Handle<Attrs>)
      ensures this.lib == lib && this.cache == cache && this.obj == obj && this.filter == filter
    {
      this.lib, this.cache, this.obj, this.filter := lib, cache, obj, filter;
    }

    /** `Iterator(nl_object *)`: the filter member is default constructed, an empty object of its own.
        When that allocation throws, the already built `obj` is destroyed. */
    static method Plain(lib: Library<Attrs>, cache: seq<Entry>, p: Ptr, ok: bool) returns (r: Iterator?)
      requires InHeap(lib.heap, cache)
      requires p != NULL ==> InCache(cache, p)
      modifies lib
      ensures r == null <==> !ok
      ensures r == null ==> lib.heap == old(lib.heap)
      ensures r != null ==>
                && fresh(r) && fresh(r.obj) && fresh(r.filter) && r.lib == lib && r.cache == cache
                && r.obj.ptr == p && r.filter.ptr == old(lib.heap).next
                && r.Over(Alloc(old(lib.heap), map[]).0)
    {
      ghost var h := lib.heap;
      var o := new Handle<Attrs>.Share(lib, ObjectKind, p);
      var f := Handle.Construct(lib, ObjectKind, map[], ok);
      if f == null {
        CachedIsInHeap(h, cache, p);
        AddThenPut(h, p);
        o.Destroy();
        return null;
      }
      CachedIsInHeap(h, cache, p);
      AllocAround(h, p, map[]);
      InHeapAddRef(Alloc(h, map[]).0, cache, p);
      r := new Iterator(lib, cache, o, f);
    }

    /** `Iterator(nl_object *, nl_object *)`, which moves on at once from an object that does not match.
        The match test reads both pointers, so it faults when there is no first object, and when the
        filter was moved from.  */
    static method Filtering(lib: Library<Attrs>, cache: seq<Entry>, p: Ptr, f: Ptr) returns (r: Iterator)
      requires InHeap(lib.heap, cache) && p == First(cache) && NullOrAlive(lib.heap, f)
      modifies lib
      ensures fresh(r) && fresh(r.obj) && fresh(r.filter) && r.lib == lib && r.cache == cache && r.Valid()
      ensures r.filter.ptr == f
      ensures r.obj.ptr == FirstMatch(if f == NULL then After(cache, p) else cache, FilterValue(old(lib.heap), f))
      ensures r.Over(AddRef(old(lib.heap), f).(fault := old(lib.heap).fault || cache == [] || f == NULL))
    {
      ghost var h := lib.heap;
      ghost var base := AddRef(h, f).(fault := h.fault || cache == [] || f == NULL);
      InHeapAddRef(h, cache, f);
      var o := new Handle<Attrs>.Share(lib, ObjectKind, p);
      var g := new Handle<Attrs>.Share(lib, ObjectKind, f);
      r := new Iterator(lib, cache, o, g);
      FirstIsCached(h, cache);
      ShareBoth(h, p, f);
      InHeapAddRef(base, cache, p);
      var b := MatchFilter(lib, p, f);
      if !b {
        if cache == [] {
          r.Increment();
        } else {
          r.IncrementOver(base);
          assert After(cache, p) == cache[1..];
        }
      }
    }

    /** The loop both increments start with. */
    method Advance() returns (next: Ptr)
      requires Valid()
      modifies lib
      ensures lib.heap == if obj.ptr == NULL then old(lib.heap).(fault := true) else old(lib.heap)
      ensures next == FirstMatch(After(cache, obj.ptr), FilterValue(lib.heap, filter.ptr))
    {
      var rawFilter := filter.ptr;
      ghost var f := FilterValue(lib.heap, rawFilter);
      ghost var k := AfterIsTail(cache, obj.ptr);
      next := GetNext(lib, cache, obj.ptr);
      ghost var h := lib.heap;
      while next != NULL && rawFilter != NULL && !Matches(lib.heap.objs[next].value, lib.heap.objs[rawFilter].value)
        invariant 0 <= k <= |cache| && next == First(cache[k..])
        invariant FirstMatch(After(cache, obj.ptr), f) == FirstMatch(cache[k..], f)
        invariant lib.heap == h
        invariant next != NULL ==> k < |cache| && next in h.objs && h.objs[next].value == cache[k].attrs
        decreases |cache| - k
      {
        AfterAt(cache, k);
        next := GetNext(lib, cache, next);
        k := k + 1;
        assert k < |cache| ==> cache[k] in cache;
      }
    }

    /** `++it` */
    method Increment()
      requires Valid()
      modifies obj, lib
      ensures obj.ptr == FirstMatch(After(cache, old(obj.ptr)), FilterValue(old(lib.heap), filter.ptr))
      ensures old(obj.ptr) != NULL ==>
                lib.heap == PutRef(AddRef(old(lib.heap), obj.ptr), old(obj.ptr))
      ensures old(obj.ptr) == NULL ==> obj.ptr == NULL && lib.heap == old(lib.heap).(fault := true)
    {
      if obj.ptr == NULL {
        AfterAbsent(cache, NULL);
      }
      var next := Advance();
      var temporary := new Handle<Attrs>.Share(lib, ObjectKind, next);
      obj.MoveAssign(temporary);
      temporary.Destroy();
    }

    /** A valid iterator on top of a heap: its only reference on a cached object is the current one. */
    ghost predicate Over(base: Heap<Attrs>)
      reads this, obj, filter, lib
    {
      Valid() && InHeap(base, cache) && NullOrAlive(base, filter.ptr) && lib.heap == AddRef(base, obj.ptr)
    }

    method IncrementOver(ghost base: Heap<Attrs>)
      requires Over(base) && obj.ptr != NULL
      modifies obj, lib
      ensures Over(base) && filter.ptr == old(filter.ptr)
      ensures obj.ptr == FirstMatch(After(cache, old(obj.ptr)), FilterValue(base, filter.ptr))
      ensures Remaining(cache, old(obj.ptr), FilterValue(base, filter.ptr)) ==
              [old(obj.ptr)] + Remaining(cache, obj.ptr, FilterValue(base, filter.ptr))
    {
      AfterAfter(cache, obj.ptr, FilterValue(base, filter.ptr));
      Increment();
      CachedIsInHeap(base, cache, obj.ptr);
      CachedIsInHeap(base, cache, old(obj.ptr));
      Exchange(base, old(obj.ptr), obj.ptr);
      InHeapAddRef(base, cache, obj.ptr);
    }

    /** `it++` */
    method PostIncrement() returns (r: Iterator)
      requires Valid() && obj.ptr != NULL
      modifies obj, filter, lib
      ensures fresh(r) && fresh(r.obj) && fresh(r.filter) && r.lib == lib && r.cache == cache
      ensures Valid() && r.Valid()
      ensures r.obj.ptr == old(obj.ptr) && r.filter.ptr == old(filter.ptr)
      ensures obj.ptr == FirstMatch(After(cache, old(obj.ptr)), FilterValue(old(lib.heap), filter.ptr))
      ensures filter.ptr == old(filter.ptr)
      ensures lib.heap == AddRef(AddRef(old(lib.heap), obj.ptr), filter.ptr)
    {
      ghost var h := lib.heap;
      AfterAfter(cache, obj.ptr, FilterValue(h, filter.ptr));
      var next := Advance();
      var rawFilter := filter.ptr;
      CachedIsInHeap(h, cache, next);
      InHeapAddRef(h, cache, next);
      InHeapAddRef(AddRef(h, next), cache, rawFilter);
      r := MoveOut(next, rawFilter);
    }

    /** The second half of `it++`: the old handles move into the returned iterator, and this one shares
        both pointers anew. */
    method MoveOut(next: Ptr, rawFilter: Ptr) returns (r: Iterator)
      requires obj != filter && obj.lib == lib && filter.lib == lib
      requires obj.kind == ObjectKind && filter.kind == ObjectKind && filter.ptr == rawFilter
      modifies obj, filter, lib
      ensures fresh(r) && fresh(r.obj) && fresh(r.filter) && r.obj != r.filter && r.lib == lib && r.cache == cache
      ensures r.obj.lib == lib && r.filter.lib == lib && r.obj.kind == ObjectKind && r.filter.kind == ObjectKind
      ensures r.obj.ptr == old(obj.ptr) && r.filter.ptr == rawFilter
      ensures obj.ptr == next && filter.ptr == rawFilter
      ensures lib.heap == AddRef(AddRef(old(lib.heap), next), rawFilter)
    {
      var o := new Handle<Attrs>.Move(obj);
      var f := new Handle<Attrs>.Move(filter);
      r := new Iterator(lib, cache, o, f);
      var temporary := new Handle<Attrs>.Share(lib, ObjectKind, next);
      obj.MoveAssign(temporary);
      temporary.Destroy();
      temporary := new Handle<Attrs>.Share(lib, ObjectKind, rawFilter);
      filter.MoveAssign(temporary);
      temporary.Destroy();
    }

    /** `*it++`: the object passed over, after the returned iterator has died.  All is as after `++it`. */
    method PostIncrementOver(ghost base: Heap<Attrs>) returns (visited: Ptr)
      requires Over(base) && obj.ptr != NULL
      modifies obj, filter, lib
      ensures Over(base) && visited == old(obj.ptr) && filter.ptr == old(filter.ptr)
      ensures obj.ptr == FirstMatch(After(cache, old(obj.ptr)), FilterValue(base, filter.ptr))
      ensures Remaining(cache, old(obj.ptr), FilterValue(base, filter.ptr)) ==
              [old(obj.ptr)] + Remaining(cache, obj.ptr, FilterValue(base, filter.ptr))
    {
      AfterAfter(cache, obj.ptr, FilterValue(base, filter.ptr));
      CachedIsInHeap(base, cache, obj.ptr);
      var previous := PostIncrement();
      visited := previous.obj.ptr;
      CachedIsInHeap(base, cache, obj.ptr);
      PostThenDestroy(base, visited, obj.ptr, filter.ptr);
      previous.Destroy();
      InHeapAddRef(base, cache, obj.ptr);
    }

    method Destroy()
      modifies lib
      requires obj.lib == lib && filter.lib == lib
      ensures lib.heap == PutRef(PutRef(old(lib.heap), filter.ptr), obj.ptr)
    {
      filter.Destroy();
      obj.Destroy();
    }
  }

  // ---------- whole iterations ----------

  /** The body of a range-based `for`, recording what it is given.  `base` is the heap without the
      loop variable's reference; the iterator holds exactly one reference on its current object
      throughout, so the heap is `base` again when it has reached the end. */
  method Loop(it: Iterator, end: Iterator, ghost base: Heap<Attrs>) returns (visited: seq<Ptr>)
    requires it.Over(base)
    requires it.obj != end.obj && end.obj.ptr == NULL
    requires it.lib as object != end && it.lib as object != end.obj
    modifies it.obj, it.lib
    ensures it.obj.ptr == NULL && it.lib.heap == base
    ensures visited == Remaining(it.cache, old(it.obj.ptr), FilterValue(base, it.filter.ptr))
  {
    ghost var f := FilterValue(base, it.filter.ptr);
    ghost var all := Remaining(it.cache, it.obj.ptr, f);
    ghost var rest := all;
    visited := [];
    while it.obj.ptr != end.obj.ptr
      invariant it.Over(base) && end.obj.ptr == NULL && it.filter.ptr == old(it.filter.ptr)
      invariant rest == Remaining(it.cache, it.obj.ptr, f) && visited + rest == all
      decreases |rest|
    {
      var p := it.obj.ptr;
      it.IncrementOver(base);
      rest := Remaining(it.cache, it.obj.ptr, f);
      OneVisited(visited, p, rest);
      visited := visited + [p];
    }
  }

  lemma OneVisited(visited: seq<Ptr>, p: Ptr, rest: seq<Ptr>)
    ensures visited + ([p] + rest) == (visited + [p]) + rest
    ensures |[p] + rest| == 1 + |rest|
  {
  }

  /** The same loop written with `*it++`. */
  method LoopWithPostIncrement(it: Iterator, end: Iterator, ghost base: Heap<Attrs>) returns (visited: seq<Ptr>)
    requires it.Over(base)
    requires it.obj != end.obj && it.filter != end.obj && end.obj.ptr == NULL
    requires it.lib as object != end && it.lib as object != end.obj
    modifies it.obj, it.filter, it.lib
    ensures it.obj.ptr == NULL && it.lib.heap == base && it.filter.ptr == old(it.filter.ptr)
    ensures visited == Remaining(it.cache, old(it.obj.ptr), FilterValue(base, it.filter.ptr))
  {
    ghost var f := FilterValue(base, it.filter.ptr);
    ghost var all := Remaining(it.cache, it.obj.ptr, f);
    ghost var rest := all;
    visited := [];
    while it.obj.ptr != end.obj.ptr
      invariant it.Over(base) && end.obj.ptr == NULL && it.filter.ptr == old(it.filter.ptr)
      invariant rest == Remaining(it.cache, it.obj.ptr, f) && visited + rest == all
      decreases |rest|
    {
      var p := it.PostIncrementOver(base);
      rest := Remaining(it.cache, it.obj.ptr, f);
      OneVisited(visited, p, rest);
      visited := visited + [p];
    }
  }

  lemma PutObjAndFilter(base: Heap<Attrs>, p: Ptr, f: Ptr)
    requires WellFormed(base) && NullOrAlive(base, f) && NullOrAlive(base, p)
    ensures PutRef(PutRef(AddRef(base, p), f), p) == PutRef(base, f)
  {
    assert PutRef(PutRef(AddRef(base, p), f), p).objs == PutRef(base, f).objs;
  }

  lemma PutFilterEarly(base: Heap<Attrs>, p: Ptr, f: Ptr)
    requires WellFormed(base) && NullOrAlive(base, f) && NullOrAlive(base, p)
    ensures PutRef(AddRef(AddRef(base, f), p), f) == AddRef(base, p)
  {
    assert PutRef(AddRef(AddRef(base, f), p), f).objs == AddRef(base, p).objs;
  }

  lemma HeapAtTheEnd(base: Heap<Attrs>, f: Ptr)
    requires WellFormed(base) && NullOrAlive(base, f)
    ensures var spare := Alloc(base, map[]).0;
            PutRef(PutRef(PutRef(PutRef(spare, base.next), NULL), f), NULL) ==
            PutRef(base, f).(next := base.next + 1)
  {
    AllocAround(base, NULL, map[]);
  }

  /** From an iterator just made by `begin()`: make `end()`, loop, destroy both.  When `end()` throws
      the iterator is destroyed all the same. */
  method LoopToEnd(it: Iterator, ok: bool, ghost base: Heap<Attrs>) returns (visited: seq<Ptr>, thrown: bool)
    requires it.Over(base)
    modifies it.obj, it.lib
    ensures thrown <==> !ok
    ensures !thrown ==> visited == Remaining(it.cache, old(it.obj.ptr), FilterValue(base, it.filter.ptr))
    ensures it.lib.heap == PutRef(base, it.filter.ptr).(next := base.next + if ok then 1 else 0)
  {
    CachedIsInHeap(base, it.cache, it.obj.ptr);
    var end := Iterator.Plain(it.lib, it.cache, NULL, ok);
    if end == null {
      PutObjAndFilter(base, it.obj.ptr, it.filter.ptr);
      it.Destroy();
      return [], true;
    }
    thrown := false;
    EndIsOver(it, base);
    visited := Loop(it, end, Alloc(base, map[]).0);
    HeapAtTheEnd(base, it.filter.ptr);
    end.Destroy();
    it.Destroy();
  }

  /** With the spare object of `end()` allocated, the other iterator stands over the larger heap. */
  lemma EndIsOver(it: Iterator, base: Heap<Attrs>)
    requires WellFormed(base) && InHeap(base, it.cache) && NullOrAlive(base, it.filter.ptr)
    requires NullOrAlive(base, it.obj.ptr) && it.Valid()
    requires it.lib.heap == Alloc(AddRef(base, it.obj.ptr), map[]).0
    ensures it.Over(Alloc(base, map[]).0)
    ensures FilterValue(Alloc(base, map[]).0, it.filter.ptr) == FilterValue(base, it.filter.ptr)
  {
    AllocAround(base, it.obj.ptr, map[]);
  }

  /** `for (auto & x : cache.filter(filter))`.  The objects visited are the matching ones, each once,
      in cache order.  When it is over, by completion or by an exception from the allocation inside
      `end()`, the only reference gone is the filter's own, which `Filtered` took over.  Starting
      reads through null exactly when the cache is empty or the filter was moved from. */
  method VisitFiltered(lib: Library<Attrs>, cache: seq<Entry>, filter: Handle<Attrs>, ok: bool)
    returns (visited: seq<Ptr>, thrown: bool)
    requires InHeap(lib.heap, cache) && !lib.heap.fault
    requires filter.lib == lib && NullOrAlive(lib.heap, filter.ptr)
    modifies lib
    ensures thrown <==> !ok
    ensures !thrown && filter.ptr != NULL ==>
              visited == Ptrs(Select(cache, old(lib.heap).objs[filter.ptr].value))
    ensures lib.heap.objs == PutRef(old(lib.heap), filter.ptr).objs
    ensures lib.heap.fault <==> cache == [] || filter.ptr == NULL
  {
    ghost var h := lib.heap.(fault := cache == [] || filter.ptr == NULL);
    RemainingFromFirst(cache, FilterValue(h, filter.ptr));
    var it := Iterator.Filtering(lib, cache, First(cache), filter.ptr);
    visited, thrown := LoopToEnd(it, ok, AddRef(h, filter.ptr));
    AddThenPut(h, filter.ptr);
    filter.Destroy();
  }

  /** The same when `Filtered` dies right after `begin()`: the iterator's own reference keeps the
      filter alive to the end of the loop. */
  method VisitAfterFilteredDied(lib: Library<Attrs>, cache: seq<Entry>, filter: Handle<Attrs>, ok: bool)
    returns (visited: seq<Ptr>, thrown: bool)
    requires InHeap(lib.heap, cache) && !lib.heap.fault
    requires filter.lib == lib && NullOrAlive(lib.heap, filter.ptr)
    modifies lib
    ensures thrown <==> !ok
    ensures !thrown && filter.ptr != NULL ==>
              visited == Ptrs(Select(cache, old(lib.heap).objs[filter.ptr].value))
    ensures lib.heap.objs == PutRef(old(lib.heap), filter.ptr).objs
    ensures lib.heap.fault <==> cache == [] || filter.ptr == NULL
  {
    ghost var h := lib.heap.(fault := cache == [] || filter.ptr == NULL);
    RemainingFromFirst(cache, FilterValue(h, filter.ptr));
    var it := Iterator.Filtering(lib, cache, First(cache), filter.ptr);
    DropFiltered(it, filter, h);
    visited, thrown := LoopToEnd(it, ok, h);
  }

  method DropFiltered(it: Iterator, filter: Handle<Attrs>, ghost h: Heap<Attrs>)
    requires filter.lib == it.lib && filter.ptr == it.filter.ptr
    requires InHeap(h, it.cache) && NullOrAlive(h, filter.ptr) && it.Over(AddRef(h, filter.ptr))
    modifies it.lib
    ensures it.Over(h)
  {
    CachedIsInHeap(h, it.cache, it.obj.ptr);
    PutFilterEarly(h, it.obj.ptr, filter.ptr);
    filter.Destroy();
    InHeapAddRef(h, it.cache, it.obj.ptr);
  }

  /** `for (auto & x : cache)`: with the empty filter, everything. */
  method VisitAll(lib: Library<Attrs>, cache: seq<Entry>, okBegin: bool, okEnd: bool)
    returns (visited: seq<Ptr>, thrown: bool)
    requires InHeap(lib.heap, cache) && !lib.heap.fault
    modifies lib
    ensures thrown <==> !okBegin || !okEnd
    ensures !thrown ==> visited == Ptrs(cache)
    ensures lib.heap.objs == old(lib.heap).objs && !lib.heap.fault
  {
    ghost var h := lib.heap;
    FirstIsCached(h, cache);
    var it := Iterator.Plain(lib, cache, First(cache), okBegin);
    if it == null {
      return [], true;
    }
    AllocAround(h, NULL, map[]);
    visited, thrown := LoopToEnd(it, okEnd, Alloc(h, map[]).0);
    SelectEverything(cache);
    assert cache != [] ==> After(cache, cache[0].ptr) == cache[1..];
  }

  // ---------- what filters select ----------

  lemma {:induction false} SelectEverything(cache: seq<Entry>)
    ensures Select(cache, map[]) == cache
  {
    if cache != [] {
      SelectEverything(cache[1..]);
    }
  }

  predicate Compatible(f: Attrs, g: Attrs) {
    forall a :: a in f && a in g ==> f[a] == g[a]
  }

  /** A filter carrying the attributes of two compatible filters selects what both select, and so
      filtering twice is filtering once; each further attribute can only narrow the selection.
      Incompatible filters have nothing in common. */
  lemma {:induction false} SelectBoth(cache: seq<Entry>, f: Attrs, g: Attrs)
    ensures Compatible(f, g) ==> Select(cache, f + g) == Select(Select(cache, f), g)
    ensures !Compatible(f, g) ==> Select(Select(cache, f), g) == []
  {
    if cache != [] {
      var e, rest := cache[0], cache[1..];
      SelectBoth(rest, f, g);
      MatchesBoth(e.attrs, f, g);
      if Matches(e.attrs, f) {
        assert Select(cache, f) == [e] + Select(rest, f);
        assert ([e] + Select(rest, f))[1..] == Select(rest, f);
      } else {
        assert Select(cache, f) == Select(rest, f);
        assert Compatible(f, g) ==> Select(cache, f + g) == Select(rest, f + g);
      }
    }
  }

  lemma MatchesBoth(obj: Attrs, f: Attrs, g: Attrs)
    ensures Matches(obj, f) && Matches(obj, g) ==> Compatible(f, g)
    ensures Compatible(f, g) ==> (Matches(obj, f + g) <==> Matches(obj, f) && Matches(obj, g))
  {
    if Compatible(f, g) && Matches(obj, f + g) {
      forall a | a in f
        ensures a in obj && obj[a] == f[a]
      {
        assert a in f + g && (f + g)[a] == f[a];
      }
      forall a | a in g
        ensures a in obj && obj[a] == g[a]
      {
        assert a in f + g && (f + g)[a] == g[a];
      }
    }
  }

  /** Selecting keeps exactly the matching entries. */
  lemma {:induction false} SelectedIff(cache: seq<Entry>, filter: Attrs, e: Entry)
    ensures e in Select(cache, filter) <==> e in cache && Matches(e.attrs, filter)
  {
    if cache != [] {
      SelectedIff(cache[1..], filter, e);
      assert e in cache <==> e == cache[0] || e in cache[1..];
    }
  }

  /** The entry at place `k` of the cache, if it matches and stands at `from` or behind. */
  function MatchAt(cache: seq<Entry>, filter: Attrs, from: int): int -> Option<Entry> {
    (k: int) =>
      if 0 <= k < |cache| && from <= k && Matches(cache[k].attrs, filter) then Some(cache[k]) else None
  }

  function OnlyMatch(cache: seq<Entry>, filter: Attrs, here: int): int -> Option<Entry> {
    (k: int) => if k == here then MatchAt(cache, filter, here)(here) else None
  }

  lemma OneSelected(cache: seq<Entry>, filter: Attrs, k: nat)
    requires k < |cache|
    ensures Lists(if Matches(cache[k].attrs, filter) then [cache[k]] else [], Before, OnlyMatch(cache, filter, k))
  {
    var here := if Matches(cache[k].attrs, filter) then [cache[k]] else [];
    var at: seq<int> := if Matches(cache[k].attrs, filter) then [k] else [];
    assert Matches(cache[k].attrs, filter) ==> at[0] == k;
    assert Enumerates(here, at, Before, OnlyMatch(cache, filter, k));
  }

  lemma SelectedNext(later: seq<Entry>, cache: seq<Entry>, filter: Attrs, k: nat)
    requires k < |cache| && Lists(later, Before, MatchAt(cache, filter, k + 1))
    ensures var here := if Matches(cache[k].attrs, filter) then [cache[k]] else [];
            Lists(here + later, Before, MatchAt(cache, filter, k))
  {
    var here := if Matches(cache[k].attrs, filter) then [cache[k]] else [];
    OneSelected(cache, filter, k);
    ListsBoth(here, later, Before,
              OnlyMatch(cache, filter, k), MatchAt(cache, filter, k + 1), MatchAt(cache, filter, k));
  }

  lemma {:induction false} SelectedFrom(cache: seq<Entry>, filter: Attrs, k: nat)
    requires k <= |cache|
    ensures Lists(Select(cache[k..], filter), Before, MatchAt(cache, filter, k))
    decreases |cache| - k
  {
    if k == |cache| {
      ListsNothing(Before, MatchAt(cache, filter, k));
    } else {
      SelectedFrom(cache, filter, k + 1);
      SelectedNext(Select(cache[k + 1..], filter), cache, filter, k);
      assert cache[k..][1..] == cache[k + 1..];
    }
  }

  /** The selected entries are those at the places of matching entries, one for each, in cache order. */
  lemma SelectedInOrder(cache: seq<Entry>, filter: Attrs)
    ensures Lists(Select(cache, filter), Before, MatchAt(cache, filter, 0))
  {
    SelectedFrom(cache, filter, 0);
    assert cache[0..] == cache;
  }

  /** The pointers `visited` are those of the matching entries of the cache, one for each, in cache order. */
  ghost predicate VisitsMatches(cache: seq<Entry>, filter: Attrs, visited: seq<Ptr>) {
    exists entries: seq<Entry> ::
      && Lists(entries, Before, MatchAt(cache, filter, 0))
      && |visited| == |entries| && forall i :: 0 <= i < |entries| ==> visited[i] == entries[i].ptr
  }

  lemma SelectionVisitsMatches(cache: seq<Entry>, filter: Attrs)
    ensures VisitsMatches(cache, filter, Ptrs(Select(cache, filter)))
  {
    SelectedInOrder(cache, filter);
  }
}
