/** The owning handle classes over reference-counted libnl objects: `Cache`, `Address`,
    `RouteAddress`, `RouteLink`, `Route` and `Message`.

    They share one life cycle and differ in three places, which `Kind` selects: whether sharing a
    pointer tests it for null first, whether a copy shares or clones, and whether copying exists. */
module Handles {
  import opened Libnl

  datatype Kind = CacheKind | AddressKind | ObjectKind | MessageKind
  datatype Mode = CreateCopy | TakeOwnership | ShareOwnership

  // ---------- what one operation does to the heap ----------

  /** `if (addr) nl_object_get(addr)` in the route objects and in `Address`; `Cache` and `Message`
      have no such test. */
  predicate TestsForNull(kind: Kind) { kind.AddressKind? || kind.ObjectKind? }

  function Shared<V>(kind: Kind, h: Heap<V>, p: Ptr): Heap<V> {
    if p == NULL && TestsForNull(kind) then h else GetRef(h, p)
  }

  predicate Copyable(kind: Kind) { kind.CacheKind? || kind.AddressKind? }

  /** The pointer a copy of a handle on `p` holds: a `Cache` shares it, an `Address` clones it. */
  function Duplicated<V>(kind: Kind, h: Heap<V>, p: Ptr, ok: bool): (Heap<V>, Ptr) {
    if kind.CacheKind? then (GetRef(h, p), p) else Clone(h, p, ok)
  }

  // ---------- the handle ----------

  class Handle<V> {
    const lib: Library<V>
    const kind: Kind
    var ptr: Ptr

    constructor Take(lib: Library<V>, kind: Kind, p: Ptr)
      ensures this.lib == lib && this.kind == kind && ptr == p
    {
      this.lib, this.kind, this.ptr := lib, kind, p;
    }

    constructor Share(lib: Library<V>, kind: Kind, p: Ptr)
      modifies lib
      ensures this.lib == lib && this.kind == kind && ptr == p
      ensures lib.heap == Shared(kind, old(lib.heap), p)
    {
      this.lib, this.kind, this.ptr := lib, kind, p;
      new;
      if TestsForNull(kind) {
        if p != NULL {
          lib.Get(p);
        }
      } else {
        lib.Get(p);
      }
    }

    /** The default constructors, which throw when the allocation fails. */
    static method Construct(lib: Library<V>, kind: Kind, v: V, ok: bool) returns (r: Handle?<V>)
      modifies lib
      ensures !ok ==> r == null && lib.heap == old(lib.heap)
      ensures ok ==>
                && r != null && fresh(r) && r.lib == lib && r.kind == kind
                && (lib.heap, r.ptr) == Alloc(old(lib.heap), v)
    {
      if !ok {
        return null;
      }
      var p := lib.New(v);
      r := new Handle<V>.Take(lib, kind, p);
    }

    /** A constructor that throws leaves no handle behind. */
    static method CreateCopy(lib: Library<V>, kind: Kind, p: Ptr, ok: bool) returns (r: Handle?<V>)
      modifies lib
      ensures lib.heap == Clone(old(lib.heap), p, ok).0
      ensures r == null <==> Clone(old(lib.heap), p, ok).1 == NULL
      ensures r != null ==>
                fresh(r) && r.lib == lib && r.kind == kind && r.ptr == Clone(old(lib.heap), p, ok).1
    {
      var q := lib.Copy(p, ok);
      if q == NULL {
        return null;
      }
      r := new Handle<V>.Take(lib, kind, q);
    }

    method CopyConstruct(ok: bool) returns (r: Handle?<V>)
      requires Copyable(kind)
      modifies lib
      ensures lib.heap == Duplicated(kind, old(lib.heap), ptr, ok).0
      ensures r == null <==> kind.AddressKind? && Duplicated(kind, old(lib.heap), ptr, ok).1 == NULL
      ensures r != null ==>
                fresh(r) && r.lib == lib && r.kind == kind &&
                r.ptr == Duplicated(kind, old(lib.heap), ptr, ok).1
    {
      if kind.CacheKind? {
        r := new Handle<V>.Take(lib, kind, ptr);
        lib.Get(ptr);
      } else {
        r := CreateCopy(lib, kind, ptr, ok);
      }
    }

    /** The old pointer is put before the source is touched, so aliased sides need the count to be
        at least two at that moment. */
    method CopyAssign(other: Handle<V>, ok: bool)
      requires Copyable(kind) && other.kind == kind && other.lib == lib
      modifies this, lib
      ensures this == other ==> ptr == old(ptr) && lib.heap == old(lib.heap)
      ensures this != other ==>
                (lib.heap, ptr) ==
                Duplicated(kind, PutRef(old(lib.heap), old(ptr)), other.ptr, ok)
    {
      if this != other {
        lib.Put(ptr);
        if kind.CacheKind? {
          ptr := other.ptr;
          lib.Get(ptr);
        } else {
          ptr := lib.Copy(other.ptr, ok);
        }
      }
    }

    constructor Move(other: Handle<V>)
      modifies other
      ensures lib == other.lib && kind == other.kind
      ensures ptr == old(other.ptr) && other.ptr == NULL
    {
      lib, kind, ptr := other.lib, other.kind, other.ptr;
      new;
      other.ptr := NULL;
    }

    method MoveAssign(other: Handle<V>)
      requires other.kind == kind && other.lib == lib
      modifies this, other, lib
      ensures this == other ==> ptr == old(ptr) && lib.heap == old(lib.heap)
      ensures this != other ==>
                && lib.heap == PutRef(old(lib.heap), old(ptr))
                && ptr == old(other.ptr) && other.ptr == NULL
    {
      if this != other {
        lib.Put(ptr);
        ptr := other.ptr;
        other.ptr := NULL;
      }
    }

    method Destroy()
      modifies lib
      ensures lib.heap == PutRef(old(lib.heap), ptr)
    {
      lib.Put(ptr);
    }
  }

  // ---------- all handles of a program at once ----------

  datatype Slot = Slot(kind: Kind, ptr: Ptr)

  /** Every handle alive, by name, and the references held outside: by libnl itself, by a cache on
      its objects, or by a caller with a raw pointer. */
  datatype World<V> = World(heap: Heap<V>, handles: map<nat, Slot>, foreign: multiset<Ptr>)

  /** `ok` is whether libnl had memory. */
  datatype Op<V> =
    | Construct(h: nat, kind: Kind, value: V, ok: bool)
    | FromPointer(h: nat, kind: Kind, mode: Mode, p: Ptr, ok: bool)
    | CopyConstruct(h: nat, src: nat, ok: bool)
    | CopyAssign(dst: nat, src: nat, ok: bool)
    | MoveConstruct(h: nat, src: nat)
    | MoveAssign(dst: nat, src: nat)
    | Destroy(h: nat)
    | ForeignNew(value: V)
    | ForeignGet(p: Ptr)
    | ForeignPut(p: Ptr)

  /** What the C++ compiler checks: names are declared once and alive, kinds agree, and the called
      constructor exists. */
  predicate Typed<V>(w: World<V>, op: Op<V>) {
    match op
    case Construct(h, kind, _, _) => h !in w.handles && !kind.CacheKind?
    case FromPointer(h, kind, mode, _, _) =>
      && h !in w.handles
      && (mode.CreateCopy? ==> Copyable(kind))
      && (mode.TakeOwnership? ==> !kind.MessageKind?)
    case CopyConstruct(h, src, _) =>
      h !in w.handles && src in w.handles && Copyable(w.handles[src].kind)
    case CopyAssign(dst, src, _) =>
      && dst in w.handles && src in w.handles
      && w.handles[dst].kind == w.handles[src].kind && Copyable(w.handles[src].kind)
    case MoveConstruct(h, src) => h !in w.handles && src in w.handles
    case MoveAssign(dst, src) =>
      dst in w.handles && src in w.handles && w.handles[dst].kind == w.handles[src].kind
    case Destroy(h) => h in w.handles
    case ForeignNew(_) => true
    case ForeignGet(_) => true
    case ForeignPut(_) => true
  }

  function Install<V>(w: World<V>, h: nat, kind: Kind, made: (Heap<V>, Ptr)): World<V> {
    w.(heap := made.0, handles := w.handles[h := Slot(kind, made.1)])
  }

  function Step<V>(w: World<V>, op: Op<V>): World<V>
    requires Typed(w, op)
  {
    match op
    case Construct(h, kind, v, ok) =>
      if ok then Install(w, h, kind, Alloc(w.heap, v)) else w
    case FromPointer(h, kind, mode, p, ok) => (
      match mode
      case CreateCopy =>
        var made := Clone(w.heap, p, ok);
        if made.1 == NULL then w.(heap := made.0) else Install(w, h, kind, made)
      case TakeOwnership =>
        Install(w, h, kind, (w.heap, p)).(foreign := w.foreign - multiset{p})
      case ShareOwnership =>
        Install(w, h, kind, (Shared(kind, w.heap, p), p)))
    case CopyConstruct(h, src, ok) =>
      var s := w.handles[src];
      var made := Duplicated(s.kind, w.heap, s.ptr, ok);
      if s.kind.AddressKind? && made.1 == NULL then w.(heap := made.0)
      else Install(w, h, s.kind, made)
    case CopyAssign(dst, src, ok) =>
      if dst == src then w else
      var s := w.handles[src];
      Install(w, dst, s.kind, Duplicated(s.kind, PutRef(w.heap, w.handles[dst].ptr), s.ptr, ok))
    case MoveConstruct(h, src) =>
      var s := w.handles[src];
      w.(handles := w.handles[h := s][src := s.(ptr := NULL)])
    case MoveAssign(dst, src) =>
      if dst == src then w else
      var s := w.handles[src];
      World(PutRef(w.heap, w.handles[dst].ptr),
            w.handles[dst := s][src := s.(ptr := NULL)], w.foreign)
    case Destroy(h) =>
      w.(heap := PutRef(w.heap, w.handles[h].ptr), handles := w.handles - {h})
    case ForeignNew(v) =>
      var made := Alloc(w.heap, v);
      w.(heap := made.0, foreign := w.foreign + multiset{made.1})
    case ForeignGet(p) =>
      w.(heap := GetRef(w.heap, p), foreign := w.foreign + multiset{p})
    case ForeignPut(p) =>
      w.(heap := PutRef(w.heap, p), foreign := w.foreign - multiset{p})
  }

  // ---------- the ownership invariant ----------

  function Holders(handles: map<nat, Slot>, p: Ptr): set<nat> {
    set h | h in handles && handles[h].ptr == p
  }

  function Owners<V>(w: World<V>, p: Ptr): nat {
    |Holders(w.handles, p)| + w.foreign[p]
  }

  /** Nothing has gone wrong; an object is alive exactly while somebody owns it; its count is the
      number of its owners. */
  ghost predicate Inv<V>(w: World<V>) {
    && !w.heap.fault
    && 0 < w.heap.next
    && (forall p :: p in w.heap.objs ==> p < w.heap.next)
    && (forall p: Ptr :: p != NULL ==> Refs(w.heap, p) == Owners(w, p))
    && (forall p :: p in w.heap.objs ==> p != NULL && 0 < w.heap.objs[p].refs)
  }

  /** The uses the source does not defend against, each one a test a caller could make first. */
  predicate Misuse<V>(w: World<V>, op: Op<V>)
    requires Typed(w, op)
  {
    match op
    case Construct(_, _, _, _) => false
    case FromPointer(_, kind, mode, p, _) => (
      match mode
      case CreateCopy => p !in w.heap.objs
      case TakeOwnership => p != NULL && w.foreign[p] == 0
      case ShareOwnership => if p == NULL then !TestsForNull(kind) else p !in w.heap.objs)
    case CopyConstruct(_, src, _) => w.handles[src].ptr == NULL
    case CopyAssign(dst, src, _) => dst != src && w.handles[src].ptr == NULL
    case MoveConstruct(_, _) => false
    case MoveAssign(_, _) => false
    case Destroy(_) => false
    case ForeignNew(_) => false
    case ForeignGet(p) => p !in w.heap.objs
    case ForeignPut(p) => p != NULL && w.foreign[p] == 0
  }

  lemma HoldersAfterUpdate(m: map<nat, Slot>, h: nat, s: Slot, p: Ptr)
    ensures |Holders(m[h := s], p)| ==
            |Holders(m, p)| - (if h in m && m[h].ptr == p then 1 else 0) + (if s.ptr == p then 1 else 0)
  {
    var others := Holders(m, p) - {h};
    assert Holders(m, p) == if h in m && m[h].ptr == p then others + {h} else others;
    assert Holders(m[h := s], p) == if s.ptr == p then others + {h} else others;
  }

  lemma HoldersAfterRemoval(m: map<nat, Slot>, h: nat, p: Ptr)
    requires h in m
    ensures |Holders(m - {h}, p)| == |Holders(m, p)| - (if m[h].ptr == p then 1 else 0)
  {
    var others := Holders(m, p) - {h};
    assert Holders(m, p) == if m[h].ptr == p then others + {h} else others;
    assert Holders(m - {h}, p) == others;
  }

  lemma HolderCounts(m: map<nat, Slot>, h: nat)
    requires h in m
    ensures 0 < |Holders(m, m[h].ptr)|
    ensures forall g :: g in m && g != h && m[g].ptr == m[h].ptr ==> 2 <= |Holders(m, m[h].ptr)|
  {
    var p := m[h].ptr;
    assert h in Holders(m, p);
    forall g | g in m && g != h && m[g].ptr == p
      ensures 2 <= |Holders(m, p)|
    {
      assert {h, g} <= Holders(m, p);
      assert |Holders(m, p)| == |Holders(m, p) - {h, g}| + |{h, g}|;
    }
  }
}
