/** What the reference counting of the handles amounts to: plain pointer variables, with a collector that
    removes after each operation every object that nothing refers to.  The collected machine has no counts
    and shares no definition of an operation with the counted one. */
module Collected {
  import opened Libnl
  import opened Handles
  import opened HandlesProofs

  /** Objects by pointer, the handles, the references outside, and the next pointer to be given out. */
  datatype Store<V> = Store(values: map<Ptr, V>, handles: map<nat, Slot>, outside: multiset<Ptr>, next: Ptr)

  /** Handle `h` refers to `p` from now on. */
  function Pointing<V>(s: Store<V>, h: nat, kind: Kind, p: Ptr): Store<V> {
    s.(handles := s.handles[h := Slot(kind, p)])
  }

  /** A new object, and handle `h` refers to it. */
  function Holding<V>(s: Store<V>, h: nat, kind: Kind, v: V): Store<V> {
    Pointing(s, h, kind, s.next).(values := s.values[s.next := v], next := s.next + 1)
  }

  /** One operation without freeing anything. */
  function Assign<V>(s: Store<V>, op: Op<V>): Store<V> {
    match op
    case Construct(h, kind, v, ok) => if ok then Holding(s, h, kind, v) else s
    case FromPointer(h, kind, mode, p, ok) => (
      match mode
      case CreateCopy => if p in s.values && ok then Holding(s, h, kind, s.values[p]) else s
      case TakeOwnership => Pointing(s, h, kind, p).(outside := s.outside - multiset{p})
      case ShareOwnership => Pointing(s, h, kind, p))
    case CopyConstruct(h, src, ok) =>
      if src !in s.handles then s
      else if s.handles[src].kind == CacheKind then s.(handles := s.handles[h := s.handles[src]])
      else if s.handles[src].ptr in s.values && ok then Holding(s, h, AddressKind, s.values[s.handles[src].ptr])
      else s
    case CopyAssign(dst, src, ok) =>
      if dst == src || src !in s.handles then s
      else if s.handles[src].kind == CacheKind then s.(handles := s.handles[dst := s.handles[src]])
      else if s.handles[src].ptr in s.values && ok then Holding(s, dst, AddressKind, s.values[s.handles[src].ptr])
      else Pointing(s, dst, AddressKind, NULL)
    case MoveConstruct(h, src) =>
      if src !in s.handles then s
      else s.(handles := s.handles[h := s.handles[src]][src := s.handles[src].(ptr := NULL)])
    case MoveAssign(dst, src) =>
      if dst == src || src !in s.handles then s
      else s.(handles := s.handles[dst := s.handles[src]][src := s.handles[src].(ptr := NULL)])
    case Destroy(h) => s.(handles := s.handles - {h})
    case ForeignNew(v) =>
      s.(values := s.values[s.next := v], outside := s.outside + multiset{s.next}, next := s.next + 1)
    case ForeignGet(p) => s.(outside := s.outside + multiset{p})
    case ForeignPut(p) => s.(outside := s.outside - multiset{p})
  }

  predicate Reachable<V>(s: Store<V>, p: Ptr) {
    p in s.outside || exists h :: h in s.handles && s.handles[h].ptr == p
  }

  function Collect<V>(s: Store<V>): Store<V> {
    s.(values := map p | p in s.values && Reachable(s, p) :: s.values[p])
  }

  /** The counted world without its counts. */
  function Uncounted<V>(w: World<V>): Store<V> {
    Store(map p | p in w.heap.objs :: w.heap.objs[p].value, w.handles, w.foreign, w.heap.next)
  }

  lemma ReachableIffOwned<V>(w: World<V>, p: Ptr)
    ensures Reachable(Uncounted(w), p) <==> 0 < Owners(w, p)
  {
    if h :| h in w.handles && w.handles[h].ptr == p {
      assert h in Holders(w.handles, p);
    }
    if Holders(w.handles, p) != {} {
      var h :| h in Holders(w.handles, p);
    }
  }

  lemma SourceIsAlive<V>(w: World<V>, op: Op<V>)
    requires Inv(w) && Typed(w, op) && !Misuse(w, op)
    ensures op.CopyConstruct? ==> w.handles[op.src].ptr in w.heap.objs
    ensures op.CopyAssign? && op.dst != op.src ==>
              && w.handles[op.src].ptr in w.heap.objs
              && w.handles[op.src].ptr in PutRef(w.heap, w.handles[op.dst].ptr).objs
  {
    if op.CopyConstruct? {
      HeldIsAlive(w, op.src);
    }
    if op.CopyAssign? && op.dst != op.src {
      HeldIsAlive(w, op.src);
      HeldIsAlive(w, op.dst);
      HolderCounts(w.handles, op.dst);
      var p := w.handles[op.dst].ptr;
      assert p != NULL ==> Refs(w.heap, p) == Owners(w, p);
    }
  }

  /** Without counting, all references are the same, and so is the value of everything that lives. */
  ghost predicate Follows<V>(w: World<V>, op: Op<V>)
    requires Typed(w, op)
  {
    var s, w' := Assign(Uncounted(w), op), Step(w, op);
    && s.handles == w'.handles && s.outside == w'.foreign && s.next == w'.heap.next
    && forall p :: p in w'.heap.objs ==> p in s.values && s.values[p] == w'.heap.objs[p].value
  }

  lemma MakingFollows<V>(w: World<V>, op: Op<V>)
    requires Inv(w) && Typed(w, op) && !Misuse(w, op) && (op.Construct? || op.FromPointer?)
    ensures Follows(w, op)
  {
  }

  lemma CopyingFollows<V>(w: World<V>, op: Op<V>)
    requires Inv(w) && Typed(w, op) && !Misuse(w, op) && op.CopyConstruct?
    ensures Follows(w, op)
  {
    SourceIsAlive(w, op);
  }

  lemma AssigningFollows<V>(w: World<V>, op: Op<V>)
    requires Inv(w) && Typed(w, op) && !Misuse(w, op) && op.CopyAssign?
    ensures Follows(w, op)
  {
    if op.dst != op.src {
      SourceIsAlive(w, op);
    }
  }

  lemma MovingFollows<V>(w: World<V>, op: Op<V>)
    requires Inv(w) && Typed(w, op) && !Misuse(w, op) && (op.MoveConstruct? || op.MoveAssign? || op.Destroy?)
    ensures Follows(w, op)
  {
  }

  lemma OutsideFollows<V>(w: World<V>, op: Op<V>)
    requires Inv(w) && Typed(w, op) && !Misuse(w, op) && (op.ForeignNew? || op.ForeignGet? || op.ForeignPut?)
    ensures Follows(w, op)
  {
  }

  lemma StepFollows<V>(w: World<V>, op: Op<V>)
    requires Inv(w) && Typed(w, op) && !Misuse(w, op)
    ensures Follows(w, op)
  {
    match op
    case Construct(_, _, _, _) => MakingFollows(w, op);
    case FromPointer(_, _, _, _, _) => MakingFollows(w, op);
    case CopyConstruct(_, _, _) => CopyingFollows(w, op);
    case CopyAssign(_, _, _) => AssigningFollows(w, op);
    case MoveConstruct(_, _) => MovingFollows(w, op);
    case MoveAssign(_, _) => MovingFollows(w, op);
    case Destroy(_) => MovingFollows(w, op);
    case ForeignNew(_) => OutsideFollows(w, op);
    case ForeignGet(_) => OutsideFollows(w, op);
    case ForeignPut(_) => OutsideFollows(w, op);
  }

  /** Counting references is collecting: after any operation that is not a misuse, exactly the objects that
      something refers to live, with the values and under the pointers they have without counting. */
  lemma CountingIsCollecting<V>(w: World<V>, op: Op<V>)
    requires Inv(w) && Typed(w, op) && !Misuse(w, op)
    ensures Inv(Step(w, op))
    ensures Uncounted(Step(w, op)) == Collect(Assign(Uncounted(w), op))
  {
    StepKeepsInv(w, op);
    StepFollows(w, op);
    var s, w' := Assign(Uncounted(w), op), Step(w, op);
    forall p: Ptr
      ensures p in Uncounted(w').values <==> p in Collect(s).values
      ensures p in Uncounted(w').values ==> Uncounted(w').values[p] == Collect(s).values[p]
    {
      ReachableIffOwned(w', p);
      if p in w'.heap.objs {
        assert Refs(w'.heap, p) == Owners(w', p);
      } else if p != NULL {
        assert Refs(w'.heap, p) == Owners(w', p);
      }
    }
    assert Uncounted(w').values == Collect(s).values;
  }

  /** The collected machine over a whole run. */
  function CollectedRun<V>(s: Store<V>, ops: seq<Op<V>>): Store<V>
    decreases |ops|
  {
    if ops == [] then s else CollectedRun(Collect(Assign(s, ops[0])), ops[1..])
  }

  /** Over every run. */
  lemma {:induction false} RunIsCollected<V>(w: World<V>, ops: seq<Op<V>>)
    requires Inv(w) && Legal(w, ops)
    ensures Uncounted(Run(w, ops)) == CollectedRun(Uncounted(w), ops)
    decreases |ops|
  {
    if ops != [] {
      CountingIsCollecting(w, ops[0]);
      RunIsCollected(Step(w, ops[0]), ops[1..]);
    }
  }
}
