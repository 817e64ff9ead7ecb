/** Ownership safety of every program over the handle classes. */
module HandlesProofs {
  import opened Libnl
  import opened Handles

  // ---------- one step ----------

  lemma OwnedIsAlive<V>(w: World<V>, p: Ptr)
    requires Inv(w) && p != NULL && 0 < Owners(w, p)
    ensures p in w.heap.objs
  {
    assert Refs(w.heap, p) == Owners(w, p);
  }

  lemma HeldIsAlive<V>(w: World<V>, h: nat)
    requires Inv(w) && h in w.handles
    ensures w.handles[h].ptr != NULL ==> w.handles[h].ptr in w.heap.objs
  {
    HolderCounts(w.handles, h);
    if w.handles[h].ptr != NULL {
      OwnedIsAlive(w, w.handles[h].ptr);
    }
  }

  /** Handing a freshly made pointer to handle `h`, whose previous pointer is already given up. */
  lemma InstallKeepsInv<V>(w: World<V>, heap: Heap<V>, h: nat, s: Slot, foreign: multiset<Ptr>)
    requires Inv(w) && WellFormed(heap) && !heap.fault
    requires forall p: Ptr :: p != NULL ==>
               Refs(heap, p) + (if h in w.handles && w.handles[h].ptr == p then 1 else 0) + w.foreign[p] ==
               Refs(w.heap, p) + (if s.ptr == p then 1 else 0) + foreign[p]
    ensures Inv(World(heap, w.handles[h := s], foreign))
  {
    forall p: Ptr | p != NULL
      ensures Refs(heap, p) == Owners(World(heap, w.handles[h := s], foreign), p)
    {
      HoldersAfterUpdate(w.handles, h, s, p);
    }
  }

  lemma DuplicateInstall<V>(w: World<V>, h: nat, kind: Kind, p: Ptr, ok: bool)
    requires Inv(w) && Copyable(kind) && p in w.heap.objs
    requires h in w.handles ==> w.handles[h].ptr == NULL
    ensures Inv(Install(w, h, kind, Duplicated(kind, w.heap, p, ok)))
  {
    var made := Duplicated(kind, w.heap, p, ok);
    assert WellFormed(made.0);
    InstallKeepsInv(w, made.0, h, Slot(kind, made.1), w.foreign);
  }

  /** A handle that puts its pointer and forgets it. */
  function Dropped<V>(w: World<V>, h: nat): World<V>
    requires h in w.handles
  {
    w.(heap := PutRef(w.heap, w.handles[h].ptr), handles := w.handles[h := w.handles[h].(ptr := NULL)])
  }

  lemma DroppedKeepsInv<V>(w: World<V>, h: nat)
    requires Inv(w) && h in w.handles
    ensures Inv(Dropped(w, h))
  {
    HeldIsAlive(w, h);
    InstallKeepsInv(w, PutRef(w.heap, w.handles[h].ptr), h, w.handles[h].(ptr := NULL), w.foreign);
  }

  /** The swap of pointers a move performs. */
  lemma MovedKeepsInv<V>(w: World<V>, dst: nat, src: nat)
    requires Inv(w) && src in w.handles && dst != src
    requires dst in w.handles ==> w.handles[dst].ptr == NULL
    ensures Inv(w.(handles := w.handles[dst := w.handles[src]][src := w.handles[src].(ptr := NULL)]))
  {
    var s := w.handles[src];
    var mid := w.handles[dst := s];
    forall p: Ptr | p != NULL
      ensures Refs(w.heap, p) == |Holders(mid[src := s.(ptr := NULL)], p)| + w.foreign[p]
    {
      HoldersAfterUpdate(w.handles, dst, s, p);
      HoldersAfterUpdate(mid, src, s.(ptr := NULL), p);
    }
  }

  lemma CopyAssignKeepsInv<V>(w: World<V>, dst: nat, src: nat, ok: bool)
    requires Inv(w) && Typed(w, CopyAssign(dst, src, ok)) && !Misuse(w, CopyAssign(dst, src, ok))
    ensures Inv(Step(w, CopyAssign(dst, src, ok)))
  {
    if dst != src {
      var s := w.handles[src];
      var mid := Dropped(w, dst);
      DroppedKeepsInv(w, dst);
      HeldIsAlive(mid, src);
      DuplicateInstall(mid, dst, s.kind, s.ptr, ok);
      var made := Duplicated(s.kind, mid.heap, s.ptr, ok);
      assert mid.handles[dst := Slot(s.kind, made.1)] == w.handles[dst := Slot(s.kind, made.1)];
    }
  }

  lemma MoveKeepsInv<V>(w: World<V>, op: Op<V>)
    requires Inv(w) && Typed(w, op) && (op.MoveConstruct? || op.MoveAssign?)
    ensures Inv(Step(w, op))
  {
    if op.MoveConstruct? {
      MovedKeepsInv(w, op.h, op.src);
    } else if op.dst != op.src {
      var mid := Dropped(w, op.dst);
      DroppedKeepsInv(w, op.dst);
      MovedKeepsInv(mid, op.dst, op.src);
      var s := w.handles[op.src];
      assert mid.handles[op.dst := s][op.src := s.(ptr := NULL)] ==
             w.handles[op.dst := s][op.src := s.(ptr := NULL)];
    }
  }

  lemma DestroyKeepsInv<V>(w: World<V>, h: nat)
    requires Inv(w) && h in w.handles
    ensures Inv(Step(w, Op<V>.Destroy(h)))
  {
    var w' := Step(w, Op<V>.Destroy(h));
    HeldIsAlive(w, h);
    forall p: Ptr | p != NULL
      ensures Refs(w'.heap, p) == Owners(w', p)
    {
      HoldersAfterRemoval(w.handles, h, p);
    }
  }

  lemma FromPointerKeepsInv<V>(w: World<V>, op: Op<V>)
    requires Inv(w) && op.FromPointer? && Typed(w, op) && !Misuse(w, op)
    ensures Inv(Step(w, op))
  {
    match op.mode
    case CreateCopy =>
      var made := Clone(w.heap, op.p, op.ok);
      InstallKeepsInv(w, made.0, op.h, Slot(op.kind, made.1), w.foreign);
    case TakeOwnership =>
      InstallKeepsInv(w, w.heap, op.h, Slot(op.kind, op.p), w.foreign - multiset{op.p});
    case ShareOwnership =>
      InstallKeepsInv(w, Shared(op.kind, w.heap, op.p), op.h, Slot(op.kind, op.p), w.foreign);
  }

  lemma ForeignKeepsInv<V>(w: World<V>, op: Op<V>)
    requires Inv(w) && Typed(w, op) && !Misuse(w, op)
    requires op.ForeignNew? || op.ForeignGet? || op.ForeignPut?
    ensures Inv(Step(w, op))
  {
    var w' := Step(w, op);
    if op.ForeignPut? && op.p != NULL {
      OwnedIsAlive(w, op.p);
    }
    forall p: Ptr | p != NULL
      ensures Refs(w'.heap, p) == Owners(w', p)
    {
      assert Refs(w.heap, p) == Owners(w, p);
    }
  }

  /** One step from a good state: it stays good when the step is not one of the listed misuses. */
  lemma StepKeepsInv<V>(w: World<V>, op: Op<V>)
    requires Inv(w) && Typed(w, op) && !Misuse(w, op)
    ensures Inv(Step(w, op))
  {
    match op
    case Construct(h, kind, v, ok) =>
      if ok {
        var made := Alloc(w.heap, v);
        InstallKeepsInv(w, made.0, h, Slot(kind, made.1), w.foreign);
      }
    case FromPointer(_, _, _, _, _) => FromPointerKeepsInv(w, op);
    case CopyConstruct(h, src, ok) =>
      HeldIsAlive(w, src);
      DuplicateInstall(w, h, w.handles[src].kind, w.handles[src].ptr, ok);
    case CopyAssign(dst, src, ok) => CopyAssignKeepsInv(w, dst, src, ok);
    case MoveConstruct(_, _) => MoveKeepsInv(w, op);
    case MoveAssign(_, _) => MoveKeepsInv(w, op);
    case Destroy(h) => DestroyKeepsInv(w, h);
    case ForeignNew(_) => ForeignKeepsInv(w, op);
    case ForeignGet(_) => ForeignKeepsInv(w, op);
    case ForeignPut(_) => ForeignKeepsInv(w, op);
  }

  /** And it never stays good when the step is one of them: the list is exact. */
  lemma MisuseBreaksInv<V>(w: World<V>, op: Op<V>)
    requires Inv(w) && Typed(w, op) && Misuse(w, op)
    ensures !Inv(Step(w, op))
  {
    var w' := Step(w, op);
    match op
    case FromPointer(h, kind, mode, p, _) =>
      if mode.TakeOwnership? {
        HoldersAfterUpdate(w.handles, h, Slot(kind, p), p);
        assert Refs(w'.heap, p) != Owners(w', p);
      } else if mode.ShareOwnership? {
        assert w'.heap.fault;
      }
    case CopyConstruct(_, _, _) => assert w'.heap.fault;
    case CopyAssign(_, _, _) => assert w'.heap.fault;
    case ForeignGet(_) => assert w'.heap.fault;
    case ForeignPut(p) =>
      assert Refs(w.heap, p) == Owners(w, p);
      assert w'.heap.fault || Refs(w'.heap, p) != Owners(w', p);
  }

  /** Exactly the misuses break the accounting; no aliasing, self-assignment, moved-from source or
      failed clone does. */
  lemma StepSafeIff<V>(w: World<V>, op: Op<V>)
    requires Inv(w) && Typed(w, op)
    ensures Inv(Step(w, op)) <==> !Misuse(w, op)
  {
    if Misuse(w, op) {
      MisuseBreaksInv(w, op);
    } else {
      StepKeepsInv(w, op);
    }
  }

  // ---------- every run ----------

  predicate Legal<V>(w: World<V>, ops: seq<Op<V>>)
    decreases |ops|
  {
    ops == [] || (Typed(w, ops[0]) && !Misuse(w, ops[0]) && Legal(Step(w, ops[0]), ops[1..]))
  }

  function Run<V>(w: World<V>, ops: seq<Op<V>>): World<V>
    requires Legal(w, ops)
    decreases |ops|
  {
    if ops == [] then w else Run(Step(w, ops[0]), ops[1..])
  }

  function Start<V>(): World<V> { World(Heap(map[], 1, false), map[], multiset{}) }

  lemma {:induction false} RunKeepsInv<V>(w: World<V>, ops: seq<Op<V>>)
    requires Inv(w) && Legal(w, ops)
    ensures Inv(Run(w, ops))
    decreases |ops|
  {
    if ops != [] {
      StepKeepsInv(w, ops[0]);
      RunKeepsInv(Step(w, ops[0]), ops[1..]);
    }
  }

  lemma RunFromStart<V>(ops: seq<Op<V>>)
    requires Legal(Start(), ops)
    ensures Inv(Run(Start(), ops))
  {
    forall p: Ptr
      ensures Owners(Start<V>(), p) == 0
    {
      assert Holders(Start<V>().handles, p) == {};
    }
    RunKeepsInv(Start(), ops);
  }

  /** Safety over whole runs.  After any legal sequence of operations no freed object was ever
      touched, every object's count is the number of its owners, an object exists exactly while
      that number is positive, and every non-null handle points at an object that exists. */
  lemma RunIsSafe<V>(ops: seq<Op<V>>)
    requires Legal(Start(), ops)
    ensures var w := Run(Start(), ops);
            && !w.heap.fault
            && (forall p: Ptr :: p != NULL ==> (p in w.heap.objs <==> 0 < Owners(w, p)))
            && (forall p :: p in w.heap.objs ==> w.heap.objs[p].refs == Owners(w, p))
            && (forall h :: h in w.handles && w.handles[h].ptr != NULL ==> w.handles[h].ptr in w.heap.objs)
  {
    RunFromStart(ops);
    var w := Run(Start(), ops);
    forall h | h in w.handles && w.handles[h].ptr != NULL
      ensures w.handles[h].ptr in w.heap.objs
    {
      HeldIsAlive(w, h);
    }
    forall p | p in w.heap.objs
      ensures w.heap.objs[p].refs == Owners(w, p)
    {
      assert Refs(w.heap, p) == Owners(w, p);
    }
  }

  /** No leak: once every handle is destroyed and nothing outside holds a reference, the heap is empty. */
  lemma NothingLeaks<V>(ops: seq<Op<V>>)
    requires Legal(Start(), ops)
    requires Run(Start(), ops).handles == map[] && Run(Start(), ops).foreign == multiset{}
    ensures Run(Start(), ops).heap.objs == map[]
  {
    RunFromStart(ops);
    var w := Run(Start(), ops);
    forall p: Ptr
      ensures Owners(w, p) == 0
    {
      assert Holders(w.handles, p) == {};
    }
    forall p: Ptr
      ensures p !in w.heap.objs
    {
      assert p != NULL ==> Refs(w.heap, p) == Owners(w, p);
    }
  }

  /** Freed once: an object dies in the very step that takes its last owner, and a dead pointer is
      never alive again. */
  lemma FreedExactlyOnce<V>(w: World<V>, op: Op<V>, p: Ptr)
    requires Inv(w) && Typed(w, op) && !Misuse(w, op) && 0 < p < w.heap.next
    ensures p in w.heap.objs ==> (p !in Step(w, op).heap.objs <==> Owners(Step(w, op), p) == 0)
    ensures p !in w.heap.objs ==> p !in Step(w, op).heap.objs && Owners(Step(w, op), p) == 0
    ensures w.heap.next <= Step(w, op).heap.next
  {
    StepKeepsInv(w, op);
    assert Refs(Step(w, op).heap, p) == Owners(Step(w, op), p);
  }

  /** Over whole runs: a pointer whose object is gone stays dead and without owners. */
  lemma {:induction false} NeverAliveAgain<V>(w: World<V>, ops: seq<Op<V>>, p: Ptr)
    requires Inv(w) && Legal(w, ops) && 0 < p < w.heap.next && p !in w.heap.objs
    ensures p !in Run(w, ops).heap.objs && Owners(Run(w, ops), p) == 0
    ensures w.heap.next <= Run(w, ops).heap.next
    decreases |ops|
  {
    if ops == [] {
      assert Refs(w.heap, p) == Owners(w, p);
    } else {
      FreedExactlyOnce(w, ops[0], p);
      StepKeepsInv(w, ops[0]);
      NeverAliveAgain(Step(w, ops[0]), ops[1..], p);
    }
  }

  // ---------- what a copy is ----------

  /** The objects alive. */
  function Live<V>(w: World<V>): set<Ptr> { w.heap.objs.Keys }

  /** What dropping the pointer of a handle leaves alive: everything, or everything else when it was the last
      reference. */
  function LiveWithout<V>(w: World<V>, q: Ptr): set<Ptr> {
    if q != NULL && Owners(w, q) == 1 then Live(w) - {q} else Live(w)
  }

  /** A copied `Cache` is the same object, with one reference more. */
  lemma CopiedCacheIsShared<V>(w: World<V>, h: nat, src: nat, ok: bool)
    requires Inv(w) && Typed(w, CopyConstruct(h, src, ok))
    requires w.handles[src].kind == CacheKind && w.handles[src].ptr != NULL
    ensures var w', p := Step(w, CopyConstruct(h, src, ok)), w.handles[src].ptr;
            && w'.handles == w.handles[h := Slot(CacheKind, p)] && Live(w') == Live(w)
            && forall q :: q in Live(w) ==>
                 w'.heap.objs[q] == Object(Refs(w.heap, q) + (if q == p then 1 else 0), w.heap.objs[q].value)
  {
    HeldIsAlive(w, src);
  }

  /** A copied `Address` is an object that was not alive before, with an equal value and one reference, or no
      handle comes into being; everything that was alive is as before. */
  lemma CopiedAddressIsNew<V>(w: World<V>, h: nat, src: nat, ok: bool)
    requires Inv(w) && Typed(w, CopyConstruct(h, src, ok))
    requires w.handles[src].kind == AddressKind && w.handles[src].ptr != NULL
    ensures w.handles[src].ptr in Live(w)
    ensures var w', p := Step(w, CopyConstruct(h, src, ok)), w.handles[src].ptr;
            && (!ok ==> w' == w)
            && (ok ==>
                  && h in w'.handles && w'.handles == w.handles[h := w'.handles[h]]
                  && w'.handles[h].kind == AddressKind
                  && var q := w'.handles[h].ptr;
                  && q != NULL && q !in Live(w)
                  && w'.heap.objs == w.heap.objs[q := Object(1, w.heap.objs[p].value)])
  {
    HeldIsAlive(w, src);
  }

  /** Assigning a `Cache` drops the old pointer and shares the source's object. */
  lemma AssignedCacheIsShared<V>(w: World<V>, dst: nat, src: nat, ok: bool)
    requires Inv(w) && Typed(w, CopyAssign(dst, src, ok)) && dst != src
    requires w.handles[src].kind == CacheKind && w.handles[src].ptr != NULL
    ensures var w', p, old' := Step(w, CopyAssign(dst, src, ok)), w.handles[src].ptr, w.handles[dst].ptr;
            && w'.handles == w.handles[dst := Slot(CacheKind, p)] && Live(w') == LiveWithout(w, old') && p in Live(w')
            && forall q :: q in Live(w') ==>
                 && w'.heap.objs[q].value == w.heap.objs[q].value
                 && Refs(w'.heap, q) ==
                    Refs(w.heap, q) + (if q == p then 1 else 0) - (if q == old' then 1 else 0)
  {
    HeldIsAlive(w, src);
    HeldIsAlive(w, dst);
    HolderCounts(w.handles, dst);
    var old' := w.handles[dst].ptr;
    assert old' != NULL ==> Refs(w.heap, old') == Owners(w, old');
  }

  /** Assigning an `Address` drops the old pointer and makes a new equal object, or leaves null behind; the
      source's object stays as it is, less the reference of the target when both had the same. */
  lemma AssignedAddressIsNew<V>(w: World<V>, dst: nat, src: nat, ok: bool)
    requires Inv(w) && Typed(w, CopyAssign(dst, src, ok)) && dst != src
    requires w.handles[src].kind == AddressKind && w.handles[src].ptr != NULL
    ensures w.handles[src].ptr in Live(w)
    ensures var w', p, old' := Step(w, CopyAssign(dst, src, ok)), w.handles[src].ptr, w.handles[dst].ptr;
            && dst in w'.handles && w'.handles == w.handles[dst := w'.handles[dst]]
            && w'.handles[dst].kind == AddressKind
            && var q := w'.handles[dst].ptr;
            && (q == NULL <==> !ok) && q !in Live(w)
            && Live(w') == LiveWithout(w, old') + (if ok then {q} else {}) && p in Live(w')
            && (ok ==> w'.heap.objs[q] == Object(1, w.heap.objs[p].value))
            && forall r :: r in Live(w') && r != q ==>
                 && w'.heap.objs[r].value == w.heap.objs[r].value
                 && Refs(w'.heap, r) == Refs(w.heap, r) - (if r == old' then 1 else 0)
  {
    HeldIsAlive(w, src);
    HeldIsAlive(w, dst);
    HolderCounts(w.handles, dst);
    var old' := w.handles[dst].ptr;
    assert old' != NULL ==> Refs(w.heap, old') == Owners(w, old');
  }

  /** Sharing null: `Cache` and `Message` go through it, the others hold null. */
  lemma SharedNull<V>(w: World<V>, h: nat, kind: Kind, ok: bool)
    requires Inv(w) && h !in w.handles
    ensures var w' := Step(w, FromPointer(h, kind, ShareOwnership, NULL, ok));
            && w'.handles == w.handles[h := Slot(kind, NULL)] && w'.heap.objs == w.heap.objs
            && (w'.heap.fault <==> kind == CacheKind || kind == MessageKind)
  {
  }

  /** Copying is not safe for every source: a moved-from handle is cloned or shared through null. */
  lemma CopyOfMovedFromFaults<V>(kind: Kind, p: Ptr, w: World<V>)
    requires Inv(w) && Copyable(kind) && w.handles == map[0 := Slot(kind, p)] && p != NULL
    ensures var moved := Step(w, MoveConstruct(1, 0));
            Inv(moved) && Step(moved, CopyConstruct(2, 0, true)).heap.fault
  {
    StepKeepsInv(w, MoveConstruct(1, 0));
  }
}
