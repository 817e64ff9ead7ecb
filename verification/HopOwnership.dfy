/** Every next hop has exactly one owner, in every program over `NextHop` handles and routes. */
module HopOwnership {
  import opened Libnl
  import opened NextHops

  /** `raw` are the pointers outside code owns, as after `NextHop::take`. */
  datatype World<V> = World(heap: HopHeap<V>, handles: map<nat, Ptr>, routes: map<nat, seq<Ptr>>, raw: set<Ptr>)

  datatype Op<V> =
    | New(h: nat, value: V, ok: bool)
    | CopyPointer(h: nat, p: Ptr, ok: bool)
    | TakePointer(h: nat, p: Ptr)
    | CopyConstruct(h: nat, src: nat, ok: bool)
    | CopyAssign(dst: nat, src: nat, ok: bool)
    | MoveConstruct(h: nat, src: nat)
    | MoveAssign(dst: nat, src: nat)
    | Destroy(h: nat)
    | Take(h: nat)
    | Set(h: nat, value: V)
    | FreeRaw(p: Ptr)
    | NewRoute(r: nat)
    | FreeRoute(r: nat)
    | AddCopy(r: nat, h: nat, ok: bool)
    | AddMove(r: nat, h: nat)
    | ListHops(r: nat, first: nat, memory: nat)

  predicate Typed<V>(w: World<V>, op: Op<V>) {
    match op
    case New(h, _, _) => h !in w.handles
    case CopyPointer(h, _, _) => h !in w.handles
    case TakePointer(h, _) => h !in w.handles
    case CopyConstruct(h, src, _) => h !in w.handles && src in w.handles
    case CopyAssign(dst, src, _) => dst in w.handles && src in w.handles
    case MoveConstruct(h, src) => h !in w.handles && src in w.handles
    case MoveAssign(dst, src) => dst in w.handles && src in w.handles
    case Destroy(h) => h in w.handles
    case Take(h) => h in w.handles
    case Set(h, _) => h in w.handles
    case FreeRaw(_) => true
    case NewRoute(r) => r !in w.routes
    case FreeRoute(r) => r in w.routes
    case AddCopy(r, h, _) => r in w.routes && h in w.handles
    case AddMove(r, h) => r in w.routes && h in w.handles
    case ListHops(r, first, _) =>
      r in w.routes && forall h :: first <= h < first + |w.routes[r]| ==> h !in w.handles
  }

  /** What the source leaves to its caller: no use of a moved-from hop, no pointer one does not own. */
  predicate Misuse<V>(w: World<V>, op: Op<V>)
    requires Typed(w, op)
  {
    match op
    case New(_, _, _) => false
    case CopyPointer(_, p, _) => p !in w.heap.hops
    case TakePointer(_, p) => p != NULL && p !in w.raw
    case CopyConstruct(_, src, _) => w.handles[src] == NULL
    case CopyAssign(dst, src, _) => dst != src && w.handles[src] == NULL
    case MoveConstruct(_, _) => false
    case MoveAssign(_, _) => false
    case Destroy(_) => false
    case Take(_) => false
    case Set(h, _) => w.handles[h] == NULL
    case FreeRaw(p) => p !in w.raw
    case NewRoute(_) => false
    case FreeRoute(_) => false
    case AddCopy(_, h, _) => w.handles[h] == NULL
    case AddMove(_, h) => w.handles[h] == NULL
    case ListHops(_, _, _) => false
  }

  // ---------- ownership ----------

  datatype Place = InHandle(h: nat) | InRoute(r: nat, i: nat) | Outside(p: Ptr)

  /** The hop owned at a place, or null. */
  function At<V>(w: World<V>, place: Place): Ptr {
    match place
    case InHandle(h) => if h in w.handles then w.handles[h] else NULL
    case InRoute(r, i) => if r in w.routes && i < |w.routes[r]| then w.routes[r][i] else NULL
    case Outside(p) => if p in w.raw then p else NULL
  }

  ghost predicate Owned<V>(w: World<V>, p: Ptr) {
    exists place :: At(w, place) == p
  }

  ghost predicate Inv<V>(w: World<V>) {
    && !w.heap.fault
    && 0 < w.heap.next && NULL !in w.raw
    && (forall p :: p in w.heap.hops ==> 0 < p < w.heap.next && Owned(w, p))
    && (forall place :: At(w, place) != NULL ==> At(w, place) in w.heap.hops)
    && (forall a, b :: At(w, a) != NULL && At(w, a) == At(w, b) ==> a == b)
    && (forall r, i :: r in w.routes && 0 <= i < |w.routes[r]| ==> w.routes[r][i] in w.heap.hops)
  }

  // ---------- steps, from elementary transfers ----------

  /** A pointer newly made goes to a handle, or nothing happens when making it failed. */
  function Born<V>(w: World<V>, h: nat, made: (HopHeap<V>, Ptr)): World<V> {
    if made.1 == NULL then w.(heap := made.0) else w.(heap := made.0, handles := w.handles[h := made.1])
  }

  function Dropped<V>(w: World<V>, h: nat): World<V>
    requires h in w.handles
  {
    w.(heap := Discarded(w.heap, w.handles[h]), handles := w.handles[h := NULL])
  }

  function Moved<V>(w: World<V>, dst: nat, src: nat): World<V>
    requires src in w.handles
  {
    w.(handles := w.handles[dst := w.handles[src]][src := NULL])
  }

  function Listed<V>(w: World<V>, r: nat, first: nat): World<V>
    requires r in w.routes
    requires forall i :: 0 <= i < |w.routes[r]| ==> w.routes[r][i] in w.heap.hops && w.routes[r][i] < w.heap.next
  {
    var n := |w.routes[r]|;
    w.(heap := CopiedHops(w.heap, w.routes[r]),
       handles := w.handles + Named(first, Interval(w.heap.next, n)))
  }

  /** The hops of a route can be read, as listing needs; `Inv` says so of every route. */
  ghost predicate Listable<V>(w: World<V>, op: Op<V>) {
    op.ListHops? && op.r in w.routes ==>
      forall i :: 0 <= i < |w.routes[op.r]| ==>
        w.routes[op.r][i] in w.heap.hops && w.routes[op.r][i] < w.heap.next
  }

  ghost function Step<V>(w: World<V>, op: Op<V>): World<V>
    requires Typed(w, op) && Listable(w, op)
  {
    match op
    case New(h, v, ok) => if ok then Born(w, h, NewHop(w.heap, v)) else w
    case CopyPointer(h, p, ok) => Born(w, h, CloneHop(w.heap, p, ok))
    case TakePointer(h, p) => w.(handles := w.handles[h := p], raw := w.raw - {p})
    case CopyConstruct(h, src, ok) => Born(w, h, CloneHop(w.heap, w.handles[src], ok))
    case CopyAssign(dst, src, ok) =>
      if dst == src then w
      else Born(Dropped(w, dst), dst, CloneHop(Dropped(w, dst).heap, w.handles[src], ok))
    case MoveConstruct(h, src) => Moved(w, h, src)
    case MoveAssign(dst, src) => if dst == src then w else Moved(Dropped(w, dst), dst, src)
    case Destroy(h) => var d := Dropped(w, h); d.(handles := d.handles - {h})
    case Take(h) =>
      w.(handles := w.handles[h := NULL], raw := if w.handles[h] == NULL then w.raw else w.raw + {w.handles[h]})
    case Set(h, v) => w.(heap := WriteHop(w.heap, w.handles[h], v))
    case FreeRaw(p) => w.(heap := FreeHop(w.heap, p), raw := w.raw - {p})
    case NewRoute(r) => w.(routes := w.routes[r := []])
    case FreeRoute(r) => w.(heap := Without(w.heap, w.routes[r]), routes := w.routes - {r})
    case AddCopy(r, h, ok) =>
      var made := CloneHop(w.heap, w.handles[h], ok);
      if made.1 == NULL then w.(heap := made.0)
      else w.(heap := made.0, routes := w.routes[r := w.routes[r] + [made.1]])
    case AddMove(r, h) =>
      w.(heap := Linked(w.heap, w.handles[h]),
         handles := w.handles[h := NULL], routes := w.routes[r := w.routes[r] + [w.handles[h]]])
    case ListHops(r, first, memory) =>
      if memory < |w.routes[r]| then w.(heap := w.heap.(next := w.heap.next + memory))
      else Listed(w, r, first)
  }

  // ---------- each transfer keeps single ownership ----------

  /** The ownership invariant carries over when every hop of the new world has a place and every
      occupied place of the new world corresponds to its own place in the old one. */
  lemma Rearranged<V>(w: World<V>, w': World<V>, back: Place -> Place)
    requires Inv(w) && !w'.heap.fault && w.heap.next <= w'.heap.next && NULL !in w'.raw
    requires forall p :: p in w'.heap.hops ==> p in w.heap.hops && Owned(w', p)
    requires forall a :: At(w', a) != NULL ==> At(w', a) in w'.heap.hops && At(w, back(a)) == At(w', a)
    requires forall a, b :: At(w', a) != NULL && At(w', b) != NULL && back(a) == back(b) ==> a == b
    requires forall r, i :: r in w'.routes && 0 <= i < |w'.routes[r]| ==> w'.routes[r][i] in w'.heap.hops
    ensures Inv(w')
  {
    forall a, b | At(w', a) != NULL && At(w', a) == At(w', b)
      ensures a == b
    {
      assert At(w, back(a)) == At(w, back(b));
    }
  }

  lemma RoutesAreAt<V>(w: World<V>, r: nat, i: nat)
    requires Inv(w) && r in w.routes && i < |w.routes[r]|
    ensures At(w, InRoute(r, i)) == w.routes[r][i] != NULL
  {
  }

  lemma DroppedKeepsInv<V>(w: World<V>, h: nat)
    requires Inv(w) && h in w.handles
    ensures Inv(Dropped(w, h))
  {
    var w' := Dropped(w, h);
    assert At(w, InHandle(h)) == w.handles[h];
    forall a | At(w', a) != NULL
      ensures At(w, a) == At(w', a) && a != InHandle(h) && At(w', a) in w'.heap.hops
    {
      assert At(w, a) == At(w', a);
    }
    forall p | p in w'.heap.hops
      ensures Owned(w', p)
    {
      var a :| At(w, a) == p;
      assert At(w', a) == p;
    }
    forall r, i | r in w'.routes && 0 <= i < |w'.routes[r]|
      ensures w'.routes[r][i] in w'.heap.hops
    {
      RoutesAreAt(w, r, i);
    }
    Rearranged(w, w', a => a);
  }

  /** A fresh pointer in a place that was empty. */
  lemma BornKeepsInv<V>(w: World<V>, h: nat, v: V)
    requires Inv(w) && (h in w.handles ==> w.handles[h] == NULL)
    ensures Inv(Born(w, h, NewHop(w.heap, v)))
  {
    var w' := Born(w, h, NewHop(w.heap, v));
    assert At(w', InHandle(h)) == w.heap.next;
    forall a | a != InHandle(h)
      ensures At(w', a) == At(w, a)
    {
    }
    assert At(w, InHandle(h)) == NULL;
    forall p | p in w'.heap.hops
      ensures Owned(w', p)
    {
      if p != w.heap.next {
        var a :| At(w, a) == p;
        assert At(w', a) == p;
      }
    }
  }

  lemma CloneKeepsInv<V>(w: World<V>, h: nat, p: Ptr, ok: bool)
    requires Inv(w) && p in w.heap.hops && (h in w.handles ==> w.handles[h] == NULL)
    ensures Inv(Born(w, h, CloneHop(w.heap, p, ok)))
  {
    if ok {
      BornKeepsInv(w, h, w.heap.hops[p]);
    }
  }

  /** One hop changes place. */
  lemma Transferred<V>(w: World<V>, w': World<V>, src: Place, dst: Place)
    requires Inv(w) && w'.heap == w.heap && src != dst && NULL !in w'.raw
    requires At(w, dst) == NULL && At(w', src) == NULL && At(w', dst) == At(w, src)
    requires forall a :: a != src && a != dst ==> At(w', a) == At(w, a)
    requires forall r, i :: r in w'.routes && 0 <= i < |w'.routes[r]| ==> w'.routes[r][i] in w'.heap.hops
    ensures Inv(w')
  {
    forall p | p in w'.heap.hops
      ensures Owned(w', p)
    {
      var a :| At(w, a) == p;
      assert At(w', if a == src then dst else a) == p;
    }
    forall a, b | At(w', a) != NULL && At(w', a) == At(w', b)
      ensures a == b
    {
      assert At(w, if a == dst then src else a) == At(w', a);
      assert At(w, if b == dst then src else b) == At(w', b);
    }
  }

  lemma MovedKeepsInv<V>(w: World<V>, dst: nat, src: nat)
    requires Inv(w) && src in w.handles && dst != src && (dst in w.handles ==> w.handles[dst] == NULL)
    ensures Inv(Moved(w, dst, src))
  {
    Transferred(w, Moved(w, dst, src), InHandle(src), InHandle(dst));
  }

  lemma ForgottenKeepsInv<V>(w: World<V>, h: nat)
    requires Inv(w) && h in w.handles && w.handles[h] == NULL
    ensures Inv(w.(handles := w.handles - {h}))
  {
    var w' := w.(handles := w.handles - {h});
    assert forall a :: At(w', a) == At(w, a);
    Rearranged(w, w', a => a);
  }

  lemma TakeKeepsInv<V>(w: World<V>, h: nat)
    requires Inv(w) && h in w.handles
    ensures Inv(Step(w, Op<V>.Take(h)))
  {
    var p := w.handles[h];
    if p == NULL {
      assert Step(w, Op<V>.Take(h)) == w;
    } else {
      assert At(w, InHandle(h)) == p;
      assert p in w.raw ==> At(w, Outside(p)) == p;
      Transferred(w, Step(w, Op<V>.Take(h)), InHandle(h), Outside(p));
    }
  }

  lemma TakePointerKeepsInv<V>(w: World<V>, h: nat, p: Ptr)
    requires Inv(w) && h !in w.handles && (p == NULL || p in w.raw)
    ensures Inv(Step(w, Op<V>.TakePointer(h, p)))
  {
    Transferred(w, Step(w, Op<V>.TakePointer(h, p)), Outside(p), InHandle(h));
  }

  lemma FreeRawKeepsInv<V>(w: World<V>, p: Ptr)
    requires Inv(w) && p in w.raw
    ensures Inv(Step(w, Op<V>.FreeRaw(p)))
  {
    var w' := Step(w, Op<V>.FreeRaw(p));
    assert At(w, Outside(p)) == p;
    forall a | At(w', a) != NULL
      ensures At(w, a) == At(w', a) && At(w', a) in w'.heap.hops
    {
      assert At(w, a) == At(w', a);
    }
    forall q | q in w'.heap.hops
      ensures Owned(w', q)
    {
      var a :| At(w, a) == q;
      assert At(w', a) == q;
    }
    forall r, i | r in w'.routes && 0 <= i < |w'.routes[r]|
      ensures w'.routes[r][i] in w'.heap.hops
    {
      RoutesAreAt(w, r, i);
      assert At(w', InRoute(r, i)) != NULL;
    }
    Rearranged(w, w', a => a);
  }

  lemma AddMoveKeepsInv<V>(w: World<V>, r: nat, h: nat)
    requires Inv(w) && r in w.routes && h in w.handles && w.handles[h] != NULL
    ensures Inv(Step(w, Op<V>.AddMove(r, h)))
  {
    assert At(w, InHandle(h)) == w.handles[h];
    Transferred(w, Step(w, Op<V>.AddMove(r, h)), InHandle(h), InRoute(r, |w.routes[r]|));
  }

  lemma AddCopyKeepsInv<V>(w: World<V>, r: nat, h: nat, ok: bool)
    requires Inv(w) && r in w.routes && h in w.handles && w.handles[h] != NULL
    ensures Inv(Step(w, Op<V>.AddCopy(r, h, ok)))
  {
    assert At(w, InHandle(h)) == w.handles[h];
    var w' := Step(w, Op<V>.AddCopy(r, h, ok));
    if ok {
      var tail := InRoute(r, |w.routes[r]|);
      assert At(w', tail) == w.heap.next && At(w, tail) == NULL;
      forall a | a != tail
        ensures At(w', a) == At(w, a)
      {
      }
      forall p | p in w'.heap.hops
        ensures Owned(w', p)
      {
        if p != w.heap.next {
          var a :| At(w, a) == p;
          assert At(w', a) == p;
        }
      }
    }
  }

  lemma FreeRouteKeepsInv<V>(w: World<V>, r: nat)
    requires Inv(w) && r in w.routes
    ensures Inv(Step(w, Op<V>.FreeRoute(r)))
  {
    var w' := Step(w, Op<V>.FreeRoute(r));
    forall a | At(w', a) != NULL
      ensures At(w, a) == At(w', a) && At(w', a) in w'.heap.hops
    {
      assert At(w, a) == At(w', a);
      forall i | 0 <= i < |w.routes[r]|
        ensures w.routes[r][i] != At(w', a)
      {
        RoutesAreAt(w, r, i);
      }
    }
    forall p | p in w'.heap.hops
      ensures Owned(w', p)
    {
      var a :| At(w, a) == p;
      assert a.InRoute? ==> a.r != r;
      assert At(w', a) == p;
    }
    forall s, i | s in w'.routes && 0 <= i < |w'.routes[s]|
      ensures w'.routes[s][i] in w'.heap.hops
    {
      RoutesAreAt(w, s, i);
      assert At(w', InRoute(s, i)) != NULL;
    }
    Rearranged(w, w', a => a);
  }

  lemma ListedAt<V>(w: World<V>, r: nat, first: nat, a: Place)
    requires Inv(w) && r in w.routes
    requires forall h :: first <= h < first + |w.routes[r]| ==> h !in w.handles
    ensures if a.InHandle? && first <= a.h < first + |w.routes[r]|
            then At(w, a) == NULL && At(Listed(w, r, first), a) == w.heap.next + (a.h - first)
            else At(Listed(w, r, first), a) == At(w, a)
  {
    if a.InHandle? {
      NamedHas(first, Interval(w.heap.next, |w.routes[r]|), a.h);
    }
  }

  lemma ListedOwned<V>(w: World<V>, r: nat, first: nat, p: Ptr)
    requires Inv(w) && r in w.routes && p in Listed(w, r, first).heap.hops
    requires forall h :: first <= h < first + |w.routes[r]| ==> h !in w.handles
    ensures Owned(Listed(w, r, first), p)
  {
    if p in w.heap.hops {
      var a :| At(w, a) == p;
      ListedAt(w, r, first, a);
    } else {
      CopiesAreEqualAndFresh(w.heap, w.routes[r]);
      ListedAt(w, r, first, InHandle(first + (p - w.heap.next)));
    }
  }

  lemma ListedKeepsInv<V>(w: World<V>, r: nat, first: nat)
    requires Inv(w) && r in w.routes
    requires forall h :: first <= h < first + |w.routes[r]| ==> h !in w.handles
    ensures Inv(Listed(w, r, first))
  {
    var w' := Listed(w, r, first);
    CopiesKeep(w.heap, w.routes[r]);
    CopiesAreEqualAndFresh(w.heap, w.routes[r]);
    forall p | p in w'.heap.hops
      ensures 0 < p < w'.heap.next && Owned(w', p)
    {
      ListedOwned(w, r, first, p);
    }
    forall a | At(w', a) != NULL
      ensures At(w', a) in w'.heap.hops
    {
      ListedAt(w, r, first, a);
    }
    forall a, b | At(w', a) != NULL && At(w', a) == At(w', b)
      ensures a == b
    {
      ListedAt(w, r, first, a);
      ListedAt(w, r, first, b);
    }
  }

  lemma AssignKeepsInv<V>(w: World<V>, op: Op<V>)
    requires Inv(w) && Typed(w, op) && !Misuse(w, op) && (op.CopyAssign? || op.MoveAssign?)
    ensures Inv(Step(w, op))
  {
    if op.dst != op.src {
      var d := Dropped(w, op.dst);
      DroppedKeepsInv(w, op.dst);
      assert At(d, InHandle(op.src)) == w.handles[op.src];
      if op.CopyAssign? {
        CloneKeepsInv(d, op.dst, w.handles[op.src], op.ok);
      } else {
        MovedKeepsInv(d, op.dst, op.src);
      }
    }
  }

  lemma SetKeepsInv<V>(w: World<V>, h: nat, v: V)
    requires Inv(w) && h in w.handles && w.handles[h] != NULL
    ensures Inv(Step(w, Op<V>.Set(h, v)))
  {
    var w' := Step(w, Op<V>.Set(h, v));
    assert At(w, InHandle(h)) == w.handles[h];
    assert forall a :: At(w', a) == At(w, a);
    forall p | p in w'.heap.hops
      ensures Owned(w', p)
    {
      var a :| At(w, a) == p;
      assert At(w', a) == p;
    }
  }

  lemma NewRouteKeepsInv<V>(w: World<V>, r: nat)
    requires Inv(w) && r !in w.routes
    ensures Inv(Step(w, Op<V>.NewRoute(r)))
  {
    var w' := Step(w, Op<V>.NewRoute(r));
    assert forall a :: At(w', a) == At(w, a);
    forall p | p in w'.heap.hops
      ensures Owned(w', p)
    {
      var a :| At(w, a) == p;
      assert At(w', a) == p;
    }
  }

  lemma ListHopsKeepsInv<V>(w: World<V>, op: Op<V>)
    requires Inv(w) && Typed(w, op) && op.ListHops?
    ensures Inv(Step(w, op))
  {
    if op.memory < |w.routes[op.r]| {
      var w' := Step(w, op);
      assert forall a :: At(w', a) == At(w, a);
      Rearranged(w, w', a => a);
    } else {
      ListedKeepsInv(w, op.r, op.first);
    }
  }

  lemma StepKeepsInv<V>(w: World<V>, op: Op<V>)
    requires Inv(w) && Typed(w, op) && !Misuse(w, op)
    ensures Inv(Step(w, op))
  {
    match op
    case New(h, v, ok) => if ok { BornKeepsInv(w, h, v); }
    case CopyPointer(h, p, ok) => CloneKeepsInv(w, h, p, ok);
    case CopyConstruct(h, src, ok) =>
      assert At(w, InHandle(src)) == w.handles[src];
      CloneKeepsInv(w, h, w.handles[src], ok);
    case CopyAssign(_, _, _) => AssignKeepsInv(w, op);
    case MoveConstruct(h, src) => MovedKeepsInv(w, h, src);
    case MoveAssign(_, _) => AssignKeepsInv(w, op);
    case Destroy(h) =>
      DroppedKeepsInv(w, h);
      ForgottenKeepsInv(Dropped(w, h), h);
    case Take(h) => TakeKeepsInv(w, h);
    case TakePointer(h, p) => TakePointerKeepsInv(w, h, p);
    case FreeRaw(p) => FreeRawKeepsInv(w, p);
    case Set(h, v) => SetKeepsInv(w, h, v);
    case NewRoute(r) => NewRouteKeepsInv(w, r);
    case FreeRoute(r) => FreeRouteKeepsInv(w, r);
    case AddCopy(r, h, ok) => AddCopyKeepsInv(w, r, h, ok);
    case AddMove(r, h) => AddMoveKeepsInv(w, r, h);
    case ListHops(_, _, _) => ListHopsKeepsInv(w, op);
  }

  lemma MisuseBreaksInv<V>(w: World<V>, op: Op<V>)
    requires Inv(w) && Typed(w, op) && Misuse(w, op)
    ensures !Inv(Step(w, op))
  {
    var w' := Step(w, op);
    match op
    case TakePointer(h, p) =>
      assert At(w', InHandle(h)) == p;
      if p in w.heap.hops {
        var a :| At(w, a) == p;
        assert At(w', a) == p && a != InHandle(h);
      }
    case FreeRaw(p) =>
      if p in w.heap.hops {
        var a :| At(w, a) == p;
        assert At(w', a) == p;
      }
    case CopyPointer(_, _, _) => assert w'.heap.fault;
    case CopyConstruct(_, _, _) => assert w'.heap.fault;
    case CopyAssign(_, _, _) => assert w'.heap.fault;
    case Set(_, _) => assert w'.heap.fault;
    case AddCopy(_, _, _) => assert w'.heap.fault;
    case AddMove(_, _) => assert w'.heap.fault;
  }

  /** A live hop has one owner and no other. */
  ghost predicate OwnedOnce<V>(w: World<V>, p: Ptr) {
    Owned(w, p) && forall a, b :: At(w, a) == p && At(w, b) == p ==> a == b
  }

  /** An operation keeps single ownership unless it is a listed misuse; every misuse breaks it. */
  lemma StepSafeIff<V>(w: World<V>, op: Op<V>)
    requires Inv(w) && Typed(w, op)
    ensures Misuse(w, op) <==> !Inv(Step(w, op))
    ensures !Misuse(w, op) ==> forall p :: p in Step(w, op).heap.hops ==> OwnedOnce(Step(w, op), p)
  {
    if !Misuse(w, op) {
      StepKeepsInv(w, op);
      var w' := Step(w, op);
      forall p | p in w'.heap.hops
        ensures OwnedOnce(w', p)
      {
        InvIsSingleOwnership(w', p);
      }
    } else {
      MisuseBreaksInv(w, op);
    }
  }

  lemma InvIsSingleOwnership<V>(w: World<V>, p: Ptr)
    requires Inv(w) && p in w.heap.hops
    ensures OwnedOnce(w, p)
  {
    assert Owned(w, p) && p != NULL;
  }

  /** A clone that fails in copy assignment: the handle is null, the old hop is freed exactly, the
      source and every other place are untouched. */
  lemma FailedAssignment<V>(w: World<V>, dst: nat, src: nat)
    requires Inv(w) && dst in w.handles && src in w.handles && dst != src && w.handles[src] != NULL
    ensures var w' := Step(w, Op<V>.CopyAssign(dst, src, false));
            && Inv(w') && w'.handles == w.handles[dst := NULL]
            && w'.heap.hops == w.heap.hops - {w.handles[dst]}
            && w'.routes == w.routes && w'.raw == w.raw
  {
    StepKeepsInv(w, Op<V>.CopyAssign(dst, src, false));
    assert At(w, InHandle(dst)) == w.handles[dst];
    assert At(w, InHandle(src)) == w.handles[src];
    assert NULL !in w.heap.hops;
  }

  /** Copying is not safe for every source: a moved-from hop is cloned through null, into a new handle or
      into a route. */
  lemma CopyOfMovedFromFaults<V>(w: World<V>, p: Ptr, r: nat)
    requires Inv(w) && w.handles == map[0 := p] && p != NULL && r in w.routes
    ensures var moved := Step(w, Op<V>.MoveConstruct(1, 0));
            && Inv(moved)
            && Step(moved, Op<V>.CopyConstruct(2, 0, true)).heap.fault
            && Step(moved, Op<V>.AddCopy(r, 0, true)).heap.fault
            && Step(moved, Op<V>.AddMove(r, 0)).heap.fault
  {
    MovedKeepsInv(w, 1, 0);
    assert At(Step(w, Op<V>.MoveConstruct(1, 0)), InHandle(0)) == NULL;
  }

  // ---------- the value of a route over a whole run ----------

  function ValuesOf<V>(hops: map<Ptr, V>, ps: seq<Ptr>): seq<V>
    requires forall i :: 0 <= i < |ps| ==> ps[i] in hops
  {
    seq(|ps|, i requires 0 <= i < |ps| => hops[ps[i]])
  }

  /** What a reader of the route sees: the values of its hops in order. */
  ghost function RouteValue<V>(w: World<V>, r: nat): seq<V>
    requires Inv(w) && r in w.routes
  {
    ValuesOf(w.heap.hops, w.routes[r])
  }

  /** The value an operation appends to route `r`, if any. */
  ghost function Appended<V>(w: World<V>, op: Op<V>, r: nat): seq<V>
    requires Inv(w) && Typed(w, op) && !Misuse(w, op)
  {
    match op
    case AddCopy(s, h, ok) =>
      assert At(w, InHandle(h)) == w.handles[h];
      if s == r && ok then [w.heap.hops[w.handles[h]]] else []
    case AddMove(s, h) =>
      assert At(w, InHandle(h)) == w.handles[h];
      if s == r then [w.heap.hops[w.handles[h]]] else []
    case _ => []
  }

  /** Hops in a route belong to nobody else, so no operation on handles changes or frees them. */
  lemma RouteHopsUntouched<V>(w: World<V>, op: Op<V>, r: nat, i: nat)
    requires Inv(w) && Typed(w, op) && !Misuse(w, op)
    requires r in w.routes && i < |w.routes[r]| && op != FreeRoute(r)
    ensures var p := w.routes[r][i];
            && p in w.heap.hops && p in Step(w, op).heap.hops
            && Step(w, op).heap.hops[p] == w.heap.hops[p]
  {
    var p := w.routes[r][i];
    RoutesAreAt(w, r, i);
    match op
    case CopyAssign(dst, _, _) => assert At(w, InHandle(dst)) == w.handles[dst];
    case MoveAssign(dst, _) => assert At(w, InHandle(dst)) == w.handles[dst];
    case Destroy(h) => assert At(w, InHandle(h)) == w.handles[h];
    case Set(h, _) => assert At(w, InHandle(h)) == w.handles[h];
    case FreeRaw(q) => assert At(w, Outside(q)) == q;
    case FreeRoute(s) =>
      forall j | 0 <= j < |w.routes[s]|
        ensures w.routes[s][j] != p
      {
        RoutesAreAt(w, s, j);
      }
    case ListHops(s, _, _) => CopiesKeep(w.heap, w.routes[s]);
    case _ =>
  }

  /** Adding puts one hop with the handle's value at the tail; anything else leaves the list. */
  lemma StepGrowsList<V>(w: World<V>, op: Op<V>, r: nat)
    requires Inv(w) && Typed(w, op) && !Misuse(w, op) && r in w.routes && op != FreeRoute(r)
    ensures var w', n := Step(w, op), |w.routes[r]|;
            && r in w'.routes && |w'.routes[r]| == n + |Appended(w, op, r)|
            && w'.routes[r][..n] == w.routes[r]
            && (Appended(w, op, r) != [] ==>
                  w'.routes[r][n] in w'.heap.hops && [w'.heap.hops[w'.routes[r][n]]] == Appended(w, op, r))
  {
    if op.AddCopy? || op.AddMove? {
      assert At(w, InHandle(op.h)) == w.handles[op.h];
    }
  }

  lemma StepAppends<V>(w: World<V>, op: Op<V>, r: nat)
    requires Inv(w) && Typed(w, op) && !Misuse(w, op) && r in w.routes && op != FreeRoute(r)
    ensures Inv(Step(w, op)) && r in Step(w, op).routes
    ensures RouteValue(Step(w, op), r) == RouteValue(w, r) + Appended(w, op, r)
  {
    StepKeepsInv(w, op);
    StepGrowsList(w, op, r);
    var list, list' := w.routes[r], Step(w, op).routes[r];
    forall i | 0 <= i < |list|
      ensures list'[i] == list[i] && RouteValue(Step(w, op), r)[i] == RouteValue(w, r)[i]
    {
      assert list'[..|list|][i] == list'[i];
      RouteHopsUntouched(w, op, r, i);
    }
  }

  /** What is written through a handle is what a copy of it has. */
  lemma WrittenIsCopied<V>(w: World<V>, h: nat, v: V, g: nat)
    requires Inv(w) && h in w.handles && w.handles[h] != NULL && g !in w.handles
    ensures var w1 := Step(w, Op<V>.Set(h, v));
            var w2 := Step(w1, Op<V>.CopyConstruct(g, h, true));
            && Inv(w1) && At(w2, InHandle(g)) in w2.heap.hops && w2.heap.hops[At(w2, InHandle(g))] == v
  {
    SetKeepsInv(w, h, v);
    assert At(w, InHandle(h)) == w.handles[h];
  }

  /** And it is what a route gets, by copy or by move. */
  lemma WrittenIsAdded<V>(w: World<V>, h: nat, v: V, r: nat, add: Op<V>)
    requires Inv(w) && h in w.handles && w.handles[h] != NULL && r in w.routes
    requires add == AddCopy(r, h, true) || add == AddMove(r, h)
    ensures var w1 := Step(w, Op<V>.Set(h, v));
            var w2 := Step(w1, add);
            Inv(w1) && Inv(w2) && RouteValue(w2, r) == RouteValue(w, r) + [v]
  {
    var w1 := Step(w, Op<V>.Set(h, v));
    assert At(w, InHandle(h)) == w.handles[h];
    StepAppends(w, Op<V>.Set(h, v), r);
    assert RouteValue(w, r) + [] == RouteValue(w, r);
    StepAppends(w1, add, r);
  }

  ghost predicate Legal<V>(w: World<V>, ops: seq<Op<V>>)
    decreases |ops|
  {
    ops == [] ||
    (Typed(w, ops[0]) && Listable(w, ops[0]) && !Misuse(w, ops[0]) && Legal(Step(w, ops[0]), ops[1..]))
  }

  ghost function Run<V>(w: World<V>, ops: seq<Op<V>>): World<V>
    requires Legal(w, ops)
    decreases |ops|
  {
    if ops == [] then w else Run(Step(w, ops[0]), ops[1..])
  }

  function Start<V>(): World<V> { World(HopHeap(map[], 1, false), map[], map[], {}) }

  lemma {:induction false} RunKeepsInv<V>(w: World<V>, ops: seq<Op<V>>)
    requires Inv(w) && Legal(w, ops)
    ensures Inv(Run(w, ops))
    decreases |ops|
  {
    if ops != [] {
      StepKeepsInv(w, ops[0]);
      RunKeepsInv(Step(w, ops[0]), ops[1..]);
    }
  }

  /** Over whole runs: nothing freed was touched, every live hop has exactly one owner among handles,
      routes and outside code, no owner dangles, and when there are no owners there are no hops. */
  lemma RunIsSafe<V>(ops: seq<Op<V>>)
    requires Legal(Start(), ops)
    ensures var w := Run(Start(), ops);
            && !w.heap.fault
            && (forall p :: p in w.heap.hops ==> OwnedOnce(w, p))
            && (forall place :: At(w, place) != NULL ==> At(w, place) in w.heap.hops)
            && (w.handles == map[] && w.routes == map[] && w.raw == {} ==> w.heap.hops == map[])
  {
    assert Inv(Start<V>());
    RunKeepsInv(Start(), ops);
    var w := Run(Start(), ops);
    forall p | p in w.heap.hops
      ensures OwnedOnce(w, p)
    {
      InvIsSingleOwnership(w, p);
    }
    if w.handles == map[] && w.routes == map[] && w.raw == {} {
      forall p: Ptr
        ensures p !in w.heap.hops
      {
        assert Owned(w, p) ==> p == NULL;
      }
    }
  }

  /** Every value added to the route during a run, in the order it was added. */
  ghost function AllAppended<V>(w: World<V>, ops: seq<Op<V>>, r: nat): seq<V>
    requires Inv(w) && Legal(w, ops)
    decreases |ops|
  {
    if ops == [] then []
    else
      StepKeepsInv(w, ops[0]);
      Appended(w, ops[0], r) + AllAppended(Step(w, ops[0]), ops[1..], r)
  }

  /** Over any run in which the route lives, its hops are those it had and then the added ones, each
      with the value it had when added, whatever happened to handles, copies and listings since. */
  lemma {:induction false} RouteKeepsAddedHops<V>(w: World<V>, ops: seq<Op<V>>, r: nat)
    requires Inv(w) && Legal(w, ops) && r in w.routes
    requires forall i :: 0 <= i < |ops| ==> ops[i] != FreeRoute(r)
    ensures Inv(Run(w, ops)) && r in Run(w, ops).routes
    ensures RouteValue(Run(w, ops), r) == RouteValue(w, r) + AllAppended(w, ops, r)
    decreases |ops|
  {
    if ops != [] {
      StepAppends(w, ops[0], r);
      RouteKeepsAddedHops(Step(w, ops[0]), ops[1..], r);
      var first, rest := Appended(w, ops[0], r), AllAppended(Step(w, ops[0]), ops[1..], r);
      assert (RouteValue(w, r) + first) + rest == RouteValue(w, r) + (first + rest);
    }
  }

  /** `nexthops()` returns new hops with the values of the route's own, in order: the `i`-th handle
      listed owns a hop that did not exist before and equals the route's `i`-th. */
  lemma ListingEqualsRoute<V>(w: World<V>, r: nat, first: nat, memory: nat, i: nat)
    requires Inv(w) && Typed(w, Op<V>.ListHops(r, first, memory)) && |w.routes[r]| <= memory
    requires i < |w.routes[r]|
    ensures var w' := Step(w, Op<V>.ListHops(r, first, memory));
            var p := At(w', InHandle(first + i));
            && p !in w.heap.hops && p in w'.heap.hops
            && w'.heap.hops[p] == RouteValue(w, r)[i]
  {
    ListedAt(w, r, first, InHandle(first + i));
    CopyIsEqualAndFresh(w.heap, w.routes[r], i);
  }
}
