/** What single ownership of next hops amounts to: values in variables and lists, with a collector that
    removes after each operation what nothing refers to.  The collected machine never frees a hop and shares
    no definition of an operation with `HopOwnership`. */
module CollectedHops {
  import opened Libnl
  import opened NextHops
  import opened HopOwnership

  datatype Store<V> = Store(values: map<Ptr, V>, handles: map<nat, Ptr>, routes: map<nat, seq<Ptr>>,
                            raw: set<Ptr>, next: Ptr)

  /** A new hop for handle `h`. */
  function Holding<V>(s: Store<V>, h: nat, v: V): Store<V> {
    s.(values := s.values[s.next := v], handles := s.handles[h := s.next], next := s.next + 1)
  }

  /** A copy of the hop at `p` for handle `h`, which is null when there is no memory. */
  function Copied<V>(s: Store<V>, h: nat, p: Ptr, ok: bool): Store<V> {
    if p in s.values && ok then Holding(s, h, s.values[p]) else s
  }

  /** One operation without freeing anything. */
  function Assign<V>(s: Store<V>, op: Op<V>): Store<V> {
    match op
    case New(h, v, ok) => if ok then Holding(s, h, v) else s
    case CopyPointer(h, p, ok) => Copied(s, h, p, ok)
    case TakePointer(h, p) => s.(handles := s.handles[h := p], raw := s.raw - {p})
    case CopyConstruct(h, src, ok) => if src in s.handles then Copied(s, h, s.handles[src], ok) else s
    case CopyAssign(dst, src, ok) =>
      if dst == src || src !in s.handles then s
      else Copied(s.(handles := s.handles[dst := NULL]), dst, s.handles[src], ok)
    case MoveConstruct(h, src) =>
      if src in s.handles then s.(handles := s.handles[h := s.handles[src]][src := NULL]) else s
    case MoveAssign(dst, src) =>
      if dst == src || src !in s.handles then s
      else s.(handles := s.handles[dst := s.handles[src]][src := NULL])
    case Destroy(h) => s.(handles := s.handles - {h})
    case Take(h) =>
      if h !in s.handles then s
      else s.(handles := s.handles[h := NULL], raw := s.raw + ({s.handles[h]} - {NULL}))
    case Set(h, v) => if h in s.handles then s.(values := s.values[s.handles[h] := v]) else s
    case FreeRaw(p) => s.(raw := s.raw - {p})
    case NewRoute(r) => s.(routes := s.routes[r := []])
    case FreeRoute(r) => s.(routes := s.routes - {r})
    case AddCopy(r, h, ok) =>
      if r !in s.routes || h !in s.handles || s.handles[h] !in s.values || !ok then s
      else s.(values := s.values[s.next := s.values[s.handles[h]]],
              routes := s.routes[r := s.routes[r] + [s.next]], next := s.next + 1)
    case AddMove(r, h) =>
      if r !in s.routes || h !in s.handles then s
      else s.(handles := s.handles[h := NULL], routes := s.routes[r := s.routes[r] + [s.handles[h]]])
    case ListHops(r, first, memory) =>
      if r !in s.routes then s
      else if memory < |s.routes[r]| then s.(next := s.next + memory)
      else Listing(s, s.routes[r], first)
  }

  /** New copies of the listed hops, one after another, for handles `first`, `first + 1` and so on. */
  function Listing<V>(s: Store<V>, list: seq<Ptr>, first: nat): Store<V> {
    if list == [] then s
    else
      var n := |list| - 1;
      Copied(Listing(s, list[..n], first), first + n, list[n], true)
  }

  predicate Reachable<V>(s: Store<V>, p: Ptr) {
    || p in s.raw
    || (exists h :: h in s.handles && s.handles[h] == p)
    || (exists r :: r in s.routes && p in s.routes[r])
  }

  function Collect<V>(s: Store<V>): Store<V> {
    s.(values := map p | p in s.values && Reachable(s, p) :: s.values[p])
  }

  /** The world as references and values. */
  function Plain<V>(w: World<V>): Store<V> {
    Store(w.heap.hops, w.handles, w.routes, w.raw, w.heap.next)
  }

  lemma ReachableIffOwned<V>(w: World<V>, p: Ptr)
    requires Inv(w) && p != NULL
    ensures Reachable(Plain(w), p) <==> Owned(w, p)
  {
    if Owned(w, p) {
      var a :| At(w, a) == p;
      match a
      case InHandle(h) => assert w.handles[h] == p;
      case InRoute(r, i) => assert w.routes[r][i] in w.routes[r];
      case Outside(q) => assert q in w.raw;
    }
    if h :| h in w.handles && w.handles[h] == p {
      assert At(w, InHandle(h)) == p;
    }
    if r :| r in w.routes && p in w.routes[r] {
      var i :| 0 <= i < |w.routes[r]| && w.routes[r][i] == p;
      assert At(w, InRoute(r, i)) == p;
    }
    if p in w.raw {
      assert At(w, Outside(p)) == p;
    }
  }

  /** Without freeing, all references are the same, and so is the value of every hop that lives. */
  ghost predicate Follows<V>(w: World<V>, op: Op<V>)
    requires Typed(w, op) && Listable(w, op)
  {
    var s, w' := Assign(Plain(w), op), Step(w, op);
    && s.handles == w'.handles && s.routes == w'.routes && s.raw == w'.raw && s.next == w'.heap.next
    && NULL !in s.values
    && forall p :: p in w'.heap.hops ==> p in s.values && s.values[p] == w'.heap.hops[p]
  }

  lemma CopyingFollows<V>(w: World<V>, op: Op<V>)
    requires Inv(w) && Typed(w, op) && !Misuse(w, op)
    requires op.New? || op.CopyPointer? || op.CopyConstruct?
    ensures Follows(w, op)
  {
    if op.CopyConstruct? {
      assert At(w, InHandle(op.src)) == w.handles[op.src];
    }
  }

  lemma AssigningFollows<V>(w: World<V>, op: Op<V>)
    requires Inv(w) && Typed(w, op) && !Misuse(w, op) && op.CopyAssign?
    ensures Follows(w, op)
  {
    assert At(w, InHandle(op.src)) == w.handles[op.src];
    assert At(w, InHandle(op.dst)) == w.handles[op.dst];
  }

  lemma MovingFollows<V>(w: World<V>, op: Op<V>)
    requires Inv(w) && Typed(w, op) && !Misuse(w, op)
    requires op.MoveConstruct? || op.MoveAssign? || op.Destroy? || op.Take? || op.TakePointer?
    ensures Follows(w, op)
  {
    if op.Destroy? {
      assert At(w, InHandle(op.h)) == w.handles[op.h];
    } else if op.MoveAssign? {
      assert At(w, InHandle(op.dst)) == w.handles[op.dst];
    }
  }

  lemma ChangingFollows<V>(w: World<V>, op: Op<V>)
    requires Inv(w) && Typed(w, op) && !Misuse(w, op)
    requires op.Set? || op.FreeRaw? || op.NewRoute? || op.FreeRoute?
    ensures Follows(w, op)
  {
    if op.Set? {
      assert At(w, InHandle(op.h)) == w.handles[op.h];
    }
  }

  lemma AddingFollows<V>(w: World<V>, op: Op<V>)
    requires Inv(w) && Typed(w, op) && !Misuse(w, op) && (op.AddCopy? || op.AddMove?)
    ensures Follows(w, op)
  {
    assert At(w, InHandle(op.h)) == w.handles[op.h];
  }

  lemma NamedMore(m: map<nat, Ptr>, first: nat, from: Ptr, n: nat)
    ensures (m + Named<Ptr>(first, Interval(from, n)))[first + n := from + n] ==
            m + Named<Ptr>(first, Interval(from, n + 1))
  {
    assert Interval(from, n + 1)[..n] == Interval(from, n);
    var named: map<nat, Ptr> := Named<Ptr>(first, Interval(from, n));
    assert Named<Ptr>(first, Interval(from, n + 1)) == named[first + n := from + n];
    assert (m + named)[first + n := from + n] == m + named[first + n := from + n];
  }

  /** The hops after one copy more. */
  lemma CopiedMore<V>(h: HopHeap<V>, list: seq<Ptr>)
    requires forall i :: 0 <= i < |list| ==> list[i] in h.hops && list[i] < h.next
    requires list != []
    ensures var n := |list| - 1;
            var hops := CopiedHops(h, list[..n]).hops;
            list[n] in hops && CopiedHops(h, list).hops == hops[h.next + n := hops[list[n]]]
  {
    CopiesKeep(h, list[..|list| - 1]);
  }

  /** Listing has copied these hops so far. */
  ghost predicate ListedSoFar<V>(s: Store<V>, w: World<V>, list: seq<Ptr>, first: nat)
    requires forall i :: 0 <= i < |list| ==> list[i] in w.heap.hops
  {
    && s.values == CopiedHops(w.heap, list).hops && s.next == w.heap.next + |list|
    && s.routes == w.routes && s.raw == w.raw
    && s.handles == w.handles + Named<Ptr>(first, Interval(w.heap.next, |list|))
  }

  lemma OneListed<V>(s: Store<V>, w: World<V>, list: seq<Ptr>, first: nat)
    requires forall i :: 0 <= i < |list| ==> list[i] in w.heap.hops && list[i] < w.heap.next
    requires list != [] && ListedSoFar(s, w, list[..|list| - 1], first)
    ensures ListedSoFar(Copied(s, first + |list| - 1, list[|list| - 1], true), w, list, first)
  {
    var n := |list| - 1;
    CopiedMore(w.heap, list);
    NamedMore(w.handles, first, w.heap.next, n);
  }

  lemma {:induction false} ListingIs<V>(w: World<V>, list: seq<Ptr>, first: nat)
    requires forall i :: 0 <= i < |list| ==> list[i] in w.heap.hops && list[i] < w.heap.next
    ensures ListedSoFar(Listing(Plain(w), list, first), w, list, first)
  {
    if list != [] {
      var n := |list| - 1;
      ListingIs(w, list[..n], first);
      OneListed(Listing(Plain(w), list[..n], first), w, list, first);
    } else {
      assert w.handles + map[] == w.handles;
    }
  }

  lemma ListingFollows<V>(w: World<V>, op: Op<V>)
    requires Inv(w) && Typed(w, op) && op.ListHops?
    ensures Follows(w, op)
  {
    if |w.routes[op.r]| <= op.memory {
      ListingIs(w, w.routes[op.r], op.first);
      CopiesKeep(w.heap, w.routes[op.r]);
      CopiesAreEqualAndFresh(w.heap, w.routes[op.r]);
    }
  }

  lemma StepFollows<V>(w: World<V>, op: Op<V>)
    requires Inv(w) && Typed(w, op) && !Misuse(w, op)
    ensures Follows(w, op)
  {
    match op
    case New(_, _, _) => CopyingFollows(w, op);
    case CopyPointer(_, _, _) => CopyingFollows(w, op);
    case CopyConstruct(_, _, _) => CopyingFollows(w, op);
    case CopyAssign(_, _, _) => AssigningFollows(w, op);
    case TakePointer(_, _) => MovingFollows(w, op);
    case MoveConstruct(_, _) => MovingFollows(w, op);
    case MoveAssign(_, _) => MovingFollows(w, op);
    case Destroy(_) => MovingFollows(w, op);
    case Take(_) => MovingFollows(w, op);
    case Set(_, _) => ChangingFollows(w, op);
    case FreeRaw(_) => ChangingFollows(w, op);
    case NewRoute(_) => ChangingFollows(w, op);
    case FreeRoute(_) => ChangingFollows(w, op);
    case AddCopy(_, _, _) => AddingFollows(w, op);
    case AddMove(_, _) => AddingFollows(w, op);
    case ListHops(_, _, _) => ListingFollows(w, op);
  }

  lemma LiveIsCollected<V>(s: Store<V>, w: World<V>)
    requires Inv(w) && NULL !in s.values
    requires s.handles == w.handles && s.routes == w.routes && s.raw == w.raw && s.next == w.heap.next
    requires forall p :: p in w.heap.hops ==> p in s.values && s.values[p] == w.heap.hops[p]
    ensures Plain(w) == Collect(s)
  {
    forall p: Ptr
      ensures p in w.heap.hops <==> p in s.values && Reachable(s, p)
    {
      assert Reachable(s, p) == Reachable(Plain(w), p);
      if p != NULL {
        ReachableIffOwned(w, p);
      }
    }
    assert w.heap.hops == Collect(s).values;
  }

  /** Freeing by the owner is collecting: after any operation that is not a misuse, exactly the hops that
      something refers to live, with the values and under the pointers they have without freeing. */
  lemma OwningIsCollecting<V>(w: World<V>, op: Op<V>)
    requires Inv(w) && Typed(w, op) && !Misuse(w, op)
    ensures Inv(Step(w, op))
    ensures Plain(Step(w, op)) == Collect(Assign(Plain(w), op))
  {
    StepKeepsInv(w, op);
    StepFollows(w, op);
    LiveIsCollected(Assign(Plain(w), op), Step(w, op));
  }

  function CollectedRun<V>(s: Store<V>, ops: seq<Op<V>>): Store<V>
    decreases |ops|
  {
    if ops == [] then s else CollectedRun(Collect(Assign(s, ops[0])), ops[1..])
  }

  /** Over every run. */
  lemma {:induction false} RunIsCollected<V>(w: World<V>, ops: seq<Op<V>>)
    requires Inv(w) && Legal(w, ops)
    ensures Plain(Run(w, ops)) == CollectedRun(Plain(w), ops)
    decreases |ops|
  {
    if ops != [] {
      OwningIsCollecting(w, ops[0]);
      RunIsCollected(Step(w, ops[0]), ops[1..]);
    }
  }
}
