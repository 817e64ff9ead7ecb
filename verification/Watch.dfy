/** Watching a cache for changes: the callback list is owned by the `RouteAddressCache` handle, while the
    cache manager keeps a raw pointer to it. */
module Watch {
  import opened Options
  import opened Libnl
  import opened Enumeration

  type Subscriber = nat

  /** A change of an object, as libnl reports it. */
  datatype Event = Event(obj: nat, action: int)

  datatype Delivery = Delivery(to: Subscriber, event: Event)

  /** The callback lists on the C++ heap, by address. */
  datatype Memory = Memory(vectors: map<Ptr, seq<Subscriber>>, next: Ptr, fault: bool)

  function NewVector(m: Memory): (Memory, Ptr) {
    (m.(vectors := m.vectors[m.next := []], next := m.next + 1), m.next)
  }

  /** `callbacks->push_back(callback)` */
  function Pushed(m: Memory, p: Ptr, s: Subscriber): Memory {
    if p in m.vectors then m.(vectors := m.vectors[p := m.vectors[p] + [s]]) else m.(fault := true)
  }

  /** A `unique_ptr` letting go. */
  function Deleted(m: Memory, p: Ptr): Memory {
    m.(vectors := m.vectors - {p})
  }

  function Deliveries(to: seq<Subscriber>, event: Event): seq<Delivery> {
    seq(|to|, i requires 0 <= i < |to| => Delivery(to[i], event))
  }

  // ---------- the classes ----------

  class Process {
    var memory: Memory
    var log: seq<Delivery>

    constructor ()
      ensures memory == Memory(map[], 1, false) && log == []
    {
      memory, log := Memory(map[], 1, false), [];
    }
  }

  class RouteAddressCache {
    const process: Process
    var callbacks: Ptr

    constructor Own(process: Process, p: Ptr)
      ensures this.process == process && callbacks == p
    {
      this.process, this.callbacks := process, p;
    }

    constructor Move(other: RouteAddressCache)
      modifies other
      ensures process == other.process && callbacks == old(other.callbacks) && other.callbacks == NULL
    {
      process, callbacks := other.process, other.callbacks;
      new;
      other.callbacks := NULL;
    }

    method MoveAssign(other: RouteAddressCache)
      requires other.process == process
      modifies this, other, process
      ensures process.log == old(process.log)
      ensures this == other ==> callbacks == old(callbacks) && process.memory == old(process.memory)
      ensures this != other ==>
                && process.memory == Deleted(old(process.memory), old(callbacks))
                && callbacks == old(other.callbacks) && other.callbacks == NULL
    {
      if this != other {
        process.memory := Deleted(process.memory, callbacks);
        callbacks := other.callbacks;
        other.callbacks := NULL;
      }
    }

    method Watch(subscriber: Subscriber)
      modifies process
      ensures process.memory == Pushed(old(process.memory), callbacks, subscriber)
      ensures process.log == old(process.log)
    {
      process.memory := Pushed(process.memory, callbacks, subscriber);
    }

    method Destroy()
      modifies process
      ensures process.memory == Deleted(old(process.memory), callbacks) && process.log == old(process.log)
    {
      process.memory := Deleted(process.memory, callbacks);
    }
  }

  class RouteCacheManager {
    const process: Process
    /** The raw pointer libnl hands back to the callback, null before `addressCache` has succeeded. */
    var registered: Ptr

    constructor (process: Process)
      ensures this.process == process && registered == NULL
    {
      this.process, registered := process, NULL;
    }

    /** `addressCache`.  libnl accepts one cache of a kind for a manager (`ok` is whether it had memory);
        when it refuses, the exception destroys the vector. */
    method AddressCache(ok: bool) returns (r: RouteAddressCache?)
      modifies this, process
      ensures r != null <==> ok && old(registered) == NULL
      ensures r != null ==>
                && fresh(r) && r.process == process
                && (process.memory, r.callbacks) == NewVector(old(process.memory)) && registered == r.callbacks
      ensures r == null ==>
                registered == old(registered) &&
                process.memory == Deleted(NewVector(old(process.memory)).0, old(process.memory).next)
      ensures process.log == old(process.log)
    {
      var p := process.memory.next;
      process.memory := NewVector(process.memory).0;
      if !ok || registered != NULL {
        process.memory := Deleted(process.memory, p);
        return null;
      }
      registered := p;
      r := new RouteAddressCache.Own(process, p);
    }

    /** The callback given to libnl: through the raw pointer to everyone in the list. */
    method OnEvent(event: Event)
      modifies process
      ensures registered in old(process.memory).vectors ==>
                && process.memory == old(process.memory)
                && process.log == old(process.log) + Deliveries(old(process.memory).vectors[registered], event)
                && |process.log| == |old(process.log)| + |old(process.memory).vectors[registered]|
                && old(process.log) <= process.log
                && forall i :: 0 <= i < |old(process.memory).vectors[registered]| ==>
                     process.log[|old(process.log)| + i] == Delivery(old(process.memory).vectors[registered][i], event)
      ensures registered !in old(process.memory).vectors ==>
                process.memory == old(process.memory).(fault := true) && process.log == old(process.log)
    {
      if registered !in process.memory.vectors {
        process.memory := process.memory.(fault := true);
        return;
      }
      var list := process.memory.vectors[registered];
      var i := 0;
      while i < |list|
        invariant 0 <= i <= |list| && process.memory == old(process.memory)
        invariant process.log == old(process.log) + Deliveries(list, event)[..i]
      {
        process.log := process.log + [Delivery(list[i], event)];
        i := i + 1;
      }
    }
  }

  // ---------- every interleaving ----------

  datatype World = World(memory: Memory, handles: map<nat, Ptr>, registered: Ptr, log: seq<Delivery>)

  datatype Op =
    | AddressCache(h: nat, ok: bool)
    | Subscribe(h: nat, subscriber: Subscriber)
    | MoveConstruct(h: nat, src: nat)
    | MoveAssign(dst: nat, src: nat)
    | Destroy(h: nat)
    | Change(event: Event)

  predicate Typed(w: World, op: Op) {
    match op
    case AddressCache(h, _) => h !in w.handles
    case Subscribe(h, _) => h in w.handles
    case MoveConstruct(h, src) => h !in w.handles && src in w.handles
    case MoveAssign(dst, src) => dst in w.handles && src in w.handles
    case Destroy(h) => h in w.handles
    case Change(_) => w.registered != NULL
  }

  function Step(w: World, op: Op): World
    requires Typed(w, op)
  {
    match op
    case AddressCache(h, ok) =>
      var made := NewVector(w.memory);
      if ok && w.registered == NULL then
        w.(memory := made.0, handles := w.handles[h := made.1], registered := made.1)
      else w.(memory := Deleted(made.0, made.1))
    case Subscribe(h, s) => w.(memory := Pushed(w.memory, w.handles[h], s))
    case MoveConstruct(h, src) => w.(handles := w.handles[h := w.handles[src]][src := NULL])
    case MoveAssign(dst, src) =>
      if dst == src then w
      else w.(memory := Deleted(w.memory, w.handles[dst]),
              handles := w.handles[dst := w.handles[src]][src := NULL])
    case Destroy(h) => w.(memory := Deleted(w.memory, w.handles[h]), handles := w.handles - {h})
    case Change(e) =>
      if w.registered in w.memory.vectors
      then w.(log := w.log + Deliveries(w.memory.vectors[w.registered], e))
      else w.(memory := w.memory.(fault := true))
  }

  /** Some handle still owns the registered list. */
  ghost predicate OwnerLives(w: World) {
    exists h :: Owns(w, h)
  }

  predicate Owns(w: World, h: nat) {
    h in w.handles && w.handles[h] != NULL && w.handles[h] == w.registered
  }

  /** What the source leaves to its caller: no watching through a moved-from cache, and no events once
      the cache object is gone while its manager is still polled. */
  ghost predicate Misuse(w: World, op: Op)
    requires Typed(w, op)
  {
    match op
    case Subscribe(h, _) => w.handles[h] == NULL
    case Change(_) => !OwnerLives(w)
    case _ => false
  }

  /** The only list alive is the registered one, while its one owner lives; its address never changes. */
  ghost predicate Inv(w: World) {
    && !w.memory.fault && w.registered < w.memory.next
    && (forall p :: p in w.memory.vectors ==> p == w.registered)
    && (w.registered in w.memory.vectors <==> OwnerLives(w))
    && (forall h :: h in w.handles ==> w.handles[h] == NULL || Owns(w, h))
    && (forall g, h :: Owns(w, g) && Owns(w, h) ==> g == h)
  }

  lemma MovedKeepsInv(w: World, dst: nat, src: nat)
    requires Inv(w) && src in w.handles && dst != src && (dst in w.handles ==> w.handles[dst] == NULL)
    ensures Inv(w.(handles := w.handles[dst := w.handles[src]][src := NULL]))
  {
    var w' := w.(handles := w.handles[dst := w.handles[src]][src := NULL]);
    assert forall h :: Owns(w', h) <==> if h == dst then Owns(w, src) else h != src && Owns(w, h);
    if OwnerLives(w) {
      var h :| Owns(w, h);
      assert Owns(w', if h == src then dst else h);
    }
    if OwnerLives(w') {
      var h :| Owns(w', h);
      assert Owns(w, if h == dst then src else h);
    }
  }

  /** Letting go of the list of one handle, which stays behind null. */
  function Dropped(w: World, h: nat): World
    requires h in w.handles
  {
    w.(memory := Deleted(w.memory, w.handles[h]), handles := w.handles[h := NULL])
  }

  lemma DroppedKeepsInv(w: World, h: nat)
    requires Inv(w) && h in w.handles
    ensures Inv(Dropped(w, h))
  {
    var w' := Dropped(w, h);
    assert forall g :: Owns(w', g) <==> g != h && Owns(w, g);
    if OwnerLives(w) {
      var g :| Owns(w, g);
      assert g != h ==> Owns(w', g);
    }
    if OwnerLives(w') {
      var g :| Owns(w', g);
      assert Owns(w, g);
    }
  }

  lemma StepKeepsInv(w: World, op: Op)
    requires Inv(w) && Typed(w, op) && !Misuse(w, op)
    ensures Inv(Step(w, op))
  {
    var w' := Step(w, op);
    match op
    case AddressCache(h, ok) =>
      if ok && w.registered == NULL {
        assert Owns(w', h);
      } else {
        assert w'.memory.vectors == w.memory.vectors;
        assert forall g :: Owns(w', g) <==> Owns(w, g);
      }
    case Subscribe(h, _) =>
      assert Owns(w, h);
      assert forall g :: Owns(w', g) <==> Owns(w, g);
    case MoveConstruct(h, src) => MovedKeepsInv(w, h, src);
    case MoveAssign(dst, src) =>
      if dst != src {
        DroppedKeepsInv(w, dst);
        MovedKeepsInv(Dropped(w, dst), dst, src);
        assert w'.handles == Dropped(w, dst).handles[dst := w.handles[src]][src := NULL];
      }
    case Destroy(h) =>
      var d := Dropped(w, h);
      DroppedKeepsInv(w, h);
      assert forall g :: Owns(w', g) <==> Owns(d, g);
    case Change(_) =>
      assert forall g :: Owns(w', g) <==> Owns(w, g);
  }

  /** Exactly these two misuses reach freed or null memory. */
  lemma StepSafeIff(w: World, op: Op)
    requires Inv(w) && Typed(w, op)
    ensures Inv(Step(w, op)) <==> !Misuse(w, op)
    ensures Step(w, op).memory.fault <==> Misuse(w, op)
  {
    if !Misuse(w, op) {
      StepKeepsInv(w, op);
    }
  }

  // ---------- who is told what ----------

  function Start(): World { World(Memory(map[], 1, false), map[], NULL, []) }

  ghost predicate Legal(w: World, ops: seq<Op>)
    decreases |ops|
  {
    ops == [] || (Typed(w, ops[0]) && !Misuse(w, ops[0]) && Legal(Step(w, ops[0]), ops[1..]))
  }

  ghost function Run(w: World, ops: seq<Op>): World
    requires Legal(w, ops)
    decreases |ops|
  {
    if ops == [] then w else Run(Step(w, ops[0]), ops[1..])
  }

  /** Everyone subscribed during `ops`, in order. */
  function Subscribers(ops: seq<Op>): seq<Subscriber> {
    if ops == [] then []
    else
      var n := |ops| - 1;
      Subscribers(ops[..n]) + (if ops[n].Subscribe? then [ops[n].subscriber] else [])
  }

  /** What should be delivered: each event, once, to everyone subscribed before it, in order of
      subscription.  Which handle was used and where it has been moved does not enter. */
  function Expected(ops: seq<Op>): seq<Delivery> {
    if ops == [] then []
    else
      var n := |ops| - 1;
      Expected(ops[..n]) +
      (if ops[n].Change? then Deliveries(Subscribers(ops[..n]), ops[n].event) else [])
  }

  /** The delivery of the event that is operation `p.major` to the subscriber of the earlier operation `p.minor`. */
  function DeliveryAt(ops: seq<Op>, p: Pair): Option<Delivery> {
    if 0 <= p.minor < p.major < |ops| && ops[p.major].Change? && ops[p.minor].Subscribe?
    then Some(Delivery(ops[p.minor].subscriber, ops[p.major].event)) else None
  }

  function Heard(ops: seq<Op>): Pair -> Option<Delivery> {
    (p: Pair) => DeliveryAt(ops, p)
  }

  /** The deliveries of operation `n`, an event, to the subscribers among the first `m` operations. */
  function HeardAt(ops: seq<Op>, n: nat, m: nat): Pair -> Option<Delivery> {
    (p: Pair) => if p.major == n && p.minor < m then DeliveryAt(ops, p) else None
  }

  lemma DeliveriesNext(ops: seq<Op>, m: nat, event: Event)
    requires 0 < m <= |ops|
    ensures Deliveries(Subscribers(ops[..m]), event) ==
            Deliveries(Subscribers(ops[..m - 1]), event) +
            if ops[m - 1].Subscribe? then [Delivery(ops[m - 1].subscriber, event)] else []
  {
    assert ops[..m][..m - 1] == ops[..m - 1];
  }

  lemma HeardAtNext(got: seq<Delivery>, ops: seq<Op>, n: nat, m: nat)
    requires 0 < m <= n < |ops| && ops[n].Change? && Lists(got, Earlier, HeardAt(ops, n, m - 1))
    ensures var more := if ops[m - 1].Subscribe? then [Delivery(ops[m - 1].subscriber, ops[n].event)] else [];
            Lists(got + more, Earlier, HeardAt(ops, n, m))
  {
    if ops[m - 1].Subscribe? {
      var last := Delivery(ops[m - 1].subscriber, ops[n].event);
      ListsOneMore(got, Earlier, HeardAt(ops, n, m - 1), HeardAt(ops, n, m), Pair(n, m - 1), last);
    } else {
      assert got + [] == got;
      ListsSame(got, Earlier, HeardAt(ops, n, m - 1), HeardAt(ops, n, m));
    }
  }

  lemma {:induction false} EventListed(ops: seq<Op>, n: nat, m: nat)
    requires m <= n < |ops| && ops[n].Change?
    ensures Lists(Deliveries(Subscribers(ops[..m]), ops[n].event), Earlier, HeardAt(ops, n, m))
  {
    if m == 0 {
      ListsNothing(Earlier, HeardAt(ops, n, m));
      assert Deliveries(Subscribers(ops[..0]), ops[n].event) == [];
    } else {
      EventListed(ops, n, m - 1);
      HeardAtNext(Deliveries(Subscribers(ops[..m - 1]), ops[n].event), ops, n, m);
      DeliveriesNext(ops, m, ops[n].event);
    }
  }

  lemma HeardInAll(before: seq<Delivery>, last: seq<Delivery>, ops: seq<Op>)
    requires ops != [] && Lists(before, Earlier, Heard(ops[..|ops| - 1]))
    requires ops[|ops| - 1].Change? ==> Lists(last, Earlier, HeardAt(ops, |ops| - 1, |ops| - 1))
    requires !ops[|ops| - 1].Change? ==> last == []
    ensures Lists(before + last, Earlier, Heard(ops))
  {
    var n := |ops| - 1;
    if ops[n].Change? {
      ListsBoth(before, last, Earlier, Heard(ops[..n]), HeardAt(ops, n, n), Heard(ops));
    } else {
      assert before + [] == before;
      ListsSame(before, Earlier, Heard(ops[..n]), Heard(ops));
    }
  }

  /** Every pair of a subscription and a later event is a delivery, and there are no others: event by event,
      and for each in order of subscription. */
  lemma {:induction false} ExpectedListed(ops: seq<Op>)
    ensures Lists(Expected(ops), Earlier, Heard(ops))
  {
    if ops == [] {
      ListsNothing(Earlier, Heard(ops));
    } else {
      var n := |ops| - 1;
      ExpectedListed(ops[..n]);
      if ops[n].Change? {
        EventListed(ops, n, n);
        HeardInAll(Expected(ops[..n]), Deliveries(Subscribers(ops[..n]), ops[n].event), ops);
      } else {
        HeardInAll(Expected(ops[..n]), [], ops);
      }
    }
  }

  lemma {:induction false} RunInTwo(w: World, a: seq<Op>, op: Op)
    requires Legal(w, a + [op])
    ensures Legal(w, a) && Typed(Run(w, a), op) && !Misuse(Run(w, a), op)
    ensures Run(w, a + [op]) == Step(Run(w, a), op)
    decreases |a|
  {
    if a == [] {
      assert a + [op] == [op] && [op][1..] == [];
    } else {
      assert (a + [op])[0] == a[0] && (a + [op])[1..] == a[1..] + [op];
      RunInTwo(Step(w, a[0]), a[1..], op);
    }
  }

  /** The list at the registered address is everyone subscribed so far. */
  ghost predicate ListIs(w: World, subscribers: seq<Subscriber>) {
    && (w.registered in w.memory.vectors ==> w.memory.vectors[w.registered] == subscribers)
    && (w.registered == NULL ==> subscribers == [])
  }

  lemma StepKeepsList(w: World, op: Op, subscribers: seq<Subscriber>)
    requires Inv(w) && Typed(w, op) && !Misuse(w, op) && ListIs(w, subscribers)
    ensures ListIs(Step(w, op), subscribers + if op.Subscribe? then [op.subscriber] else [])
    ensures Step(w, op).log == w.log + if op.Change? then Deliveries(subscribers, op.event) else []
  {
    assert subscribers + [] == subscribers && w.log + [] == w.log;
    if op.Subscribe? {
      assert Owns(w, op.h);
    }
  }

  /** Over every interleaving of subscriptions, moves of the cache handle, its end, and events: each
      event reaches exactly the callbacks subscribed before it, once each, in order. */
  lemma EveryEventIsDelivered(ops: seq<Op>)
    requires Legal(Start(), ops)
    ensures !Run(Start(), ops).memory.fault
    ensures forall log :: Lists(log, Earlier, Heard(ops)) <==> log == Run(Start(), ops).log
  {
    RunDelivers(ops);
    ExpectedListed(ops);
    forall log: seq<Delivery> | Lists(log, Earlier, Heard(ops))
      ensures log == Run(Start(), ops).log
    {
      OrdersAreStrict();
      ListIsUnique(log, Expected(ops), Earlier, Heard(ops));
    }
  }

  lemma {:induction false} RunDelivers(ops: seq<Op>)
    requires Legal(Start(), ops)
    ensures Inv(Run(Start(), ops)) && ListIs(Run(Start(), ops), Subscribers(ops))
    ensures Run(Start(), ops).log == Expected(ops)
    decreases |ops|
  {
    if ops == [] {
      assert !OwnerLives(Start());
    } else {
      var n := |ops| - 1;
      assert ops == ops[..n] + [ops[n]];
      RunInTwo(Start(), ops[..n], ops[n]);
      RunDelivers(ops[..n]);
      StepKeepsInv(Run(Start(), ops[..n]), ops[n]);
      StepKeepsList(Run(Start(), ops[..n]), ops[n], Subscribers(ops[..n]));
    }
  }

  /** The guarantee needs the cache object: an event after its end reads a freed list. */
  lemma EventAfterTheCacheDied(event: Event)
    ensures var w := Run(Start(), [AddressCache(0, true), Destroy(0)]);
            Typed(w, Change(event)) && Step(w, Change(event)).memory.fault
  {
    var ops := [AddressCache(0, true), Destroy(0)];
    var w1 := Step(Start(), ops[0]);
    assert Legal(Start(), ops) && Run(Start(), ops) == Step(w1, ops[1]) by {
      assert ops[1..] == [Destroy(0)] && ops[1..][1..] == [];
      assert Run(w1, [Destroy(0)]) == Run(Step(w1, Destroy(0)), []);
    }
  }
}
