/** A program running operations on real `RouteAddressCache` handles and their manager, proved equal to the
    step function of `Watch`. */
module WatchPrograms {
  import opened Libnl
  import opened Watch
  import opened Enumeration

  class Program {
    const process: Process
    const manager: RouteCacheManager
    var handles: map<nat, RouteAddressCache>

    ghost predicate Valid()
      reads this, handles.Values
    {
      && manager.process == process
      && (forall h :: h in handles ==> handles[h].process == process)
      && (forall g, h :: g in handles && h in handles && g != h ==> handles[g] != handles[h])
    }

    ghost function Held(): map<nat, Ptr>
      reads this, handles.Values
    {
      map h | h in handles :: handles[h].callbacks
    }

    ghost function View(): World
      reads this, handles.Values, process, manager
    {
      World(process.memory, Held(), manager.registered, process.log)
    }

    constructor ()
      ensures Valid() && View() == Start() && fresh(process) && fresh(manager) && handles == map[]
    {
      var p := new Process();
      process := p;
      manager := new RouteCacheManager(p);
      handles := map[];
    }

    method Add(h: nat, handle: RouteAddressCache)
      requires Valid() && h !in handles && handle.process == process && handle !in handles.Values
      modifies this
      ensures Valid() && handles == old(handles)[h := handle]
      ensures Held() == old(Held())[h := handle.callbacks]
    {
      handles := handles[h := handle];
    }

    method MakeCache(op: Op)
      requires op.AddressCache? && Valid() && Typed(View(), op)
      modifies this, process, manager
      ensures Valid() && View() == Step(old(View()), op)
      ensures fresh(handles.Values - old(handles.Values))
    {
      var r := manager.AddressCache(op.ok);
      if r != null {
        Add(op.h, r);
      }
    }

    method MoveCache(op: Op)
      requires (op.MoveConstruct? || op.MoveAssign?) && Valid() && Typed(View(), op)
      modifies this, process, handles.Values
      ensures Valid() && View() == Step(old(View()), op)
      ensures fresh(handles.Values - old(handles.Values))
    {
      if op.MoveConstruct? {
        var r := new RouteAddressCache.Move(handles[op.src]);
        handles := handles[op.h := r];
      } else {
        handles[op.dst].MoveAssign(handles[op.src]);
      }
      assert Held() == Step(old(View()), op).handles;
    }

    method Execute(op: Op)
      requires Valid() && Typed(View(), op)
      modifies this, process, manager, handles.Values
      ensures Valid() && View() == Step(old(View()), op)
      ensures fresh(handles.Values - old(handles.Values))
    {
      match op {
        case AddressCache(_, _) => MakeCache(op);
        case MoveConstruct(_, _) => MoveCache(op);
        case MoveAssign(_, _) => MoveCache(op);
        case Subscribe(h, s) =>
          handles[h].Watch(s);
          assert Held() == old(Held());
        case Destroy(h) =>
          handles[h].Destroy();
          handles := handles - {h};
          assert Held() == old(Held()) - {h};
        case Change(event) =>
          manager.OnEvent(event);
          assert Held() == old(Held());
      }
    }

    /** From a fresh start, real handles and a real manager deliver, in any interleaving, each event to
        everyone subscribed before it, and no freed list is read. */
    method ExecuteAll(ops: seq<Op>)
      requires Valid() && View() == Start() && Legal(Start(), ops)
      modifies this, process, manager, handles.Values
      ensures Lists(process.log, Earlier, Heard(ops)) && !process.memory.fault
    {
      EveryEventIsDelivered(ops);
      ghost var w, rest := View(), ops;
      var i := 0;
      while i < |ops|
        invariant 0 <= i <= |ops| && rest == ops[i..]
        invariant Valid() && fresh(handles.Values - old(handles.Values))
        invariant View() == w && Legal(w, rest) && Run(w, rest) == Run(Start(), ops)
      {
        assert rest[0] == ops[i] && rest[1..] == ops[i + 1..];
        Execute(ops[i]);
        w, rest := Step(w, ops[i]), rest[1..];
        i := i + 1;
      }
    }
  }
}
