/** A program that runs any sequence of operations on real handle objects.  Its methods are proved
    equal to the step function, so what `HandlesProofs` shows of every run holds of the handles. */
module Programs {
  import opened Libnl
  import opened Handles
  import opened HandlesProofs

  class Program<V> {
    const lib: Library<V>
    var handles: map<nat, Handle<V>>
    ghost var foreign: multiset<Ptr>

    /** Distinct names are distinct C++ objects. */
    ghost predicate Valid()
      reads this, handles.Values
    {
      && (forall h :: h in handles ==> handles[h].lib == lib)
      && (forall g, h :: g in handles && h in handles && g != h ==> handles[g] != handles[h])
    }

    ghost function Slots(): map<nat, Slot>
      reads this, handles.Values
    {
      map h | h in handles :: Slot(handles[h].kind, handles[h].ptr)
    }

    ghost function View(): World<V>
      reads this, handles.Values, lib
    {
      World(lib.heap, Slots(), foreign)
    }

    constructor ()
      ensures Valid() && View() == Start() && fresh(lib) && handles == map[]
    {
      lib := new Library<V>();
      handles, foreign := map[], multiset{};
    }

    method Add(h: nat, handle: Handle<V>)
      requires Valid() && h !in handles && handle.lib == lib && handle !in handles.Values
      modifies this`handles
      ensures Valid() && handles == old(handles)[h := handle]
      ensures Slots() == old(Slots())[h := Slot(handle.kind, handle.ptr)]
    {
      handles := handles[h := handle];
    }

    method Construct(op: Op<V>)
      requires op.Construct? && Valid() && Typed(View(), op)
      modifies this, lib
      ensures Valid() && View() == Step(old(View()), op)
      ensures fresh(handles.Values - old(handles.Values))
    {
      var r := Handle.Construct(lib, op.kind, op.value, op.ok);
      if r != null {
        Add(op.h, r);
      }
    }

    method FromPointer(op: Op<V>)
      requires op.FromPointer? && Valid() && Typed(View(), op)
      modifies this, lib
      ensures Valid() && View() == Step(old(View()), op)
      ensures fresh(handles.Values - old(handles.Values))
    {
      if op.mode.CreateCopy? {
        var r := Handle.CreateCopy(lib, op.kind, op.p, op.ok);
        if r != null {
          Add(op.h, r);
        }
      } else if op.mode.TakeOwnership? {
        var r := new Handle<V>.Take(lib, op.kind, op.p);
        foreign := foreign - multiset{op.p};
        Add(op.h, r);
      } else {
        var r := new Handle<V>.Share(lib, op.kind, op.p);
        Add(op.h, r);
      }
    }

    method CopyConstruct(op: Op<V>)
      requires op.CopyConstruct? && Valid() && Typed(View(), op)
      modifies this, lib
      ensures Valid() && View() == Step(old(View()), op)
      ensures fresh(handles.Values - old(handles.Values))
    {
      var r := handles[op.src].CopyConstruct(op.ok);
      if r != null {
        Add(op.h, r);
      }
    }

    method CopyAssign(op: Op<V>)
      requires op.CopyAssign? && Valid() && Typed(View(), op)
      modifies lib, handles.Values
      ensures Valid() && View() == Step(old(View()), op)
    {
      handles[op.dst].CopyAssign(handles[op.src], op.ok);
      assert Slots() == Step(old(View()), op).handles;
    }

    method MoveConstruct(op: Op<V>)
      requires op.MoveConstruct? && Valid() && Typed(View(), op)
      modifies this, handles.Values
      ensures Valid() && View() == Step(old(View()), op)
      ensures fresh(handles.Values - old(handles.Values))
    {
      var r := new Handle<V>.Move(handles[op.src]);
      handles := handles[op.h := r];
      assert Slots() == Step(old(View()), op).handles;
    }

    method MoveAssign(op: Op<V>)
      requires op.MoveAssign? && Valid() && Typed(View(), op)
      modifies lib, handles.Values
      ensures Valid() && View() == Step(old(View()), op)
    {
      handles[op.dst].MoveAssign(handles[op.src]);
      assert Slots() == Step(old(View()), op).handles;
    }

    method Destroy(op: Op<V>)
      requires op.Destroy? && Valid() && Typed(View(), op)
      modifies this, lib
      ensures Valid() && View() == Step(old(View()), op)
      ensures fresh(handles.Values - old(handles.Values))
    {
      handles[op.h].Destroy();
      handles := handles - {op.h};
      assert Slots() == Step(old(View()), op).handles;
    }

    method ForeignNew(op: Op<V>)
      requires op.ForeignNew? && Valid() && Typed(View(), op)
      modifies this`foreign, lib
      ensures Valid() && View() == Step(old(View()), op)
    {
      var p := lib.New(op.value);
      foreign := foreign + multiset{p};
      assert Slots() == old(Slots());
    }

    method ForeignGet(op: Op<V>)
      requires op.ForeignGet? && Valid() && Typed(View(), op)
      modifies this`foreign, lib
      ensures Valid() && View() == Step(old(View()), op)
    {
      lib.Get(op.p);
      foreign := foreign + multiset{op.p};
      assert Slots() == old(Slots());
    }

    method ForeignPut(op: Op<V>)
      requires op.ForeignPut? && Valid() && Typed(View(), op)
      modifies this`foreign, lib
      ensures Valid() && View() == Step(old(View()), op)
    {
      lib.Put(op.p);
      foreign := foreign - multiset{op.p};
      assert Slots() == old(Slots());
    }

    method Execute(op: Op<V>)
      requires Valid() && Typed(View(), op)
      modifies this, lib, handles.Values
      ensures Valid() && View() == Step(old(View()), op)
      ensures fresh(handles.Values - old(handles.Values))
    {
      match op {
        case Construct(_, _, _, _) => Construct(op);
        case FromPointer(_, _, _, _, _) => FromPointer(op);
        case CopyConstruct(_, _, _) => CopyConstruct(op);
        case CopyAssign(_, _, _) => CopyAssign(op);
        case MoveConstruct(_, _) => MoveConstruct(op);
        case MoveAssign(_, _) => MoveAssign(op);
        case Destroy(_) => Destroy(op);
        case ForeignNew(_) => ForeignNew(op);
        case ForeignGet(_) => ForeignGet(op);
        case ForeignPut(_) => ForeignPut(op);
      }
    }

    /** A whole run on objects is the run of the state machine, and never touches a freed object. */
    method ExecuteAll(ops: seq<Op<V>>)
      requires Valid() && Inv(View()) && Legal(View(), ops)
      modifies this, lib, handles.Values
      ensures Valid() && View() == Run(old(View()), ops)
      ensures Inv(View()) && !lib.heap.fault
    {
      RunKeepsInv(View(), ops);
      var i := 0;
      ghost var rest := ops;
      while i < |ops|
        invariant 0 <= i <= |ops| && rest == ops[i..]
        invariant Valid() && fresh(handles.Values - old(handles.Values))
        invariant Legal(View(), rest) && Run(View(), rest) == Run(old(View()), ops)
      {
        assert rest[0] == ops[i] && rest[1..] == ops[i + 1..];
        Execute(ops[i]);
        rest := rest[1..];
        i := i + 1;
      }
    }
  }
}
