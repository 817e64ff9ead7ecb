/** A program running operations on real `NextHop` and `Route` objects, proved equal to the step function
    of `HopOwnership`. */
module HopPrograms {
  import opened Libnl
  import opened NextHops
  import opened HopOwnership

  class Program<V> {
    const lib: HopLibrary<V>
    var handles: map<nat, NextHop<V>>
    var routes: map<nat, Route<V>>
    ghost var raw: set<Ptr>

    ghost predicate Valid()
      reads this, handles.Values, routes.Values
    {
      && (forall h :: h in handles ==> handles[h].lib == lib)
      && (forall r :: r in routes ==> routes[r].lib == lib)
      && (forall g, h :: g in handles && h in handles && g != h ==> handles[g] != handles[h])
      && (forall q, r :: q in routes && r in routes && q != r ==> routes[q] != routes[r])
    }

    ghost function Held(): map<nat, Ptr>
      reads this, handles.Values
    {
      map h | h in handles :: handles[h].nexthop
    }

    ghost function Lists(): map<nat, seq<Ptr>>
      reads this, routes.Values
    {
      map r | r in routes :: routes[r].hops
    }

    ghost function View(): World<V>
      reads this, handles.Values, routes.Values, lib
    {
      World(lib.heap, Held(), Lists(), raw)
    }

    ghost predicate Ready(op: Op<V>)
      reads this, handles.Values, routes.Values, lib
    {
      Valid() && Typed(View(), op) && Listable(View(), op)
    }

    constructor ()
      ensures Valid() && View() == Start()
    {
      lib := new HopLibrary<V>();
      handles, routes, raw := map[], map[], {};
    }

    method Add(h: nat, handle: NextHop<V>)
      requires Valid() && h !in handles && handle.lib == lib && handle !in handles.Values
      modifies this`handles
      ensures Valid() && handles == old(handles)[h := handle]
      ensures Held() == old(Held())[h := handle.nexthop]
    {
      handles := handles[h := handle];
    }

    method New(op: Op<V>)
      requires op.New? && Ready(op) && 0 < lib.heap.next
      modifies this`handles, lib
      ensures Valid() && View() == Step(old(View()), op)
      ensures fresh(handles.Values - old(handles.Values))
    {
      var r := NextHop.Construct(lib, op.value, op.ok);
      if r != null {
        Add(op.h, r);
      }
      assert Lists() == old(Lists());
    }

    method CopyPointer(op: Op<V>)
      requires op.CopyPointer? && Ready(op)
      modifies this`handles, lib
      ensures Valid() && View() == Step(old(View()), op)
      ensures fresh(handles.Values - old(handles.Values))
    {
      var r := NextHop.CreateCopy(lib, op.p, op.ok);
      if r != null {
        Add(op.h, r);
      }
      assert Lists() == old(Lists());
    }

    method CopyConstruct(op: Op<V>)
      requires op.CopyConstruct? && Ready(op)
      modifies this`handles, lib
      ensures Valid() && View() == Step(old(View()), op)
      ensures fresh(handles.Values - old(handles.Values))
    {
      var r := NextHop.CreateCopy(lib, handles[op.src].nexthop, op.ok);
      if r != null {
        Add(op.h, r);
      }
      assert Lists() == old(Lists());
    }

    method TakePointer(op: Op<V>)
      requires op.TakePointer? && Ready(op)
      modifies this`handles, this`raw
      ensures Valid() && View() == Step(old(View()), op)
      ensures fresh(handles.Values - old(handles.Values))
    {
      var r := new NextHop<V>.TakeOwnership(lib, op.p);
      raw, handles := raw - {op.p}, handles[op.h := r];
      assert Held() == old(Held())[op.h := op.p];
    }

    method CopyAssign(op: Op<V>)
      requires op.CopyAssign? && Ready(op)
      modifies lib, handles.Values
      ensures Valid() && View() == Step(old(View()), op)
    {
      var thrown := handles[op.dst].CopyAssign(handles[op.src], op.ok);
      assert Held() == Step(old(View()), op).handles;
    }

    method Move(op: Op<V>)
      requires op.MoveConstruct? && Ready(op)
      modifies this`handles, handles.Values
      ensures Valid() && View() == Step(old(View()), op)
      ensures fresh(handles.Values - old(handles.Values))
    {
      var r := new NextHop<V>.Move(handles[op.src]);
      handles := handles[op.h := r];
      assert Held() == Step(old(View()), op).handles;
    }

    method MoveAssign(op: Op<V>)
      requires op.MoveAssign? && Ready(op)
      modifies lib, handles.Values
      ensures Valid() && View() == Step(old(View()), op)
    {
      handles[op.dst].MoveAssign(handles[op.src]);
      assert Held() == Step(old(View()), op).handles;
    }

    method Destroy(op: Op<V>)
      requires op.Destroy? && Ready(op)
      modifies this`handles, lib
      ensures Valid() && View() == Step(old(View()), op)
      ensures fresh(handles.Values - old(handles.Values))
    {
      handles[op.h].Destroy();
      handles := handles - {op.h};
      assert Held() == Step(old(View()), op).handles;
    }

    method Take(op: Op<V>)
      requires op.Take? && Ready(op)
      modifies this`raw, handles.Values
      ensures Valid() && View() == Step(old(View()), op)
    {
      var p := handles[op.h].Take();
      raw := if p == NULL then raw else raw + {p};
      assert Held() == Step(old(View()), op).handles;
    }

    method Change(op: Op<V>)
      requires (op.Set? || op.FreeRaw?) && Ready(op)
      modifies this`raw, lib
      ensures Valid() && View() == Step(old(View()), op)
    {
      if op.Set? {
        handles[op.h].Set(op.value);
      } else {
        lib.Free(op.p);
        raw := raw - {op.p};
      }
      assert Held() == old(Held()) && Lists() == old(Lists());
    }

    method NewRoute(op: Op<V>)
      requires op.NewRoute? && Ready(op)
      modifies this`routes
      ensures Valid() && View() == Step(old(View()), op)
      ensures fresh(routes.Values - old(routes.Values))
    {
      var r := new Route<V>(lib);
      routes := routes[op.r := r];
      assert Lists() == old(Lists())[op.r := []];
    }

    method FreeRoute(op: Op<V>)
      requires op.FreeRoute? && Ready(op) && Inv(View())
      modifies this`routes, lib, routes.Values
      ensures Valid() && View() == Step(old(View()), op)
      ensures fresh(routes.Values - old(routes.Values))
    {
      RouteIsProper(View(), op.r);
      routes[op.r].Free();
      routes := routes - {op.r};
      assert Lists() == old(Lists()) - {op.r};
    }

    method AddCopy(op: Op<V>)
      requires op.AddCopy? && Ready(op)
      modifies lib, routes.Values
      ensures Valid() && View() == Step(old(View()), op)
    {
      var thrown := routes[op.r].AddCopy(handles[op.h], op.ok);
      assert Lists() == Step(old(View()), op).routes;
    }

    method AddMove(op: Op<V>)
      requires op.AddMove? && Ready(op)
      modifies lib, routes.Values, handles.Values
      ensures Valid() && View() == Step(old(View()), op)
    {
      routes[op.r].AddMove(handles[op.h]);
      assert Lists() == Step(old(View()), op).routes;
      assert Held() == Step(old(View()), op).handles;
    }

    method ListHops(op: Op<V>)
      requires op.ListHops? && Ready(op) && Inv(View())
      modifies this`handles, lib
      ensures Valid() && View() == Step(old(View()), op)
      ensures fresh(handles.Values - old(handles.Values))
    {
      RouteIsProper(View(), op.r);
      assert forall h :: h in Held() <==> h in handles;
      ListInto(op.first, routes[op.r], op.memory);
      assert Lists() == old(Lists());
    }

    method ListInto(first: nat, route: Route<V>, memory: nat)
      requires Valid() && route in routes.Values && route.lib == lib
      requires 0 < lib.heap.next && forall q :: q in lib.heap.hops ==> 0 < q < lib.heap.next
      requires forall i :: 0 <= i < |route.hops| ==> route.hops[i] in lib.heap.hops
      requires forall h :: first <= h < first + |route.hops| ==> h !in handles
      modifies this`handles, lib
      ensures Valid() && fresh(handles.Values - old(handles.Values))
      ensures memory < |route.hops| ==>
                Held() == old(Held()) && lib.heap == old(lib.heap).(next := old(lib.heap).next + memory)
      ensures |route.hops| <= memory ==>
                && Held() == old(Held()) + Named(first, Interval(old(lib.heap).next, |route.hops|))
                && lib.heap == CopiedHops(old(lib.heap), route.hops)
    {
      var result, thrown := route.Nexthops(memory);
      if !thrown {
        AddAll(first, result, old(lib.heap).next);
      }
    }

    method AddAll(first: nat, result: seq<NextHop<V>>, ghost from: Ptr)
      requires Valid() && forall h :: first <= h < first + |result| ==> h !in handles
      requires forall x :: x in result ==> x !in handles.Values
      requires forall k :: 0 <= k < |result| ==> result[k].lib == lib && result[k].nexthop == from + k
      requires forall j, k :: 0 <= j < k < |result| ==> result[j] != result[k]
      modifies this`handles
      ensures Valid() && forall x :: x in handles.Values ==> x in old(handles.Values) || x in result
      ensures Held() == old(Held()) + Named(first, Interval(from, |result|))
    {
      var added := Named(first, result);
      ghost var ptrs := Named(first, Interval(from, |result|));
      forall h: nat
        ensures h in added <==> h in ptrs
        ensures h in added ==> first <= h < first + |result| && added[h] == result[h - first]
        ensures h in added ==> ptrs[h] == from + (h - first)
      {
        NamedHas(first, result, h);
        NamedHas(first, Interval(from, |result|), h);
      }
      NamedFrom(first, result);
      DistinctEntries(added, result, first);
      AddMap(added, ptrs);
    }

    method AddMap(added: map<nat, NextHop<V>>, ghost ptrs: map<nat, Ptr>)
      requires Valid() && forall h :: h in added ==> h !in handles
      requires forall h :: h in added ==> added[h].lib == lib && added[h] !in handles.Values
      requires forall g, h :: g in added && h in added && g != h ==> added[g] != added[h]
      requires added.Keys == ptrs.Keys && forall h :: h in added ==> added[h].nexthop == ptrs[h]
      modifies this`handles
      ensures Valid() && handles == old(handles) + added
      ensures Held() == old(Held()) + ptrs
    {
      handles := handles + added;
    }

    // ---------- any of them, and all in turn ----------

    method Execute(op: Op<V>)
      requires Ready(op) && Inv(View())
      modifies this, lib, handles.Values, routes.Values
      ensures Valid() && View() == Step(old(View()), op)
      ensures fresh(handles.Values - old(handles.Values)) && fresh(routes.Values - old(routes.Values))
    {
      match op {
        case New(_, _, _) => New(op);
        case CopyPointer(_, _, _) => CopyPointer(op);
        case TakePointer(_, _) => TakePointer(op);
        case CopyConstruct(_, _, _) => CopyConstruct(op);
        case CopyAssign(_, _, _) => CopyAssign(op);
        case MoveConstruct(_, _) => Move(op);
        case MoveAssign(_, _) => MoveAssign(op);
        case Destroy(_) => Destroy(op);
        case Take(_) => Take(op);
        case Set(_, _) => Change(op);
        case FreeRaw(_) => Change(op);
        case NewRoute(_) => NewRoute(op);
        case FreeRoute(_) => FreeRoute(op);
        case AddCopy(_, _, _) => AddCopy(op);
        case AddMove(_, _) => AddMove(op);
        case ListHops(_, _, _) => ListHops(op);
      }
    }

    /** A whole run on objects is the run of the state machine, and every hop keeps its single owner. */
    method ExecuteAll(ops: seq<Op<V>>)
      requires Valid() && Inv(View()) && Legal(View(), ops)
      modifies this, lib, handles.Values, routes.Values
      ensures Valid() && View() == Run(old(View()), ops)
      ensures Inv(View()) && !lib.heap.fault
    {
      ghost var w, rest := View(), ops;
      RunKeepsInv(w, ops);
      var i := 0;
      while i < |ops|
        invariant 0 <= i <= |ops| && rest == ops[i..]
        invariant Valid() && fresh(handles.Values - old(handles.Values))
        invariant fresh(routes.Values - old(routes.Values))
        invariant View() == w && Inv(w) && Legal(w, rest) && Run(w, rest) == Run(old(View()), ops)
      {
        assert rest[0] == ops[i] && rest[1..] == ops[i + 1..];
        StepKeepsInv(w, ops[i]);
        Execute(ops[i]);
        w, rest := Step(w, ops[i]), rest[1..];
        i := i + 1;
      }
    }
  }

  lemma DistinctEntries<T>(added: map<nat, T>, result: seq<T>, first: nat)
    requires forall j, k :: 0 <= j < k < |result| ==> result[j] != result[k]
    requires forall h :: h in added ==> first <= h < first + |result| && added[h] == result[h - first]
    ensures forall g, h :: g in added && h in added && g != h ==> added[g] != added[h]
  {
    forall g, h | g in added && h in added && g != h
      ensures added[g] != added[h]
    {
      if g < h {
        assert result[g - first] != result[h - first];
      } else {
        assert result[h - first] != result[g - first];
      }
    }
  }

  lemma NamedFrom<T>(first: nat, xs: seq<T>)
    ensures forall h: nat :: h in Named(first, xs) <==> first <= h < first + |xs|
    ensures forall h :: h in Named(first, xs) ==> Named(first, xs)[h] in xs
  {
    forall h: nat
      ensures h in Named(first, xs) <==> first <= h < first + |xs|
      ensures h in Named(first, xs) ==> Named(first, xs)[h] in xs
    {
      NamedHas(first, xs, h);
    }
  }

  /** A route's hops are distinct and alive. */
  lemma RouteIsProper<V>(w: World<V>, r: nat)
    requires Inv(w) && r in w.routes
    ensures forall i, j :: 0 <= i < j < |w.routes[r]| ==> w.routes[r][i] != w.routes[r][j]
    ensures forall i :: 0 <= i < |w.routes[r]| ==> w.routes[r][i] in w.heap.hops
  {
    forall i, j | 0 <= i < j < |w.routes[r]|
      ensures w.routes[r][i] != w.routes[r][j]
    {
      assert At(w, InRoute(r, i)) == w.routes[r][i] && At(w, InRoute(r, j)) == w.routes[r][j];
    }
  }
}
