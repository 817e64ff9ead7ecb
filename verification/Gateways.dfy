/** The gateway of a `NextHop`: like an address field, but its setter neither checks the clone it makes nor
    reports that it failed. */
module Gateways {
  import opened Libnl
  import opened Handles
  import opened AddressFields
  import Options

  /** The setter on the heap: clone, let libnl take its own reference and drop the old one, put the clone.
      `src` is the pointer of the address given, if one is given. */
  function SetGatewayHeap<V>(h: Heap<V>, old': Ptr, given: bool, src: Ptr, ok: bool): (Heap<V>, Ptr) {
    var made := if given then Clone(h, src, ok) else (h, NULL);
    var taken := if made.1 == NULL then made.0 else GetRef(made.0, made.1);
    (PutRef(PutRef(taken, old'), made.1), made.1)
  }

  class NextHop<V> {
    const lib: Library<V>
    /** The gateway pointer inside libnl's object. */
    var gateway: Ptr

    constructor (lib: Library<V>)
      ensures this.lib == lib && gateway == NULL
    {
      this.lib, gateway := lib, NULL;
    }

    /** `rtnl_route_nh_set_gateway` */
    method RawSet(p: Ptr)
      modifies this, lib
      ensures gateway == p
      ensures lib.heap == PutRef(if p == NULL then old(lib.heap) else GetRef(old(lib.heap), p), old(gateway))
    {
      var before := gateway;
      if p != NULL {
        lib.Get(p);
      }
      gateway := p;
      lib.Put(before);
    }

    /** `gateway(optional<Address>)`.  With memory the field holds an equal address of its own; without, it
        is empty, as if no address had been given.  Only an address that was moved from is a fault. */
    method SetGateway(address: Handle?<V>, ok: bool)
      requires address != null ==> address.lib == lib && NullOrLive(lib.heap, address.ptr)
      requires WellFormed(lib.heap) && NullOrLive(lib.heap, gateway)
      modifies this, lib
      ensures var src := if address == null then NULL else address.ptr;
              (lib.heap, gateway) == SetGatewayHeap(old(lib.heap), old(gateway), address != null, src, ok)
      ensures lib.heap.fault <==> old(lib.heap).fault || (address != null && address.ptr == NULL)
      ensures NullOrLive(lib.heap, gateway) && WellFormed(lib.heap)
      ensures if address != null && address.ptr != NULL && ok
              then gateway !in old(lib.heap).objs && gateway != NULL
                   && lib.heap.objs[gateway] == Object(1, old(lib.heap).objs[address.ptr].value)
              else gateway == NULL
    {
      var cloned := NULL;
      if address != null {
        cloned := lib.Copy(address.ptr, ok);
      }
      RawSet(cloned);
      lib.Put(cloned);
    }

    /** `gateway()`: nothing when unset, otherwise a copy, or an exception when copying fails. */
    method Gateway(ok: bool) returns (r: Handle?<V>, thrown: bool)
      modifies lib
      ensures gateway == NULL ==> r == null && !thrown && lib.heap == old(lib.heap)
      ensures gateway != NULL ==>
                && lib.heap == Clone(old(lib.heap), gateway, ok).0
                && (thrown <==> r == null)
                && (r == null <==> Clone(old(lib.heap), gateway, ok).1 == NULL)
                && (r != null ==> fresh(r) && r.lib == lib && r.ptr == Clone(old(lib.heap), gateway, ok).1)
    {
      if gateway != NULL {
        r := Handle.CreateCopy(lib, AddressKind, gateway, ok);
        thrown := r == null;
      } else {
        r, thrown := null, false;
      }
    }
  }

  predicate NullOrLive<V>(h: Heap<V>, p: Ptr) { p == NULL || p in h.objs }

  /** What a get reads after a set of the address `src`. */
  function ReadAfterSet<V>(h: Heap<V>, old': Ptr, src: Ptr, ok: bool): Options.Option<V> {
    var (after, gateway) := SetGatewayHeap(h, old', true, src, ok);
    if gateway in after.objs then Options.Some(after.objs[gateway].value) else Options.None
  }

  /** A gateway that was set is read back if and only if there was memory for its copy: failing, the
      setter drops the old gateway and says nothing. */
  lemma ReadBackIffCopied<V>(h: Heap<V>, old': Ptr, src: Ptr, ok: bool)
    requires WellFormed(h) && src in h.objs && NullOrLive(h, old')
    ensures ReadAfterSet(h, old', src, ok) == Options.Some(h.objs[src].value) <==> ok
    ensures !ok ==> ReadAfterSet(h, old', src, ok) == Options.None
                    && SetGatewayHeap(h, old', true, src, ok) == SetGatewayHeap(h, old', false, NULL, ok)
  {
    assert NULL !in PutRef(h, old').objs;
  }

  /** With memory a set does what a set of an address field does; without, and when nothing is given, what
      clearing one does.  So what `AddressFields` shows of runs holds of the gateway with that reading. */
  lemma GatewayIsAField<V>(h: Heap<V>, old': Ptr, src: Ptr, ok: bool)
    requires WellFormed(h) && src in h.objs && NullOrLive(h, old')
    ensures SetGatewayHeap(h, old', true, src, ok).0 ==
            if ok then SetHeap(h, old', src, true, true).0 else Assigned(h, old', NULL)
    ensures SetGatewayHeap(h, old', false, NULL, ok).0 == Assigned(h, old', NULL)
  {
    if ok {
      assert SetGatewayHeap(h, old', true, src, ok).0.objs == SetHeap(h, old', src, true, true).0.objs;
    }
  }
}
