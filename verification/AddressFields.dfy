/** The five address fields of a `RouteAddress`: setters store a copy of the caller's `Address`, getters
    return a copy of what is stored. */
module AddressFields {
  import opened Libnl
  import opened Handles
  import opened HandlesProofs
  import opened Options

  datatype Field = Local | Peer | Broadcast | Multicast | Anycast

  // ---------- the code ----------

  datatype Outcome = Done | CopyFailed | Refused

  /** What `rtnl_addr_set_local` and its siblings do to the heap when they accept: drop the reference on
      the old address, take one on the new. */
  function Assigned<V>(h: Heap<V>, old': Ptr, new': Ptr): Heap<V> {
    var dropped := PutRef(h, old');
    if new' == NULL then dropped else GetRef(dropped, new')
  }

  /** A whole set: copy, hand over, destroy the copy. */
  function SetHeap<V>(h: Heap<V>, old': Ptr, src: Ptr, ok: bool, accepted: bool): (Heap<V>, Outcome) {
    var made := Clone(h, src, ok);
    if made.1 == NULL then (made.0, CopyFailed)
    else if !accepted then (PutRef(made.0, made.1), Refused)
    else (PutRef(Assigned(made.0, old', made.1), made.1), Done)
  }

  function Stored(fields: map<Field, Ptr>, f: Field): Ptr {
    if f in fields then fields[f] else NULL
  }

  class RouteAddress<V> {
    const lib: Library<V>
    /** The address pointers inside libnl's object. */
    var fields: map<Field, Ptr>

    constructor (lib: Library<V>)
      ensures this.lib == lib && fields == map[]
    {
      this.lib, fields := lib, map[];
    }

    /** libnl's setter, which may refuse, for instance an address of another family. */
    method RawSet(f: Field, p: Ptr, accepted: bool)
      modifies this, lib
      ensures !accepted ==> fields == old(fields) && lib.heap == old(lib.heap)
      ensures accepted ==>
                && lib.heap == Assigned(old(lib.heap), Stored(old(fields), f), p)
                && fields == if p == NULL then old(fields) - {f} else old(fields)[f := p]
    {
      if accepted {
        lib.Put(Stored(fields, f));
        if p != NULL {
          lib.Get(p);
          fields := fields[f := p];
        } else {
          fields := fields - {f};
        }
      }
    }

    method Set(f: Field, address: Handle<V>, ok: bool, accepted: bool) returns (outcome: Outcome)
      requires address.lib == lib && address.kind == AddressKind
      modifies this, lib
      ensures (lib.heap, outcome) == SetHeap(old(lib.heap), Stored(old(fields), f), address.ptr, ok, accepted)
      ensures fields == if outcome.Done? then old(fields)[f := Clone(old(lib.heap), address.ptr, ok).1] else old(fields)
      ensures 0 < old(lib.heap).next ==>
                && (outcome == CopyFailed <==> !ok || address.ptr !in old(lib.heap).objs)
                && (outcome == Refused <==> ok && address.ptr in old(lib.heap).objs && !accepted)
                && (outcome == Done <==> ok && address.ptr in old(lib.heap).objs && accepted)
    {
      var copy := address.CopyConstruct(ok);
      if copy == null {
        return CopyFailed;
      }
      RawSet(f, copy.ptr, accepted);
      copy.Destroy();
      outcome := if accepted then Done else Refused;
    }

    /** The overloads taking an optional address. */
    method SetOptional(f: Field, address: Handle?<V>, ok: bool, accepted: bool) returns (outcome: Outcome)
      requires address != null ==> address.lib == lib && address.kind == AddressKind
      requires 0 < lib.heap.next
      modifies this, lib
      ensures address != null ==>
                && (lib.heap, outcome) == SetHeap(old(lib.heap), Stored(old(fields), f), address.ptr, ok, accepted)
                && fields == (if outcome.Done? then old(fields)[f := Clone(old(lib.heap), address.ptr, ok).1]
                              else old(fields))
                && (outcome == CopyFailed <==> !ok || address.ptr !in old(lib.heap).objs)
                && (outcome == Refused <==> ok && address.ptr in old(lib.heap).objs && !accepted)
      ensures address == null ==>
                && outcome == (if accepted then Done else Refused)
                && lib.heap == (if accepted then PutRef(old(lib.heap), Stored(old(fields), f)) else old(lib.heap))
                && fields == (if accepted then old(fields) - {f} else old(fields))
    {
      if address != null {
        outcome := Set(f, address, ok, accepted);
      } else {
        RawSet(f, NULL, accepted);
        outcome := if accepted then Done else Refused;
      }
    }

    /** Nothing for an unset field; otherwise a copy, or an exception when copying fails. */
    method Get(f: Field, ok: bool) returns (r: Handle?<V>, thrown: bool)
      modifies lib
      ensures f !in fields ==> r == null && !thrown && lib.heap == old(lib.heap)
      ensures f in fields ==>
                && lib.heap == Clone(old(lib.heap), fields[f], ok).0
                && (thrown <==> r == null)
                && (r == null <==> Clone(old(lib.heap), fields[f], ok).1 == NULL)
                && (r != null ==> fresh(r) && r.lib == lib && r.kind == AddressKind
                                  && r.ptr == Clone(old(lib.heap), fields[f], ok).1)
    {
      if f in fields {
        r := Handle.CreateCopy(lib, AddressKind, fields[f], ok);
        thrown := r == null;
      } else {
        r, thrown := null, false;
      }
    }
  }

  // ---------- any program around one `RouteAddress` ----------

  /** All handles of the program, and the fields, whose references are among the foreign ones. */
  datatype State<V> = State(w: World<V>, fields: map<Field, Ptr>)

  /** `temp` names the temporary `Address` inside a setter. */
  datatype FieldOp<V> =
    | OnHandles(op: Op<V>)
    | Modify(h: nat, value: V)
    | SetField(f: Field, src: nat, temp: nat, ok: bool, accepted: bool)
    | ClearField(f: Field, accepted: bool)
    | GetField(f: Field, h: nat, ok: bool)

  /** A raw pointer whose ownership an operation on handles touches from outside. */
  function RawPointer<V>(op: Op<V>): Ptr {
    if (op.FromPointer? && !op.mode.CreateCopy?) || op.ForeignGet? || op.ForeignPut? then op.p else NULL
  }

  predicate IsAddress<V>(w: World<V>, h: nat) { h in w.handles && w.handles[h].kind == AddressKind }

  predicate TypedField<V>(s: State<V>, op: FieldOp<V>) {
    match op
    case OnHandles(o) => Typed(s.w, o)
    case Modify(h, _) => IsAddress(s.w, h)
    case SetField(_, src, temp, _, _) => IsAddress(s.w, src) && temp !in s.w.handles
    case ClearField(_, _) => true
    case GetField(_, h, _) => h !in s.w.handles
  }

  /** As for handles; writing through or copying a moved-from address; and reaching around the class for
      the pointers inside it. */
  predicate MisuseField<V>(s: State<V>, op: FieldOp<V>)
    requires TypedField(s, op)
  {
    match op
    case OnHandles(o) => Misuse(s.w, o) || (RawPointer(o) != NULL && RawPointer(o) in s.fields.Values)
    case Modify(h, _) => s.w.handles[h].ptr == NULL
    case SetField(_, src, _, _, _) => s.w.handles[src].ptr == NULL
    case ClearField(_, _) => false
    case GetField(_, _, _) => false
  }

  /** Handing over the address held by `temp`. */
  function Handover<V>(s: State<V>, f: Field, temp: nat): State<V>
    requires IsAddress(s.w, temp)
  {
    var p := s.w.handles[temp].ptr;
    var dropped := Step(s.w, ForeignPut(Stored(s.fields, f)));
    State(Step(dropped, ForeignGet(p)), s.fields[f := p])
  }

  function FieldStep<V>(s: State<V>, op: FieldOp<V>): State<V>
    requires TypedField(s, op)
  {
    match op
    case OnHandles(o) => s.(w := Step(s.w, o))
    case Modify(h, v) => s.(w := s.w.(heap := Write(s.w.heap, s.w.handles[h].ptr, v)))
    case SetField(f, src, temp, ok, accepted) =>
      var copied := s.(w := Step(s.w, CopyConstruct(temp, src, ok)));
      if temp !in copied.w.handles then copied
      else
        var set' := if accepted then Handover(copied, f, temp) else copied;
        set'.(w := Step(set'.w, Destroy(temp)))
    case ClearField(f, accepted) =>
      if accepted then State(Step(s.w, ForeignPut(Stored(s.fields, f))), s.fields - {f}) else s
    case GetField(f, h, ok) =>
      if f in s.fields then s.(w := Step(s.w, FromPointer(h, AddressKind, CreateCopy, s.fields[f], ok))) else s
  }

  /** A stored address belongs to its field alone: no handle refers to it, no other field holds it. */
  ghost predicate Exclusive<V>(w: World<V>, p: Ptr) {
    p in w.heap.objs && Holders(w.handles, p) == {} && w.foreign[p] == 1
  }

  ghost predicate FieldInv<V>(s: State<V>) {
    && Inv(s.w)
    && (forall f :: f in s.fields ==> Exclusive(s.w, s.fields[f]))
    && (forall f, g :: f in s.fields && g in s.fields && s.fields[f] == s.fields[g] ==> f == g)
  }

  /** What a reader of a field sees. */
  ghost function FieldValue<V>(s: State<V>, f: Field): Option<V>
    requires FieldInv(s)
  {
    if f in s.fields then Some(s.w.heap.objs[s.fields[f]].value) else None
  }

  // ---------- operations elsewhere leave an exclusive address alone ----------

  lemma HeldIsNotExclusive<V>(w: World<V>, h: nat, p: Ptr)
    requires Exclusive(w, p) && h in w.handles
    ensures w.handles[h].ptr != p
  {
    assert h in Holders(w.handles, w.handles[h].ptr);
  }

  lemma HandlesStayAway<V>(w: World<V>, op: Op<V>, p: Ptr)
    requires Inv(w) && Typed(w, op) && Exclusive(w, p) && RawPointer(op) != p
    requires forall h :: h in w.handles ==> w.handles[h].ptr != p
    ensures Holders(Step(w, op).handles, p) == {}
  {
    assert p < w.heap.next && p != NULL;
    if op.Construct? || op.FromPointer? || op.CopyConstruct? {
      assert forall h :: h in Step(w, op).handles ==> Step(w, op).handles[h].ptr != p;
    } else if op.CopyAssign? {
      assert w.handles[op.src].ptr != p;
    } else if op.MoveConstruct? || op.MoveAssign? {
      assert w.handles[op.src].ptr != p;
    }
  }

  lemma UntouchedByMaking<V>(w: World<V>, op: Op<V>, p: Ptr)
    requires Inv(w) && Typed(w, op) && !Misuse(w, op) && Exclusive(w, p) && RawPointer(op) != p
    requires forall h :: h in w.handles ==> w.handles[h].ptr != p
    requires op.Construct? || op.FromPointer? || op.CopyConstruct?
    ensures var w' := Step(w, op);
            p in w'.heap.objs && w'.heap.objs[p] == w.heap.objs[p] && w'.foreign[p] == 1
  {
    assert p < w.heap.next;
  }

  lemma UntouchedByAssigning<V>(w: World<V>, op: Op<V>, p: Ptr)
    requires Inv(w) && Typed(w, op) && !Misuse(w, op) && Exclusive(w, p)
    requires forall h :: h in w.handles ==> w.handles[h].ptr != p
    requires op.CopyAssign? || op.MoveConstruct? || op.MoveAssign? || op.Destroy?
    ensures var w' := Step(w, op);
            p in w'.heap.objs && w'.heap.objs[p] == w.heap.objs[p] && w'.foreign[p] == 1
  {
    assert p < w.heap.next;
  }

  lemma ExclusiveUntouched<V>(w: World<V>, op: Op<V>, p: Ptr)
    requires Inv(w) && Typed(w, op) && !Misuse(w, op) && Exclusive(w, p) && RawPointer(op) != p
    ensures Exclusive(Step(w, op), p) && Step(w, op).heap.objs[p] == w.heap.objs[p]
  {
    forall h | h in w.handles
      ensures w.handles[h].ptr != p
    {
      HeldIsNotExclusive(w, h, p);
    }
    HandlesStayAway(w, op, p);
    if op.Construct? || op.FromPointer? || op.CopyConstruct? {
      UntouchedByMaking(w, op, p);
    } else if op.ForeignNew? || op.ForeignGet? || op.ForeignPut? {
      assert p < w.heap.next;
    } else {
      UntouchedByAssigning(w, op, p);
    }
  }

  /** An operation on handles that keeps clear of the fields changes none of them. */
  lemma HandlesKeepFields<V>(s: State<V>, op: Op<V>)
    requires FieldInv(s) && Typed(s.w, op) && !Misuse(s.w, op)
    requires RawPointer(op) != NULL ==> RawPointer(op) !in s.fields.Values
    ensures FieldInv(s.(w := Step(s.w, op)))
    ensures forall f :: FieldValue(s.(w := Step(s.w, op)), f) == FieldValue(s, f)
  {
    StepKeepsInv(s.w, op);
    forall f | f in s.fields
      ensures Exclusive(Step(s.w, op), s.fields[f])
      ensures Step(s.w, op).heap.objs[s.fields[f]] == s.w.heap.objs[s.fields[f]]
    {
      assert Exclusive(s.w, s.fields[f]);
      ExclusiveUntouched(s.w, op, s.fields[f]);
    }
  }

  // ---------- the setters ----------

  /** The copy the setter makes is held by the temporary alone, and equals the caller's address. */
  lemma CopyIsAlone<V>(s: State<V>, src: nat, temp: nat)
    requires FieldInv(s) && IsAddress(s.w, src) && s.w.handles[src].ptr != NULL && temp !in s.w.handles
    ensures var c := Step(s.w, CopyConstruct(temp, src, true));
            && s.w.handles[src].ptr in s.w.heap.objs && OnlyIn(s.(w := c), temp)
            && c.heap.objs[c.handles[temp].ptr].value == s.w.heap.objs[s.w.handles[src].ptr].value
  {
    HeldIsAlive(s.w, src);
    var c := Step(s.w, CopyConstruct(temp, src, true));
    var p := s.w.heap.next;
    assert Refs(s.w.heap, p) == Owners(s.w, p);
    assert Holders(s.w.handles, p) == {};
    assert forall h :: h in c.handles ==> (c.handles[h].ptr == p <==> h == temp) by {
      forall h | h in s.w.handles
        ensures s.w.handles[h].ptr != p
      {
        assert h !in Holders(s.w.handles, p);
      }
    }
    assert forall f :: f in s.fields ==> Exclusive(s.w, s.fields[f]);
  }

  /** Clearing the old address of a field: its last reference goes, so it is freed. */
  lemma DropKeepsOthers<V>(s: State<V>, f: Field)
    requires FieldInv(s)
    ensures var s' := State(Step(s.w, ForeignPut(Stored(s.fields, f))), s.fields - {f});
            && FieldInv(s')
            && forall g :: FieldValue(s', g) == if g == f then None else FieldValue(s, g)
  {
    var op := Op<V>.ForeignPut(Stored(s.fields, f));
    assert f in s.fields ==> Exclusive(s.w, s.fields[f]);
    StepKeepsInv(s.w, op);
    forall g | g in s.fields && g != f
      ensures Exclusive(Step(s.w, op), s.fields[g])
      ensures Step(s.w, op).heap.objs[s.fields[g]] == s.w.heap.objs[s.fields[g]]
    {
      assert Exclusive(s.w, s.fields[g]);
      ExclusiveUntouched(s.w, op, s.fields[g]);
    }
  }

  /** A field takes an address nobody else holds. */
  lemma Adopted<V>(s: State<V>, f: Field, p: Ptr)
    requires FieldInv(s) && f !in s.fields && Exclusive(s.w, p)
    requires forall g :: g in s.fields ==> s.fields[g] != p
    ensures var s' := s.(fields := s.fields[f := p]);
            && FieldInv(s')
            && forall g :: FieldValue(s', g) == if g == f then Some(s.w.heap.objs[p].value) else FieldValue(s, g)
  {
  }

  /** Once the field has its reference and the temporary is destroyed, the address is the field's alone. */
  lemma AloneAfterwards<V>(w: World<V>, old': Ptr, temp: nat)
    requires Inv(w) && temp in w.handles && (old' == NULL || Exclusive(w, old'))
    requires var p := w.handles[temp].ptr;
             p in w.heap.objs && Holders(w.handles, p) == {temp} && w.foreign[p] == 0
    ensures var p := w.handles[temp].ptr;
            var w2 := Step(Step(w, Op<V>.ForeignPut(old')), Op<V>.ForeignGet(p));
            && Inv(w2) && p in w2.heap.objs && w2.handles == w.handles
            && Exclusive(Step(w2, Op<V>.Destroy(temp)), p)
            && Step(w2, Op<V>.Destroy(temp)).heap.objs[p].value == w.heap.objs[p].value
  {
    var p := w.handles[temp].ptr;
    var w1 := Step(w, Op<V>.ForeignPut(old'));
    StepKeepsInv(w, Op<V>.ForeignPut(old'));
    assert p in w1.heap.objs && w1.heap.objs[p] == w.heap.objs[p];
    var w2 := Step(w1, Op<V>.ForeignGet(p));
    StepKeepsInv(w1, Op<V>.ForeignGet(p));
    var w3 := Step(w2, Op<V>.Destroy(temp));
    StepKeepsInv(w2, Op<V>.Destroy(temp));
    assert Holders(w3.handles, p) == Holders(w.handles, p) - {temp} == {};
    assert Refs(w3.heap, p) == Owners(w3, p) == 1;
  }

  ghost predicate OnlyIn<V>(c: State<V>, temp: nat) {
    && IsAddress(c.w, temp)
    && var p := c.w.handles[temp].ptr;
    && p in c.w.heap.objs && Holders(c.w.handles, p) == {temp} && c.w.foreign[p] == 0
    && forall g :: g in c.fields ==> c.fields[g] != p
  }

  /** The field gives up its old address and takes a reference on the temporary's, without yet counting
      it as its own. */
  function Exchanged<V>(c: State<V>, f: Field, temp: nat): State<V>
    requires IsAddress(c.w, temp)
  {
    State(Handover(c, f, temp).w, c.fields - {f})
  }

  lemma ExchangeKeepsOthers<V>(c: State<V>, f: Field, temp: nat)
    requires FieldInv(c) && OnlyIn(c, temp)
    ensures FieldInv(Exchanged(c, f, temp))
    ensures forall g :: FieldValue(Exchanged(c, f, temp), g) == if g == f then None else FieldValue(c, g)
  {
    var op := Op<V>.ForeignPut(Stored(c.fields, f));
    assert f in c.fields ==> Exclusive(c.w, c.fields[f]);
    DropKeepsOthers(c, f);
    var d := State(Step(c.w, op), c.fields - {f});
    var p := c.w.handles[temp].ptr;
    assert p in d.w.heap.objs;
    HandlesKeepFields(d, ForeignGet(p));
  }

  /** Handing over and destroying the temporary, seen as an exchange of references and an adoption. */
  lemma HandoverIsAdoption<V>(c: State<V>, f: Field, temp: nat)
    requires IsAddress(c.w, temp)
    ensures var p := c.w.handles[temp].ptr;
            var s', g := Handover(c, f, temp), Exchanged(c, f, temp);
            s'.(w := Step(s'.w, Destroy(temp))) == State(Step(g.w, Destroy(temp)), g.fields[f := p])
  {
    assert (c.fields - {f})[f := c.w.handles[temp].ptr] == c.fields[f := c.w.handles[temp].ptr];
  }

  /** An address only the temporary holds becomes the field's, and the temporary goes. */
  lemma HandoverKeepsInv<V>(c: State<V>, f: Field, temp: nat)
    requires FieldInv(c) && OnlyIn(c, temp)
    ensures var p := c.w.handles[temp].ptr;
            var s' := Handover(c, f, temp);
            var done := s'.(w := Step(s'.w, Destroy(temp)));
            && FieldInv(done) && done.w.handles == c.w.handles - {temp}
            && forall g :: FieldValue(done, g) ==
                           if g == f then Some(c.w.heap.objs[p].value) else FieldValue(c, g)
  {
    assert f in c.fields ==> Exclusive(c.w, c.fields[f]);
    AloneAfterwards(c.w, Stored(c.fields, f), temp);
    ExchangeKeepsOthers(c, f, temp);
    var p := c.w.handles[temp].ptr;
    var g := Exchanged(c, f, temp);
    HandlesKeepFields(g, Destroy(temp));
    var e := g.(w := Step(g.w, Destroy(temp)));
    Adopted(e, f, p);
    HandoverIsAdoption(c, f, temp);
  }

  lemma SetKeepsInv<V>(s: State<V>, f: Field, src: nat, temp: nat)
    requires FieldInv(s) && IsAddress(s.w, src) && s.w.handles[src].ptr != NULL && temp !in s.w.handles
    ensures s.w.handles[src].ptr in s.w.heap.objs
    ensures var s' := FieldStep(s, SetField(f, src, temp, true, true));
            && FieldInv(s') && s'.w.handles == s.w.handles
            && forall g :: FieldValue(s', g) ==
                           if g == f then Some(s.w.heap.objs[s.w.handles[src].ptr].value) else FieldValue(s, g)
  {
    CopyIsAlone(s, src, temp);
    var c := s.(w := Step(s.w, CopyConstruct(temp, src, true)));
    HandlesKeepFields(s, CopyConstruct(temp, src, true));
    HandoverKeepsInv(c, f, temp);
    assert c.w.handles - {temp} == s.w.handles;
  }

  /** A setter whose copy fails, or that libnl refuses, leaves handles, fields and live objects as they
      were. */
  lemma FailedSetChangesNothing<V>(s: State<V>, f: Field, src: nat, temp: nat, ok: bool, accepted: bool)
    requires FieldInv(s) && IsAddress(s.w, src) && s.w.handles[src].ptr != NULL && temp !in s.w.handles
    requires !ok || !accepted
    ensures var s' := FieldStep(s, SetField(f, src, temp, ok, accepted));
            && FieldInv(s') && s'.w.handles == s.w.handles && s'.fields == s.fields
            && s'.w.heap.objs == s.w.heap.objs && s'.w.foreign == s.w.foreign
            && forall g :: FieldValue(s', g) == FieldValue(s, g)
  {
    HeldIsAlive(s.w, src);
    HandlesKeepFields(s, CopyConstruct(temp, src, ok));
    if ok {
      CopyIsAlone(s, src, temp);
      var c := s.(w := Step(s.w, CopyConstruct(temp, src, ok)));
      HandlesKeepFields(c, Destroy(temp));
      assert (s.w.handles[temp := c.w.handles[temp]]) - {temp} == s.w.handles;
    }
  }

  lemma ModifyKeepsFields<V>(s: State<V>, h: nat, v: V)
    requires FieldInv(s) && IsAddress(s.w, h) && s.w.handles[h].ptr != NULL
    ensures var s' := FieldStep(s, Modify(h, v));
            FieldInv(s') && forall f :: FieldValue(s', f) == FieldValue(s, f)
  {
    HeldIsAlive(s.w, h);
    var w' := FieldStep(s, Modify(h, v)).w;
    forall p: Ptr | p != NULL
      ensures Refs(w'.heap, p) == Owners(w', p)
    {
      assert Refs(s.w.heap, p) == Owners(s.w, p);
    }
    forall f | f in s.fields
      ensures Exclusive(w', s.fields[f]) && w'.heap.objs[s.fields[f]] == s.w.heap.objs[s.fields[f]]
    {
      assert Exclusive(s.w, s.fields[f]);
      HeldIsNotExclusive(s.w, h, s.fields[f]);
    }
  }

  /** What is written through a handle is what a copy of any handle on the same object has, and what a field
      set from it holds. */
  lemma WrittenIsStored<V>(s: State<V>, h: nat, v: V, src: nat, f: Field, temp: nat)
    requires FieldInv(s) && IsAddress(s.w, h) && s.w.handles[h].ptr != NULL
    requires IsAddress(s.w, src) && s.w.handles[src].ptr == s.w.handles[h].ptr && temp !in s.w.handles
    ensures var s1 := FieldStep(s, Modify(h, v));
            && FieldInv(s1)
            && var s2 := FieldStep(s1, SetField(f, src, temp, true, true));
            && FieldInv(s2) && FieldValue(s2, f) == Some(v)
            && var w3 := Step(s1.w, CopyConstruct(temp, src, true));
            && temp in w3.handles && w3.handles[temp].ptr in w3.heap.objs
            && w3.heap.objs[w3.handles[temp].ptr].value == v
  {
    HeldIsAlive(s.w, h);
    ModifyKeepsFields(s, h, v);
    var s1 := FieldStep(s, Modify(h, v));
    CopyIsAlone(s1, src, temp);
    SetKeepsInv(s1, f, src, temp);
  }

  // ---------- refinement of five optional values ----------

  /** What the operation means for a record of five optional address values: only a set that succeeds and
      a clear that is accepted change it. */
  ghost function RecordStep<V>(s: State<V>, op: FieldOp<V>, record: map<Field, V>): map<Field, V>
    requires FieldInv(s) && TypedField(s, op) && !MisuseField(s, op)
  {
    if op.SetField? && op.ok && op.accepted then
      HeldIsAlive(s.w, op.src);
      record[op.f := s.w.heap.objs[s.w.handles[op.src].ptr].value]
    else if op.ClearField? && op.accepted then record - {op.f}
    else record
  }

  function Read<V>(record: map<Field, V>, f: Field): Option<V> {
    if f in record then Some(record[f]) else None
  }

  /** The five fields hold what the record says. */
  ghost predicate Represents<V>(s: State<V>, record: map<Field, V>)
    requires FieldInv(s)
  {
    forall f :: FieldValue(s, f) == Read(record, f)
  }

  lemma FieldsRefineRecord<V>(s: State<V>, op: FieldOp<V>, record: map<Field, V>)
    requires FieldInv(s) && TypedField(s, op) && !MisuseField(s, op) && Represents(s, record)
    ensures FieldInv(FieldStep(s, op)) && Represents(FieldStep(s, op), RecordStep(s, op, record))
  {
    match op
    case OnHandles(o) => HandlesKeepFields(s, o);
    case Modify(h, v) => ModifyKeepsFields(s, h, v);
    case SetField(f, src, temp, ok, accepted) =>
      if ok && accepted {
        SetKeepsInv(s, f, src, temp);
      } else {
        FailedSetChangesNothing(s, f, src, temp, ok, accepted);
      }
    case ClearField(f, accepted) =>
      if accepted {
        DropKeepsOthers(s, f);
      }
    case GetField(f, h, ok) =>
      if f in s.fields {
        assert Exclusive(s.w, s.fields[f]);
        HandlesKeepFields(s, FromPointer(h, AddressKind, CreateCopy, s.fields[f], ok));
      }
  }

  ghost predicate LegalFields<V>(s: State<V>, ops: seq<FieldOp<V>>)
    decreases |ops|
  {
    ops == [] ||
    (TypedField(s, ops[0]) && !MisuseField(s, ops[0]) && LegalFields(FieldStep(s, ops[0]), ops[1..]))
  }

  ghost function RunFields<V>(s: State<V>, ops: seq<FieldOp<V>>): State<V>
    requires LegalFields(s, ops)
    decreases |ops|
  {
    if ops == [] then s else RunFields(FieldStep(s, ops[0]), ops[1..])
  }

  /** The record after a run. */
  ghost function RunRecord<V>(s: State<V>, ops: seq<FieldOp<V>>, record: map<Field, V>): map<Field, V>
    requires FieldInv(s) && LegalFields(s, ops) && Represents(s, record)
    decreases |ops|
  {
    if ops == [] then record
    else
      FieldsRefineRecord(s, ops[0], record);
      RunRecord(FieldStep(s, ops[0]), ops[1..], RecordStep(s, ops[0], record))
  }

  /** Over every run the five fields are the five optional values of the record. */
  lemma {:induction false} RunRefinesRecord<V>(s: State<V>, ops: seq<FieldOp<V>>, record: map<Field, V>)
    requires FieldInv(s) && LegalFields(s, ops) && Represents(s, record)
    ensures FieldInv(RunFields(s, ops))
    ensures Represents(RunFields(s, ops), RunRecord(s, ops, record))
    decreases |ops|
  {
    if ops != [] {
      FieldsRefineRecord(s, ops[0], record);
      RunRefinesRecord(FieldStep(s, ops[0]), ops[1..], RecordStep(s, ops[0], record));
    }
  }

  /** No handles, no objects, no field set. */
  function NothingSet<V>(): State<V> { State(Start(), map[]) }

  lemma NothingSetIsGood<V>()
    ensures FieldInv(NothingSet<V>()) && Represents(NothingSet<V>(), map[])
  {
    RunFromStart<V>([]);
  }

  /** What a get at this point gives: for a field the record has, a new handle on a new object with the
      recorded value, or no handle when copying it fails; for any other, nothing. */
  ghost predicate GetGives<V>(s: State<V>, f: Field, h: nat, ok: bool, expected: Option<V>)
    requires h !in s.w.handles
  {
    var after := FieldStep(s, GetField(f, h, ok));
    if expected.None? || !ok then h !in after.w.handles
    else
      && h in after.w.handles
      && after.w.handles[h].ptr !in s.w.heap.objs && after.w.handles[h].ptr in after.w.heap.objs
      && after.w.heap.objs[after.w.handles[h].ptr].value == expected.value
  }

  lemma GetReadsField<V>(s: State<V>, f: Field, h: nat, ok: bool)
    requires FieldInv(s) && h !in s.w.handles
    ensures GetGives(s, f, h, ok, FieldValue(s, f))
  {
    assert f in s.fields ==> Exclusive(s.w, s.fields[f]);
  }

  /** The record of a run from the start. */
  ghost function RecordFromStart<V>(ops: seq<FieldOp<V>>): map<Field, V>
    requires LegalFields(NothingSet(), ops)
  {
    NothingSetIsGood<V>();
    RunRecord(NothingSet(), ops, map[])
  }

  /** Whatever a program does from the start, with the addresses it passed in and the copies it got out,
      with sets that fail and with the other fields: a get reads the record, no freed address was touched
      and every count is the number of owners. */
  lemma EveryRunReadsItsRecord<V>(ops: seq<FieldOp<V>>, f: Field, h: nat, ok: bool)
    requires LegalFields(NothingSet(), ops) && h !in RunFields(NothingSet(), ops).w.handles
    ensures Inv(RunFields(NothingSet(), ops).w)
    ensures GetGives(RunFields(NothingSet(), ops), f, h, ok, Read(RecordFromStart(ops), f))
  {
    NothingSetIsGood<V>();
    RunRefinesRecord(NothingSet(), ops, map[]);
    GetReadsField(RunFields(NothingSet(), ops), f, h, ok);
  }

  /** No operation of the run changes field `f`. */
  ghost predicate LeavesAlone<V>(ops: seq<FieldOp<V>>, f: Field) {
    forall i :: 0 <= i < |ops| ==> !Assigns(ops[i], f)
  }

  /** A set that succeeds, or a clear that is accepted. */
  predicate Assigns<V>(op: FieldOp<V>, f: Field) {
    && (op.SetField? || op.ClearField?)
    && op.f == f && op.accepted && (op.SetField? ==> op.ok)
  }

  lemma {:induction false} RecordKeepsValue<V>(s: State<V>, ops: seq<FieldOp<V>>, record: map<Field, V>, f: Field)
    requires FieldInv(s) && LegalFields(s, ops) && Represents(s, record) && LeavesAlone(ops, f)
    ensures Read(RunRecord(s, ops, record), f) == Read(record, f)
    decreases |ops|
  {
    if ops != [] {
      FieldsRefineRecord(s, ops[0], record);
      RecordKeepsValue(FieldStep(s, ops[0]), ops[1..], RecordStep(s, ops[0], record), f);
    }
  }

  /** The record a state represents. */
  ghost function RecordOf<V>(s: State<V>): map<Field, V>
    requires FieldInv(s)
  {
    map f | f in s.fields :: s.w.heap.objs[s.fields[f]].value
  }

  /** A successful set is read back: after anything at all that does not succeed in changing this field
      again, a get makes a new address equal to the one set. */
  lemma ReadBack<V>(s: State<V>, f: Field, src: nat, temp: nat, ops: seq<FieldOp<V>>, h: nat)
    requires FieldInv(s) && TypedField(s, SetField(f, src, temp, true, true))
    requires !MisuseField(s, SetField(f, src, temp, true, true))
    requires var s1 := FieldStep(s, SetField(f, src, temp, true, true));
             && LegalFields(s1, ops) && LeavesAlone(ops, f)
             && h !in RunFields(s1, ops).w.handles
    ensures s.w.handles[src].ptr in s.w.heap.objs
    ensures GetGives(RunFields(FieldStep(s, SetField(f, src, temp, true, true)), ops), f, h, true,
                     Some(s.w.heap.objs[s.w.handles[src].ptr].value))
  {
    SetKeepsInv(s, f, src, temp);
    var s1 := FieldStep(s, SetField(f, src, temp, true, true));
    RunRefinesRecord(s1, ops, RecordOf(s1));
    RecordKeepsValue(s1, ops, RecordOf(s1), f);
    var s2 := RunFields(s1, ops);
    assert FieldValue(s1, f) == Read(RecordOf(s1), f) && FieldValue(s2, f) == FieldValue(s1, f);
    GetReadsField(s2, f, h, true);
  }

  /** The setter of the class and the step of the state machine have the same effect on heap and fields. */
  lemma SetIsStep<V>(s: State<V>, f: Field, src: nat, temp: nat, ok: bool, accepted: bool)
    requires Inv(s.w) && IsAddress(s.w, src) && s.w.handles[src].ptr != NULL && temp !in s.w.handles
    ensures var p := s.w.handles[src].ptr;
            var made := SetHeap(s.w.heap, Stored(s.fields, f), p, ok, accepted);
            var s' := FieldStep(s, SetField(f, src, temp, ok, accepted));
            && s'.w.heap == made.0
            && made.1 == (if !ok then CopyFailed else if !accepted then Refused else Done)
            && s'.fields == if made.1.Done? then s.fields[f := Clone(s.w.heap, p, ok).1] else s.fields
  {
    HeldIsAlive(s.w, src);
    var made := Clone(s.w.heap, s.w.handles[src].ptr, ok);
    var c := Step(s.w, CopyConstruct(temp, src, ok));
    assert c.heap == made.0 && (temp in c.handles <==> ok);
    if ok {
      assert c.handles[temp] == Slot(AddressKind, made.1);
      HandoverHeap(s.(w := c), f, temp);
    }
  }

  lemma HandoverHeap<V>(c: State<V>, f: Field, temp: nat)
    requires IsAddress(c.w, temp) && c.w.handles[temp].ptr != NULL
    ensures var s' := Handover(c, f, temp);
            && s'.w.heap == Assigned(c.w.heap, Stored(c.fields, f), c.w.handles[temp].ptr)
            && s'.w.handles == c.w.handles
  {
  }

  /** So have clearing, and getting a field that is set. */
  lemma ClearAndGetAreSteps<V>(s: State<V>, f: Field, h: nat, ok: bool)
    requires FieldInv(s) && h !in s.w.handles
    ensures FieldStep(s, ClearField(f, true)).fields == s.fields - {f}
    ensures FieldStep(s, ClearField(f, true)).w.heap == Assigned(s.w.heap, Stored(s.fields, f), NULL)
    ensures f in s.fields ==>
              && FieldStep(s, GetField(f, h, ok)).w.heap == Clone(s.w.heap, s.fields[f], ok).0
              && FieldStep(s, GetField(f, h, ok)).fields == s.fields
  {
  }
}
