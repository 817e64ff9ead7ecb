/** Reading a generic netlink family out of a controller message. */
module Family {
  import opened Options

  /** A netlink attribute: its type, and its bytes read as a string, as an unsigned 32-bit number and
      as a list of nested attribute lists. */
  datatype Attr = Attr(kind: nat, text: string, number: nat, nested: seq<seq<Attr>>)

  /** The attributes of a message. */
  type Payload = seq<Attr>

  const CTRL_ATTR_FAMILY_ID := 1
  const CTRL_ATTR_FAMILY_NAME := 2
  const CTRL_ATTR_MCAST_GROUPS := 7
  const CTRL_ATTR_MCAST_GRP_NAME := 1
  const CTRL_ATTR_MCAST_GRP_ID := 2

  datatype MulticastGroup = MulticastGroup(name: string, id: int)
  datatype GenericFamily = GenericFamily(name: string, id: int, groups: seq<MulticastGroup>)

  /** `GenericFamily {}` */
  const EMPTY := GenericFamily("", 0, [])

  /** The table `nla_parse` fills: of several attributes of a type the last one stays. */
  function Lookup(attrs: Payload, kind: nat): Option<Attr> {
    if attrs == [] then None
    else
      var n := |attrs| - 1;
      if attrs[n].kind == kind then Some(attrs[n]) else Lookup(attrs[..n], kind)
  }

  /** `int id = nla_get_u32(...)`: 32-bit two's complement. */
  function ToInt(u: nat): (n: int)
    ensures -0x8000_0000 <= n < 0x8000_0000 && (n - u) % 0x1_0000_0000 == 0
  {
    var w := u % 0x1_0000_0000;
    if w < 0x8000_0000 then w else w - 0x1_0000_0000
  }

  function GroupOf(entry: Payload): Option<MulticastGroup> {
    var name, id := Lookup(entry, CTRL_ATTR_MCAST_GRP_NAME), Lookup(entry, CTRL_ATTR_MCAST_GRP_ID);
    if name.None? || id.None? then None else Some(MulticastGroup(name.value.text, ToInt(id.value.number)))
  }

  /** The complete entries, in order. */
  function Groups(entries: seq<Payload>): seq<MulticastGroup> {
    if entries == [] then []
    else
      var n := |entries| - 1;
      var g := GroupOf(entries[n]);
      Groups(entries[..n]) + (if g.Some? then [g.value] else [])
  }

  function Updated(before: GenericFamily, attrs: Payload): GenericFamily {
    var name, id := Lookup(attrs, CTRL_ATTR_FAMILY_NAME), Lookup(attrs, CTRL_ATTR_FAMILY_ID);
    var list := Lookup(attrs, CTRL_ATTR_MCAST_GROUPS);
    GenericFamily(if name.Some? then name.value.text else before.name,
                  if id.Some? then ToInt(id.value.number) else before.id,
                  before.groups + if list.Some? then Groups(list.value.nested) else [])
  }

  function ParseFamily(attrs: Payload): GenericFamily { Updated(EMPTY, attrs) }

  /** `parseGenericFamily(result, message)` */
  method ParseGenericFamily(result: GenericFamily, attrs: Payload) returns (parsed: GenericFamily)
    ensures parsed == Updated(result, attrs) && IsParsed(result, attrs, parsed)
  {
    parsed := result;
    var name := Lookup(attrs, CTRL_ATTR_FAMILY_NAME);
    if name.Some? {
      parsed := parsed.(name := name.value.text);
    }
    var id := Lookup(attrs, CTRL_ATTR_FAMILY_ID);
    if id.Some? {
      parsed := parsed.(id := ToInt(id.value.number));
    }
    var list := Lookup(attrs, CTRL_ATTR_MCAST_GROUPS);
    if list.Some? {
      var entries := list.value.nested;
      var i := 0;
      while i < |entries|
        invariant 0 <= i <= |entries|
        invariant parsed.name == (if name.Some? then name.value.text else result.name)
        invariant parsed.id == (if id.Some? then ToInt(id.value.number) else result.id)
        invariant parsed.groups == result.groups + Groups(entries[..i])
      {
        assert entries[..i + 1][..i] == entries[..i];
        var grpName := Lookup(entries[i], CTRL_ATTR_MCAST_GRP_NAME);
        var grpId := Lookup(entries[i], CTRL_ATTR_MCAST_GRP_ID);
        i := i + 1;
        if grpName.None? || grpId.None? {
          continue;
        }
        parsed := parsed.(groups := parsed.groups + [MulticastGroup(grpName.value.text, ToInt(grpId.value.number))]);
      }
      assert entries[..i] == entries;
    }
    UpdatedIsParsed(result, attrs);
  }

  // ---------- what the attributes of a message say ----------

  /** Attribute `i` is the last of its type. */
  ghost predicate IsLast(attrs: Payload, kind: nat, i: int) {
    && 0 <= i < |attrs| && attrs[i].kind == kind
    && forall j :: i < j < |attrs| ==> attrs[j].kind != kind
  }

  predicate Has(attrs: Payload, kind: nat) {
    exists i :: 0 <= i < |attrs| && attrs[i].kind == kind
  }

  /** The group an entry describes: the name and the number of its last attributes of the two types. */
  ghost predicate IsGroup(entry: Payload, g: MulticastGroup) {
    && (exists i :: IsLast(entry, CTRL_ATTR_MCAST_GRP_NAME, i) && g.name == entry[i].text)
    && (exists i :: IsLast(entry, CTRL_ATTR_MCAST_GRP_ID, i) && g.id == ToInt(entry[i].number))
  }

  predicate Complete(entry: Payload) {
    Has(entry, CTRL_ATTR_MCAST_GRP_NAME) && Has(entry, CTRL_ATTR_MCAST_GRP_ID)
  }

  /** Increasing indices of entries, each the origin of one group. */
  ghost predicate ComeFrom(groups: seq<MulticastGroup>, entries: seq<Payload>, at: seq<nat>) {
    && |at| == |groups|
    && (forall i, j :: 0 <= i < j < |at| ==> at[i] < at[j])
    && (forall i :: 0 <= i < |at| ==> at[i] < |entries| && IsGroup(entries[at[i]], groups[i]))
  }

  /** Every complete entry is among them. */
  ghost predicate NoneMissing(entries: seq<Payload>, at: seq<nat>) {
    forall k :: 0 <= k < |entries| && Complete(entries[k]) ==> k in at
  }

  ghost predicate AreGroups(groups: seq<MulticastGroup>, entries: seq<Payload>) {
    exists at :: ComeFrom(groups, entries, at) && NoneMissing(entries, at)
  }

  /** The result of parsing: name and id are those of the last attributes of their types, unchanged where
      there is none; the groups of the last list of groups follow the ones already there. */
  ghost predicate IsParsed(before: GenericFamily, attrs: Payload, after: GenericFamily) {
    && (forall i :: IsLast(attrs, CTRL_ATTR_FAMILY_NAME, i) ==> after.name == attrs[i].text)
    && (!Has(attrs, CTRL_ATTR_FAMILY_NAME) ==> after.name == before.name)
    && (forall i :: IsLast(attrs, CTRL_ATTR_FAMILY_ID, i) ==> after.id == ToInt(attrs[i].number))
    && (!Has(attrs, CTRL_ATTR_FAMILY_ID) ==> after.id == before.id)
    && before.groups <= after.groups
    && (forall i :: IsLast(attrs, CTRL_ATTR_MCAST_GROUPS, i) ==>
          AreGroups(after.groups[|before.groups|..], attrs[i].nested))
    && (!Has(attrs, CTRL_ATTR_MCAST_GROUPS) ==> after.groups == before.groups)
  }

  lemma OneLast(attrs: Payload, kind: nat, i: nat, j: nat)
    requires IsLast(attrs, kind, i) && IsLast(attrs, kind, j)
    ensures i == j
  {
  }

  lemma FoundIsLast(attrs: Payload, kind: nat, i: nat)
    requires IsLast(attrs, kind, i)
    ensures Lookup(attrs, kind) == Some(attrs[i])
  {
    var j := LookupFindsLast(attrs, kind);
    OneLast(attrs, kind, i, j);
  }

  lemma UpdatedIsParsed(before: GenericFamily, attrs: Payload)
    ensures IsParsed(before, attrs, Updated(before, attrs))
  {
    forall kind, i | IsLast(attrs, kind, i)
      ensures Lookup(attrs, kind) == Some(attrs[i])
    {
      FoundIsLast(attrs, kind, i);
    }
    forall kind | !Has(attrs, kind)
      ensures Lookup(attrs, kind).None?
    {
      var _ := LookupFindsLast(attrs, kind);
    }
    var after := Updated(before, attrs);
    forall i | IsLast(attrs, CTRL_ATTR_MCAST_GROUPS, i)
      ensures AreGroups(after.groups[|before.groups|..], attrs[i].nested)
    {
      var at := GroupsAreCompleteEntries(attrs[i].nested);
      assert after.groups[|before.groups|..] == Groups(attrs[i].nested);
    }
  }

  /** An entry is taken over exactly when it is complete, and then as the group it describes. */
  lemma GroupOfEntry(entry: Payload)
    ensures GroupOf(entry).Some? <==> Complete(entry)
    ensures GroupOf(entry).Some? ==> IsGroup(entry, GroupOf(entry).value)
  {
    var _ := LookupFindsLast(entry, CTRL_ATTR_MCAST_GRP_NAME);
    var _ := LookupFindsLast(entry, CTRL_ATTR_MCAST_GRP_ID);
  }

  /** Each group comes from its own entry with both a name and an id, in the order of the entries, and
      no such entry is passed over. */
  lemma {:induction false} GroupsAreCompleteEntries(entries: seq<Payload>) returns (at: seq<nat>)
    ensures ComeFrom(Groups(entries), entries, at) && NoneMissing(entries, at)
  {
    at := [];
    if entries != [] {
      var n := |entries| - 1;
      var before := GroupsAreCompleteEntries(entries[..n]);
      at := EntryAdded(Groups(entries[..n]), entries, before);
    }
  }

  /** The last entry after the others. */
  lemma EntryAdded(groups: seq<MulticastGroup>, entries: seq<Payload>, before: seq<nat>) returns (at: seq<nat>)
    requires entries != []
    requires ComeFrom(groups, entries[..|entries| - 1], before) && NoneMissing(entries[..|entries| - 1], before)
    ensures var g := GroupOf(entries[|entries| - 1]);
            ComeFrom(groups + if g.Some? then [g.value] else [], entries, at) && NoneMissing(entries, at)
  {
    var n := |entries| - 1;
    GroupOfEntry(entries[n]);
    forall i | 0 <= i < |before|
      ensures before[i] < n && entries[before[i]] == entries[..n][before[i]]
    {
    }
    forall k | 0 <= k < n && Complete(entries[k])
      ensures k in before
    {
      assert entries[..n][k] == entries[k];
    }
    at := before;
    if Complete(entries[n]) {
      at := before + [n];
      assert at[|before|] == n;
    } else {
      assert groups + [] == groups;
    }
  }

  /** What is found is the last attribute of the type, wherever it stands; nothing is found exactly when
      there is none. */
  lemma {:induction false} LookupFindsLast(attrs: Payload, kind: nat) returns (i: nat)
    ensures Lookup(attrs, kind).None? <==> forall j :: 0 <= j < |attrs| ==> attrs[j].kind != kind
    ensures Lookup(attrs, kind).Some? ==> IsLast(attrs, kind, i) && Lookup(attrs, kind).value == attrs[i]
  {
    i := 0;
    if attrs != [] {
      var n := |attrs| - 1;
      i := LookupFindsLast(attrs[..n], kind);
      assert forall j :: 0 <= j < n ==> attrs[..n][j].kind == attrs[j].kind;
      if attrs[n].kind == kind {
        i := n;
      }
    }
  }
}
