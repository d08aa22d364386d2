/**
  Subaccount destinations in the local store, where a provider's entry may stand beside a
  subscriber's of the same name: creating and deleting look at entries without a tenant, while
  updating and label patching take the first entry of the name.
*/
module ProviderLaws {
  import opened Options
  import opened Labels
  import opened LocalStore
  import StoreLaws
  import AccessStrategy

  function FoundProvider(n: Naming, lst: seq<Item>, name: string): Option<Item> {
    var i := ProviderIndexOf(n, lst, name);
    if i < |lst| then Some(lst[i]) else None
  }

  // ---------- The provider's view ----------

  /** What the provider sees of the collection. */
  function View(lst: seq<Item>): seq<Item> {
    AccessStrategy.Visible(lst, None)
  }

  lemma {:induction false} ViewAppend(a: seq<Item>, b: seq<Item>)
    ensures View(a + b) == View(a) + View(b)
    decreases |a|
  {
    if a == [] {
      assert a + b == b;
    } else {
      assert (a + b)[0] == a[0] && (a + b)[1..] == a[1..] + b;
      ViewAppend(a[1..], b);
      if Tenantless(a[0]) {
        assert [a[0]] + (View(a[1..]) + View(b)) == [a[0]] + View(a[1..]) + View(b);
      }
    }
  }

  lemma ViewOne(e: Item)
    ensures View([e]) == if Tenantless(e) then [e] else []
  {
    assert [e][1..] == [];
    assert View([e][1..]) == [];
  }

  /** The view of a list with one entry replaced. */
  lemma ViewReplaced(lst: seq<Item>, i: nat, e: Item)
    requires i < |lst|
    ensures View(lst[i := e]) == View(lst[..i]) + View([e]) + View(lst[i + 1..])
  {
    assert lst[i := e] == lst[..i] + [e] + lst[i + 1..];
    ViewAppend(lst[..i] + [e], lst[i + 1..]);
    ViewAppend(lst[..i], [e]);
  }

  /** At a tenant-less entry the view changes at the entry's place in it. */
  lemma ViewAt(lst: seq<Item>, i: nat, e: Item) returns (j: nat)
    requires i < |lst| && Tenantless(lst[i])
    ensures j < |View(lst)| && View(lst)[j] == lst[i]
    ensures View(lst[i := e]) == if Tenantless(e) then View(lst)[j := e] else View(lst)[..j] + View(lst)[j + 1..]
    ensures View(lst[..i] + lst[i + 1..]) == View(lst)[..j] + View(lst)[j + 1..]
  {
    j := |View(lst[..i])|;
    ViewReplaced(lst, i, lst[i]);
    assert lst[i := lst[i]] == lst;
    ViewReplaced(lst, i, e);
    ViewAppend(lst[..i], lst[i + 1..]);
    ViewOne(lst[i]);
    ViewOne(e);
    var front, back := View(lst[..i]), View(lst[i + 1..]);
    assert View(lst) == front + [lst[i]] + back;
    assert View(lst)[..j] == front && View(lst)[j + 1..] == back;
    assert front + [] + back == front + back;
    assert Tenantless(e) ==> View(lst)[j := e] == front + [e] + back;
  }

  /** A change to a subscriber's entry that leaves it a subscriber's is not seen. */
  lemma ViewElsewhere(lst: seq<Item>, i: nat, e: Item)
    requires i < |lst| && !Tenantless(lst[i]) && !Tenantless(e)
    ensures View(lst[i := e]) == View(lst)
  {
    ViewReplaced(lst, i, lst[i]);
    assert lst[i := lst[i]] == lst;
    ViewReplaced(lst, i, e);
    ViewOne(lst[i]);
    ViewOne(e);
  }

  /** A provider lookup finds what a lookup in the view finds. */
  lemma {:induction false} FoundInView(n: Naming, lst: seq<Item>, name: string)
    ensures FoundProvider(n, lst, name) == StoreLaws.Found(n, View(lst), name)
    decreases |lst|
  {
    if lst != [] {
      FoundInView(n, lst[1..], name);
      if Tenantless(lst[0]) {
        assert View(lst)[0] == lst[0] && View(lst)[1..] == View(lst[1..]);
      } else {
        assert View(lst) == View(lst[1..]);
      }
    }
  }

  /** Where no entry of a name comes earlier, nor does one in the view. */
  lemma {:induction false} NotBefore(n: Naming, lst: seq<Item>, name: string)
    requires forall k :: 0 <= k < |lst| ==> NameOf(n, lst[k]) != Some(name)
    ensures StoreLaws.Found(n, View(lst), name).None?
    decreases |lst|
  {
    if lst != [] {
      NotBefore(n, lst[1..], name);
      if Tenantless(lst[0]) {
        assert View(lst)[0] == lst[0] && View(lst)[1..] == View(lst[1..]);
      } else {
        assert View(lst) == View(lst[1..]);
      }
    }
  }

  // ---------- One update ----------

  /** The fields an update of a subaccount destination carries over. */
  const CARRIED := ["tenant", "labels"]

  /** The tenant of an updated entry: the old one's, or else what the update brings. */
  lemma MergedTenant(updated: Item, existing: Item)
    ensures Field(Preserved(updated, existing, CARRIED), "tenant")
            == if Tenantless(existing) then Field(updated, "tenant") else Field(existing, "tenant")
  {
    PreservedFields(updated, existing, CARRIED, "tenant");
  }

  lemma {:induction false} FoundConcat(n: Naming, a: seq<Item>, b: seq<Item>, name: string)
    ensures StoreLaws.Found(n, a + b, name)
            == if StoreLaws.Found(n, a, name).Some? then StoreLaws.Found(n, a, name) else StoreLaws.Found(n, b, name)
    decreases |b|
  {
    if b == [] {
      assert a + b == a;
    } else {
      var front, last := b[..|b| - 1], b[|b| - 1];
      assert a + b == (a + front) + [last] && b == front + [last];
      FoundConcat(n, a, front, name);
      StoreLaws.FoundAppended(n, a + front, last, name);
      StoreLaws.FoundAppended(n, front, last, name);
    }
  }

  /** An entry given a tenant drops out of the view. */
  lemma ViewDropped(lst: seq<Item>, i: nat, e: Item)
    requires i < |lst| && !Tenantless(e)
    ensures View(lst[i := e]) == View(lst[..i] + lst[i + 1..])
  {
    ViewReplaced(lst, i, e);
    ViewOne(e);
    ViewAppend(lst[..i], lst[i + 1..]);
    assert View(lst[..i]) + [] == View(lst[..i]);
  }

  /** The first entry of a name, replaced by a tenant-less one of that name, is what the view finds. */
  lemma ViewFinds(n: Naming, lst: seq<Item>, i: nat, e: Item, name: string)
    requires i < |lst| && Tenantless(e) && NameOf(n, e) == Some(name)
    requires forall k :: 0 <= k < i ==> NameOf(n, lst[k]) != Some(name)
    ensures StoreLaws.Found(n, View(lst[i := e]), name) == Some(e)
  {
    ViewReplaced(lst, i, e);
    ViewOne(e);
    NotBefore(n, lst[..i], name);
    FoundMiddle(n, View(lst[..i]), e, View(lst[i + 1..]), name);
  }

  lemma FoundMiddle(n: Naming, front: seq<Item>, e: Item, back: seq<Item>, name: string)
    requires StoreLaws.Found(n, front, name).None? && NameOf(n, e) == Some(name)
    ensures StoreLaws.Found(n, front + [e] + back, name) == Some(e)
  {
    FoundConcat(n, front + [e], back, name);
    StoreLaws.FoundAppended(n, front, e, name);
  }

  /**
    An update of a subaccount destination replaces the first entry of that name, whoever it
    belongs to. If that entry has a tenant, it keeps it, and the provider's own entry stays as it
    was. If it has none, the provider sees the update, unless the update itself brings a tenant:
    then the entry leaves the provider's view.
  */
  lemma UpdateReachesFirstEntry(n: Naming, data: Data, name: string, updated: Item)
    requires StoreLaws.OwnName(n, Op.Update("subaccount", name, updated, CARRIED))
    requires IndexOf(n, Listed(data, "subaccount"), name) < |Listed(data, "subaccount")|
    ensures var lst := Listed(data, "subaccount");
            var i := IndexOf(n, lst, name);
            var lst' := Listed(LocalStore.Apply(n, data, Op.Update("subaccount", name, updated, CARRIED)).0, "subaccount");
            FoundProvider(n, lst', name) == if !Tenantless(lst[i]) then FoundProvider(n, lst, name)
                                            else if Tenantless(updated) then Some(Preserved(updated, lst[i], CARRIED))
                                            else FoundProvider(n, lst[..i] + lst[i + 1..], name)
  {
    var lst := Listed(data, "subaccount");
    var i := IndexOf(n, lst, name);
    var merged := Preserved(updated, lst[i], CARRIED);
    var lst' := lst[i := merged];
    MergedTenant(updated, lst[i]);
    FoundInView(n, lst', name);
    FoundInView(n, lst, name);
    if !Tenantless(lst[i]) {
      ViewElsewhere(lst, i, merged);
    } else {
      FoundInView(n, lst[..i] + lst[i + 1..], name);
      StoreLaws.PreservedName(n, updated, lst[i], CARRIED);
      if Tenantless(updated) {
        ViewFinds(n, lst, i, merged, name);
      } else {
        ViewDropped(lst, i, merged);
      }
    }
  }

  /**
    So a provider destination created beside a subscriber's of the same name can be read and
    deleted, but not updated: the update goes to the subscriber's entry.
  */
  lemma CreatedBesideSubscriber(n: Naming, data: Data, name: string, entry: Item, updated: Item)
    requires NameOf(n, entry) == Some(name) && Tenantless(entry)
    requires StoreLaws.OwnName(n, Op.Update("subaccount", name, updated, CARRIED)) && Tenantless(updated)
    requires FoundProvider(n, Listed(data, "subaccount"), name).None?
    requires IndexOf(n, Listed(data, "subaccount"), name) < |Listed(data, "subaccount")|
    ensures var (created, reply) := CreateProvider(n, data, name, entry);
            var (after, updateReply) := LocalStore.Apply(n, created, Op.Update("subaccount", name, updated, CARRIED));
            && reply == Done && updateReply == Done
            && FoundProvider(n, Listed(after, "subaccount"), name) == Some(entry)
  {
    var lst := Listed(data, "subaccount");
    var (created, _) := CreateProvider(n, data, name, entry);
    var lst' := Listed(created, "subaccount");
    assert lst' == lst + [entry];
    assert forall j :: 0 <= j < |lst| ==> lst'[j] == lst[j];
    assert lst'[|lst|] == entry;
    assert IndexOf(n, lst', name) == IndexOf(n, lst, name);
    assert ProviderIndexOf(n, lst', name) == |lst|;
    UpdateReachesFirstEntry(n, created, name, updated);
  }

  // ---------- Whole runs ----------

  /** What the destination client does at its default level. */
  datatype ProviderOp =
    | Create(name: string, entry: Item)
    | Remove(name: string)
    | Update(name: string, updated: Item)
    | Patch(name: string, action: string, patch: seq<Label>)

  function ApplyOp(n: Naming, data: Data, op: ProviderOp): (Data, Reply) {
    match op
    case Create(name, entry) => CreateProvider(n, data, name, entry)
    case Remove(name) => RemoveProvider(n, data, name)
    case Update(name, updated) => LocalStore.Apply(n, data, Op.Update("subaccount", name, updated, CARRIED))
    case Patch(name, action, patch) => LocalStore.Apply(n, data, Op.PatchLabels("subaccount", name, action, patch))
  }

  /** The operation on the provider's destinations, as a partial map. */
  function MapOp(m: map<string, Item>, op: ProviderOp): (map<string, Item>, Reply) {
    match op
    case Create(name, entry) =>
      if name in m then (m, Conflict) else (if Tenantless(entry) then m[name := entry] else m, Done)
    case Remove(name) =>
      if name !in m then (m, NotFound) else (m - {name}, Done)
    case Update(name, updated) =>
      if name !in m then (m, NotFound)
      else (if Tenantless(updated) then m[name := Preserved(updated, m[name], CARRIED)] else m - {name}, Done)
    case Patch(name, action, patch) =>
      if name !in m then (m, NotFound)
      else
        var labels := Patched(m[name], action, patch);
        if labels.None? then (m, BadRequest) else (m[name := m[name]["labels" := LabelList(labels.value)]], Done)
  }

  /** An entity is serialised under its own name, and neither tenant nor labels are name fields. */
  ghost predicate WellNamed(n: Naming, op: ProviderOp) {
    && (op.Create? ==> NameOf(n, op.entry) == Some(op.name))
    && (op.Update? ==> NameOf(n, op.updated) == Some(op.name))
    && !StoreLaws.NameField(n, "tenant") && !StoreLaws.NameField(n, "labels")
  }

  /** Does an update or patch reach the provider's own entry? Only if the first entry of the name, if any, has no tenant. */
  predicate Reaches(n: Naming, data: Data, op: ProviderOp) {
    var lst := Listed(data, "subaccount");
    var i := IndexOf(n, lst, op.name);
    (op.Update? || op.Patch?) && i < |lst| ==> Tenantless(lst[i])
  }

  ghost predicate Shows(n: Naming, data: Data, m: map<string, Item>) {
    StoreLaws.Represents(n, View(Listed(data, "subaccount")), m)
  }

  lemma Seen(n: Naming, lst: seq<Item>, m: map<string, Item>, name: string)
    requires StoreLaws.Represents(n, View(lst), m)
    ensures FoundProvider(n, lst, name) == if name in m then Some(m[name]) else None
  {
    FoundInView(n, lst, name);
    assert StoreLaws.Found(n, View(lst), name) == if name in m then Some(m[name]) else None;
  }

  lemma CreateShows(n: Naming, data: Data, name: string, entry: Item, m: map<string, Item>)
    requires Shows(n, data, m) && NameOf(n, entry) == Some(name)
    ensures var (data', reply) := CreateProvider(n, data, name, entry);
            Shows(n, data', MapOp(m, ProviderOp.Create(name, entry)).0) && reply == MapOp(m, ProviderOp.Create(name, entry)).1
  {
    var lst := Listed(data, "subaccount");
    Seen(n, lst, m, name);
    if name !in m {
      ViewAppend(lst, [entry]);
      ViewOne(entry);
      if Tenantless(entry) {
        StoreLaws.AppendRepresents(n, View(lst), entry, name, m);
      } else {
        assert View(lst) + [] == View(lst);
      }
    }
  }

  lemma RemoveShows(n: Naming, data: Data, name: string, m: map<string, Item>)
    requires Shows(n, data, m)
    ensures var (data', reply) := RemoveProvider(n, data, name);
            Shows(n, data', MapOp(m, ProviderOp.Remove(name)).0) && reply == MapOp(m, ProviderOp.Remove(name)).1
  {
    var lst := Listed(data, "subaccount");
    Seen(n, lst, m, name);
    if name in m {
      var i := ProviderIndexOf(n, lst, name);
      var j := ViewAt(lst, i, lst[i]);
      StoreLaws.RemoveRepresents(n, View(lst), j, name, m);
    }
  }

  /** An entry of the provider's view replaced where it stands. */
  lemma ReplaceShows(n: Naming, lst: seq<Item>, i: nat, e: Item, name: string, m: map<string, Item>)
    requires StoreLaws.Represents(n, View(lst), m) && i < |lst|
    requires Tenantless(lst[i]) && NameOf(n, lst[i]) == NameOf(n, e) == Some(name)
    ensures StoreLaws.Represents(n, View(lst[i := e]), if Tenantless(e) then m[name := e] else m - {name})
    ensures name in m && m[name] == lst[i]
  {
    var j := ViewAt(lst, i, e);
    StoreLaws.UniqueIndex(n, View(lst), j, name);
    assert StoreLaws.Found(n, View(lst), name) == if name in m then Some(m[name]) else None;
    if Tenantless(e) {
      StoreLaws.ReplaceRepresents(n, View(lst), j, e, name, m);
    } else {
      StoreLaws.RemoveRepresents(n, View(lst), j, name, m);
    }
  }

  /** With no entry of the name at all, the provider has none. */
  lemma NoneShown(n: Naming, lst: seq<Item>, name: string, m: map<string, Item>)
    requires StoreLaws.Represents(n, View(lst), m) && IndexOf(n, lst, name) == |lst|
    ensures name !in m
  {
    NotBefore(n, lst, name);
    assert StoreLaws.Found(n, View(lst), name).Some? <==> name in m;
  }

  lemma UpdateShows(n: Naming, data: Data, name: string, updated: Item, m: map<string, Item>)
    requires Shows(n, data, m) && WellNamed(n, ProviderOp.Update(name, updated)) && Reaches(n, data, ProviderOp.Update(name, updated))
    ensures var (data', reply) := ApplyOp(n, data, ProviderOp.Update(name, updated));
            Shows(n, data', MapOp(m, ProviderOp.Update(name, updated)).0) && reply == MapOp(m, ProviderOp.Update(name, updated)).1
  {
    var lst := Listed(data, "subaccount");
    var i := IndexOf(n, lst, name);
    if i == |lst| {
      NoneShown(n, lst, name, m);
    } else {
      MergedTenant(updated, lst[i]);
      StoreLaws.PreservedName(n, updated, lst[i], CARRIED);
      ReplaceShows(n, lst, i, Preserved(updated, lst[i], CARRIED), name, m);
    }
  }

  /** A patch of the entry at a place of the list. */
  lemma PatchAt(n: Naming, lst: seq<Item>, i: nat, name: string, labels: seq<Label>, m: map<string, Item>)
    requires StoreLaws.Represents(n, View(lst), m) && i < |lst|
    requires Tenantless(lst[i]) && NameOf(n, lst[i]) == Some(name)
    requires !StoreLaws.NameField(n, "labels")
    ensures name in m && m[name] == lst[i]
    ensures StoreLaws.Represents(n, View(lst[i := lst[i]["labels" := LabelList(labels)]]), m[name := lst[i]["labels" := LabelList(labels)]])
  {
    ReplaceShows(n, lst, i, lst[i]["labels" := LabelList(labels)], name, m);
  }

  lemma PatchShows(n: Naming, data: Data, name: string, action: string, patch: seq<Label>, m: map<string, Item>)
    requires Shows(n, data, m) && WellNamed(n, Patch(name, action, patch)) && Reaches(n, data, Patch(name, action, patch))
    ensures var (data', reply) := ApplyOp(n, data, Patch(name, action, patch));
            Shows(n, data', MapOp(m, Patch(name, action, patch)).0) && reply == MapOp(m, Patch(name, action, patch)).1
  {
    var lst := Listed(data, "subaccount");
    var i := IndexOf(n, lst, name);
    if i == |lst| {
      NoneShown(n, lst, name, m);
    } else {
      var labels := Patched(lst[i], action, patch);
      PatchAt(n, lst, i, name, if labels.Some? then labels.value else [], m);
    }
  }

  /** One operation that reaches the provider's own entry does to the provider's map what it says. */
  lemma OpShows(n: Naming, data: Data, op: ProviderOp, m: map<string, Item>)
    requires Shows(n, data, m) && WellNamed(n, op) && Reaches(n, data, op)
    ensures Shows(n, ApplyOp(n, data, op).0, MapOp(m, op).0) && ApplyOp(n, data, op).1 == MapOp(m, op).1
  {
    match op
    case Create(name, entry) => CreateShows(n, data, name, entry, m);
    case Remove(name) => RemoveShows(n, data, name, m);
    case Update(name, updated) => UpdateShows(n, data, name, updated, m);
    case Patch(name, action, patch) => PatchShows(n, data, name, action, patch, m);
  }

  /** One that does not reach it changes nothing the provider sees, and is never answered by not found. */
  lemma MissesView(n: Naming, data: Data, op: ProviderOp)
    requires WellNamed(n, op) && !Reaches(n, data, op)
    ensures View(Listed(ApplyOp(n, data, op).0, "subaccount")) == View(Listed(data, "subaccount"))
    ensures ApplyOp(n, data, op).1 in {Done, BadRequest}
    ensures op.Update? ==> ApplyOp(n, data, op).1 == Done
    ensures op.Patch? ==>
              var lst := Listed(data, "subaccount");
              (ApplyOp(n, data, op).1 == Done <==> Patched(lst[IndexOf(n, lst, op.name)], op.action, op.patch).Some?)
  {
    var lst := Listed(data, "subaccount");
    var i := IndexOf(n, lst, op.name);
    match op
    case Update(name, updated) =>
      MergedTenant(updated, lst[i]);
      ViewElsewhere(lst, i, Preserved(updated, lst[i], CARRIED));
    case Patch(name, action, patch) =>
      var labels := Patched(lst[i], action, patch);
      if labels.Some? {
        ViewElsewhere(lst, i, lst[i]["labels" := LabelList(labels.value)]);
      }
    case _ =>
  }

  function RunOps(n: Naming, data: Data, ops: seq<ProviderOp>): Data {
    if ops == [] then data else ApplyOp(n, RunOps(n, data, ops[..|ops| - 1]), ops[|ops| - 1]).0
  }

  /** The run as the provider sees it: what does not reach its own entries does not count. */
  function RunMap(n: Naming, data: Data, m: map<string, Item>, ops: seq<ProviderOp>): map<string, Item> {
    if ops == [] then m
    else
      var before, op := RunMap(n, data, m, ops[..|ops| - 1]), ops[|ops| - 1];
      if Reaches(n, RunOps(n, data, ops[..|ops| - 1]), op) then MapOp(before, op).0 else before
  }

  /**
    Over any mix of creating, deleting, updating and patching subaccount destinations, tenant-less
    names stay unique and the provider's view is a run of operations on a partial map, with
    exactly the updates and patches left out that reach a subscriber's entry.
  */
  lemma {:induction false} ProviderRunRefines(n: Naming, data: Data, m: map<string, Item>, ops: seq<ProviderOp>)
    requires forall k :: 0 <= k < |ops| ==> WellNamed(n, ops[k])
    requires Shows(n, data, m)
    ensures Shows(n, RunOps(n, data, ops), RunMap(n, data, m, ops))
    decreases |ops|
  {
    if ops != [] {
      var before, op := ops[..|ops| - 1], ops[|ops| - 1];
      ProviderRunRefines(n, data, m, before);
      if Reaches(n, RunOps(n, data, before), op) {
        OpShows(n, RunOps(n, data, before), op, RunMap(n, data, m, before));
      } else {
        MissesView(n, RunOps(n, data, before), op);
      }
    }
  }

  /**
    After any run: the reply to an operation that reaches its entry is the map's. One that reaches
    a subscriber's entry is done, or refused as malformed, whether or not the provider has an
    entry of that name; so not found says that nobody has one, or for a deletion the provider.
  */
  lemma ProviderRepliesRefine(n: Naming, data: Data, m: map<string, Item>, ops: seq<ProviderOp>, op: ProviderOp)
    requires (forall k :: 0 <= k < |ops| ==> WellNamed(n, ops[k])) && WellNamed(n, op)
    requires Shows(n, data, m)
    ensures var now := RunMap(n, data, m, ops);
            var before := RunOps(n, data, ops);
            var reply := ApplyOp(n, before, op).1;
            && (Reaches(n, before, op) ==> reply == MapOp(now, op).1)
            && (!Reaches(n, before, op) ==> reply in {Done, BadRequest} && (op.Update? ==> reply == Done))
            && (reply == Conflict <==> op.Create? && op.name in now)
            && (reply == NotFound <==> !op.Create? && op.name !in now && Reaches(n, before, op))
  {
    ProviderRunRefines(n, data, m, ops);
    if Reaches(n, RunOps(n, data, ops), op) {
      OpShows(n, RunOps(n, data, ops), op, RunMap(n, data, m, ops));
    } else {
      MissesView(n, RunOps(n, data, ops), op);
    }
  }
}
