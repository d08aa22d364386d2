/**
  Laws of the local store: with unique names each collection is a partial map, whatever the run.
*/
module StoreLaws {
  import opened Options
  import opened Labels
  import opened LocalStore

  // ---------- A collection as a partial map ----------

  ghost predicate UniqueNames(n: Naming, lst: seq<Item>) {
    forall i, j :: 0 <= i < j < |lst| && NameOf(n, lst[i]).Some? ==> NameOf(n, lst[i]) != NameOf(n, lst[j])
  }

  /** What a lookup by name finds. */
  function Found(n: Naming, lst: seq<Item>, name: string): Option<Item> {
    var i := IndexOf(n, lst, name);
    if i < |lst| then Some(lst[i]) else None
  }

  ghost predicate Represents(n: Naming, lst: seq<Item>, m: map<string, Item>) {
    && UniqueNames(n, lst)
    && forall name :: Found(n, lst, name) == if name in m then Some(m[name]) else None
  }

  /** The operation on the map: conflict iff present, not found iff absent. */
  function MapApply(m: map<string, Item>, op: Op): (map<string, Item>, Reply) {
    match op
    case Create(_, name, entry) =>
      if name in m then (m, Conflict) else (m[name := entry], Done)
    case Update(_, name, updated, preserve) =>
      if name !in m then (m, NotFound) else (m[name := Preserved(updated, m[name], preserve)], Done)
    case Remove(_, name) =>
      if name !in m then (m, NotFound) else (m - {name}, Done)
    case PatchLabels(_, name, action, patch) =>
      if name !in m then (m, NotFound)
      else
        var labels := Patched(m[name], action, patch);
        if labels.None? then (m, BadRequest) else (m[name := m[name]["labels" := LabelList(labels.value)]], Done)
  }

  ghost predicate NameField(n: Naming, f: string) {
    f == n.field || n.alt == Some(f)
  }

  /** The client serialises an entity under its own name, and never preserves a name field. */
  ghost predicate OwnName(n: Naming, op: Op) {
    && (op.Create? ==> NameOf(n, op.entry) == Some(op.name))
    && (op.Update? ==> NameOf(n, op.updated) == Some(op.name)
                       && forall f :: f in op.preserve ==> !NameField(n, f))
    && !NameField(n, "labels")
  }

  function Names(n: Naming, lst: seq<Item>): set<string> {
    set e | e in lst && NameOf(n, e).Some? :: NameOf(n, e).value
  }

  lemma FoundExactly(n: Naming, lst: seq<Item>, name: string)
    ensures Found(n, lst, name).Some? <==> name in Names(n, lst)
  {
  }

  /** Any collection with unique names is a partial map to begin with. */
  lemma UniqueRepresented(n: Naming, lst: seq<Item>) returns (m: map<string, Item>)
    requires UniqueNames(n, lst)
    ensures Represents(n, lst, m) && m.Keys == Names(n, lst)
  {
    forall name
      ensures Found(n, lst, name).Some? <==> name in Names(n, lst)
    {
      FoundExactly(n, lst, name);
    }
    m := map name | name in Names(n, lst) :: Found(n, lst, name).value;
  }

  lemma UniqueIndex(n: Naming, lst: seq<Item>, i: nat, name: string)
    requires UniqueNames(n, lst) && i < |lst| && NameOf(n, lst[i]) == Some(name)
    ensures IndexOf(n, lst, name) == i
  {
  }

  lemma FoundAppended(n: Naming, lst: seq<Item>, e: Item, name: string)
    ensures Found(n, lst + [e], name) == if Found(n, lst, name).Some? then Found(n, lst, name)
                                         else if NameOf(n, e) == Some(name) then Some(e) else None
  {
    var all := lst + [e];
    assert forall j :: 0 <= j < |lst| ==> all[j] == lst[j];
    assert all[|lst|] == e;
  }

  /** Replacing an entry by one of the same name. */
  lemma FoundReplaced(n: Naming, lst: seq<Item>, i: nat, e: Item, name: string)
    requires UniqueNames(n, lst) && i < |lst| && NameOf(n, e) == NameOf(n, lst[i])
    ensures UniqueNames(n, lst[i := e])
    ensures Found(n, lst[i := e], name) == if NameOf(n, e) == Some(name) then Some(e) else Found(n, lst, name)
  {
    var all := lst[i := e];
    assert forall j :: 0 <= j < |lst| ==> NameOf(n, all[j]) == NameOf(n, lst[j]);
    if NameOf(n, e) == Some(name) {
      UniqueIndex(n, all, i, name);
    }
  }

  lemma FoundRemoved(n: Naming, lst: seq<Item>, i: nat, name: string)
    requires UniqueNames(n, lst) && i < |lst| && NameOf(n, lst[i]).Some?
    ensures var all := lst[..i] + lst[i + 1..];
            && UniqueNames(n, all)
            && Found(n, all, name) == if NameOf(n, lst[i]) == Some(name) then None else Found(n, lst, name)
  {
    var all := lst[..i] + lst[i + 1..];
    assert forall j :: 0 <= j < |all| ==> all[j] == if j < i then lst[j] else lst[j + 1];
    assert UniqueNames(n, all);
    var k := IndexOf(n, lst, name);
    if NameOf(n, lst[i]) == Some(name) {
      UniqueIndex(n, lst, i, name);
    } else if k < |lst| {
      UniqueIndex(n, all, if k < i then k else k - 1, name);
    }
  }

  lemma PreservedName(n: Naming, updated: Item, existing: Item, fields: seq<string>)
    requires forall f :: f in fields ==> !NameField(n, f)
    ensures NameOf(n, Preserved(updated, existing, fields)) == NameOf(n, updated)
  {
    PreservedFields(updated, existing, fields, n.field);
    if n.alt.Some? {
      PreservedFields(updated, existing, fields, n.alt.value);
    }
  }

  lemma AppendRepresents(n: Naming, lst: seq<Item>, e: Item, name: string, m: map<string, Item>)
    requires Represents(n, lst, m) && NameOf(n, e) == Some(name) && name !in m
    ensures Represents(n, lst + [e], m[name := e])
  {
    var all := lst + [e];
    var m' := m[name := e];
    forall other
      ensures Found(n, all, other) == if other in m' then Some(m'[other]) else None
    {
      FoundAppended(n, lst, e, other);
      assert Found(n, lst, other) == if other in m then Some(m[other]) else None;
    }
    assert Found(n, lst, name).None?;
  }

  lemma ReplaceRepresents(n: Naming, lst: seq<Item>, i: nat, e: Item, name: string, m: map<string, Item>)
    requires Represents(n, lst, m) && i < |lst| && NameOf(n, e) == NameOf(n, lst[i]) == Some(name)
    ensures Represents(n, lst[i := e], m[name := e])
  {
    var all := lst[i := e];
    var m' := m[name := e];
    forall other
      ensures Found(n, all, other) == if other in m' then Some(m'[other]) else None
    {
      FoundReplaced(n, lst, i, e, other);
      assert Found(n, lst, other) == if other in m then Some(m[other]) else None;
    }
    FoundReplaced(n, lst, i, e, name);
  }

  lemma RemoveRepresents(n: Naming, lst: seq<Item>, i: nat, name: string, m: map<string, Item>)
    requires Represents(n, lst, m) && i < |lst| && NameOf(n, lst[i]) == Some(name)
    ensures Represents(n, lst[..i] + lst[i + 1..], m - {name})
  {
    var all := lst[..i] + lst[i + 1..];
    var rest := m - {name};
    forall other
      ensures Found(n, all, other) == if other in rest then Some(rest[other]) else None
    {
      FoundRemoved(n, lst, i, other);
      assert Found(n, lst, other) == if other in m then Some(m[other]) else None;
    }
    FoundRemoved(n, lst, i, name);
  }

  /** An operation leaves the other collections alone. */
  lemma OtherCollections(n: Naming, data: Data, op: Op, c: string)
    requires c != op.collection
    ensures Listed(Apply(n, data, op).0, c) == Listed(data, c)
  {
  }

  /** One operation on one collection does to its map what it says. */
  lemma ApplyRefines(n: Naming, data: Data, op: Op, m: map<string, Item>)
    requires Represents(n, Listed(data, op.collection), m) && OwnName(n, op)
    ensures var (data', reply) := Apply(n, data, op);
            && Represents(n, Listed(data', op.collection), MapApply(m, op).0)
            && reply == MapApply(m, op).1
  {
    var lst := Listed(data, op.collection);
    var i := IndexOf(n, lst, op.name);
    assert Found(n, lst, op.name) == if op.name in m then Some(m[op.name]) else None;
    if op.Create? {
      if op.name !in m {
        AppendRepresents(n, lst, op.entry, op.name, m);
      }
    } else if op.name in m {
      match op
      case Update(_, _, updated, preserve) =>
        PreservedName(n, updated, lst[i], preserve);
        ReplaceRepresents(n, lst, i, Preserved(updated, lst[i], preserve), op.name, m);
      case Remove(_, _) => RemoveRepresents(n, lst, i, op.name, m);
      case PatchLabels(_, _, action, patch) =>
        var labels := Patched(lst[i], action, patch);
        if labels.Some? {
          ReplaceRepresents(n, lst, i, lst[i]["labels" := LabelList(labels.value)], op.name, m);
        }
    }
  }

  function Run(n: Naming, data: Data, ops: seq<Op>): Data {
    if ops == [] then data else Apply(n, Run(n, data, ops[..|ops| - 1]), ops[|ops| - 1]).0
  }

  /** The same run seen by one collection's map. */
  function MapRun(c: string, m: map<string, Item>, ops: seq<Op>): map<string, Item> {
    if ops == [] then m
    else
      var before, op := MapRun(c, m, ops[..|ops| - 1]), ops[|ops| - 1];
      if op.collection == c then MapApply(before, op).0 else before
  }

  /** Every run keeps names unique and is, for each collection, a run of operations on a partial map. */
  lemma {:induction false} RunRefines(n: Naming, data: Data, c: string, m: map<string, Item>, ops: seq<Op>)
    requires forall k :: 0 <= k < |ops| ==> OwnName(n, ops[k])
    requires Represents(n, Listed(data, c), m)
    ensures Represents(n, Listed(Run(n, data, ops), c), MapRun(c, m, ops))
  {
    if ops != [] {
      var before, op := ops[..|ops| - 1], ops[|ops| - 1];
      RunRefines(n, data, c, m, before);
      if op.collection == c {
        ApplyRefines(n, Run(n, data, before), op, MapRun(c, m, before));
      } else {
        OtherCollections(n, Run(n, data, before), op, c);
      }
    }
  }

  /** The operations of a run that name one collection. */
  function Only(c: string, ops: seq<Op>): seq<Op> {
    if ops == [] then []
    else
      var before, op := Only(c, ops[..|ops| - 1]), ops[|ops| - 1];
      if op.collection == c then before + [op] else before
  }

  /** What an operation leaves in its collection depends on that collection alone. */
  lemma OwnCollection(n: Naming, a: Data, b: Data, op: Op)
    requires Listed(a, op.collection) == Listed(b, op.collection)
    ensures Listed(Apply(n, a, op).0, op.collection) == Listed(Apply(n, b, op).0, op.collection)
    ensures Apply(n, a, op).1 == Apply(n, b, op).1
  {
  }

  /** However operations on the two collections are mixed, each collection ends as if it had been alone. */
  lemma {:induction false} CollectionsApart(n: Naming, data: Data, c: string, ops: seq<Op>)
    ensures Listed(Run(n, data, ops), c) == Listed(Run(n, data, Only(c, ops)), c)
    decreases |ops|
  {
    if ops != [] {
      var before, op := ops[..|ops| - 1], ops[|ops| - 1];
      CollectionsApart(n, data, c, before);
      if op.collection == c {
        OwnCollection(n, Run(n, data, before), Run(n, data, Only(c, before)), op);
        assert (Only(c, before) + [op])[..|Only(c, before)|] == Only(c, before);
      } else {
        OtherCollections(n, Run(n, data, before), op, c);
      }
    }
  }

  /** The reply to the next operation is the map's: conflict iff present, not found iff absent. */
  lemma RepliesRefine(n: Naming, data: Data, m: map<string, Item>, ops: seq<Op>, op: Op)
    requires (forall k :: 0 <= k < |ops| ==> OwnName(n, ops[k])) && OwnName(n, op)
    requires Represents(n, Listed(data, op.collection), m)
    ensures var now := MapRun(op.collection, m, ops);
            var reply := Apply(n, Run(n, data, ops), op).1;
            && reply == MapApply(now, op).1
            && (reply == Conflict <==> op.Create? && op.name in now)
            && (reply == NotFound <==> !op.Create? && op.name !in now)
  {
    RunRefines(n, data, op.collection, m, ops);
    ApplyRefines(n, Run(n, data, ops), op, MapRun(op.collection, m, ops));
  }
}
