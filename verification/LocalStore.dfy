/**
  The local development store: two collections of JSON objects kept in a file, with create,
  update, delete and label patching that look entries up by name.
*/
module LocalStore {
  import opened Options
  import opened Labels

  // ---------- Entries ----------

  datatype Value =
    | Null
    | Text(text: string)
    | LabelList(labels: seq<Label>)
    | Other(truthy: bool)

  type Item = map<string, Value>

  predicate Truthy(v: Value) {
    match v
    case Null => false
    case Text(t) => t != ""
    case LabelList(ls) => ls != []
    case Other(b) => b
  }

  /** Which fields hold an entry's name. */
  datatype Naming = Naming(field: string, alt: Option<string>)

  function Field(item: Item, f: string): Value {
    if f in item then item[f] else Null
  }

  /** The name, from the primary field or else the alternative one; only a text is ever equal to a name. */
  function NameOf(n: Naming, item: Item): Option<string> {
    var primary := Field(item, n.field);
    var v := if !Truthy(primary) && n.alt.Some? then Field(item, n.alt.value) else primary;
    if v.Text? then Some(v.text) else None
  }

  predicate Tenantless(item: Item) {
    !Truthy(Field(item, "tenant"))
  }

  /** A field that is missing, or holds what Python takes for false. */
  ghost predicate Lacks(item: Item, f: string) {
    f !in item || item[f] in {Null, Text(""), LabelList([]), Other(false)}
  }

  /** The entry carries this name: as a text in the primary field or, where that holds nothing, in the alternative one. */
  ghost predicate Named(n: Naming, item: Item, name: string) {
    if n.alt.Some? && Lacks(item, n.field) then n.alt.value in item && item[n.alt.value] == Text(name)
    else n.field in item && item[n.field] == Text(name)
  }

  lemma LacksTold(item: Item, f: string)
    ensures Lacks(item, f) <==> !Truthy(Field(item, f))
  {
  }

  lemma NameOfTold(n: Naming, item: Item, name: string)
    ensures NameOf(n, item) == Some(name) <==> Named(n, item, name)
  {
    LacksTold(item, n.field);
  }

  /** The place of the first entry with that name, or the list's length if there is none. */
  function IndexOf(n: Naming, lst: seq<Item>, name: string): (i: nat)
    ensures i <= |lst|
    ensures forall j :: 0 <= j < i ==> NameOf(n, lst[j]) != Some(name)
    ensures i < |lst| ==> NameOf(n, lst[i]) == Some(name)
  {
    if lst == [] || NameOf(n, lst[0]) == Some(name) then 0 else 1 + IndexOf(n, lst[1..], name)
  }

  /** The same among entries without a tenant. */
  function ProviderIndexOf(n: Naming, lst: seq<Item>, name: string): (i: nat)
    ensures i <= |lst|
    ensures forall j :: 0 <= j < i ==> !(NameOf(n, lst[j]) == Some(name) && Tenantless(lst[j]))
    ensures i < |lst| ==> NameOf(n, lst[i]) == Some(name) && Tenantless(lst[i])
  {
    if lst == [] || (NameOf(n, lst[0]) == Some(name) && Tenantless(lst[0])) then 0
    else 1 + ProviderIndexOf(n, lst[1..], name)
  }

  /** Fields of the old entry that an update carries over, where they hold something. */
  function Preserved(updated: Item, existing: Item, fields: seq<string>): Item {
    if fields == [] then updated
    else
      var rest := Preserved(updated, existing, fields[..|fields| - 1]);
      var f := fields[|fields| - 1];
      if f in existing && Truthy(existing[f]) then rest[f := existing[f]] else rest
  }

  /** `list(entry.get("labels", []))`; other kinds of values are refused. */
  function CurrentLabels(item: Item): Option<seq<Label>> {
    if "labels" !in item then Some([])
    else if item["labels"].LabelList? then Some(item["labels"].labels)
    else None
  }

  /** An update carries over exactly the listed fields that held something, and keeps the rest of the new entry. */
  lemma {:induction false} PreservedFields(updated: Item, existing: Item, fields: seq<string>, f: string)
    ensures var r := Preserved(updated, existing, fields);
            if f in fields && !Lacks(existing, f) then f in r && r[f] == existing[f]
            else (f in r <==> f in updated) && (f in r ==> r[f] == updated[f])
  {
    LacksTold(existing, f);
    if fields != [] {
      PreservedFields(updated, existing, fields[..|fields| - 1], f);
      assert fields == fields[..|fields| - 1] + [fields[|fields| - 1]];
    }
  }

  /** The entry's labels; a missing field is as good as an empty list. */
  ghost predicate HasLabels(item: Item, labels: seq<Label>) {
    if "labels" in item then item["labels"] == LabelList(labels) else labels == []
  }

  /** What a patch makes of an entry's labels: ADD sets the last value of each key in first-seen order, DELETE leaves what it does not name. */
  ghost predicate PatchedAs(current: seq<Label>, action: string, patch: seq<Label>, labels: seq<Label>) {
    || (action == "ADD" && UniqueKeys(labels) && FirstOrderLastValue(current + patch, labels))
    || (action == "DELETE" && KeptInOrder(current, patch, labels))
  }

  lemma PatchTold(item: Item, action: string, patch: seq<Label>)
    ensures var labels := Patched(item, action, patch);
            && (labels.Some? <==> action in {"ADD", "DELETE"} && exists current :: HasLabels(item, current))
            && (labels.Some? ==> exists current :: HasLabels(item, current) && PatchedAs(current, action, patch, labels.value))
  {
    var current := CurrentLabels(item);
    if current.Some? {
      assert HasLabels(item, current.value);
      AddYields(current.value, patch);
      DeleteKeepsInOrder(current.value, patch);
    }
  }

  // ---------- Operations on the file's contents ----------

  type Data = map<string, seq<Item>>

  datatype Reply = Done | Conflict | NotFound | BadRequest

  datatype Op =
    | Create(collection: string, name: string, entry: Item)
    | Update(collection: string, name: string, updated: Item, preserve: seq<string>)
    | Remove(collection: string, name: string)
    | PatchLabels(collection: string, name: string, action: string, patch: seq<Label>)

  function Listed(data: Data, collection: string): seq<Item> {
    if collection in data then data[collection] else []
  }

  function Apply(n: Naming, data: Data, op: Op): (Data, Reply) {
    var lst := Listed(data, op.collection);
    var i := IndexOf(n, lst, op.name);
    if op.Create? then
      if i < |lst| then (data, Conflict) else (data[op.collection := lst + [op.entry]], Done)
    else if i == |lst| then (data, NotFound)
    else match op
         case Update(c, _, updated, preserve) => (data[c := lst[i := Preserved(updated, lst[i], preserve)]], Done)
         case Remove(c, _) => (data[c := lst[..i] + lst[i + 1..]], Done)
         case PatchLabels(c, _, action, patch) =>
           var labels := Patched(lst[i], action, patch);
           if labels.None? then (data, BadRequest)
           else (data[c := lst[i := lst[i]["labels" := LabelList(labels.value)]]], Done)
  }

  function Patched(item: Item, action: string, patch: seq<Label>): Option<seq<Label>> {
    var current := CurrentLabels(item);
    if current.None? then None
    else if action == "ADD" then Some(Add(current.value, patch))
    else if action == "DELETE" then Some(Delete(current.value, Keys(patch)))
    else None
  }

  /** Creating a subaccount destination looks only at entries without a tenant. */
  function CreateProvider(n: Naming, data: Data, name: string, entry: Item): (Data, Reply) {
    var lst := Listed(data, "subaccount");
    if ProviderIndexOf(n, lst, name) < |lst| then (data, Conflict)
    else (data["subaccount" := lst + [entry]], Done)
  }

  /** So does deleting one. */
  function RemoveProvider(n: Naming, data: Data, name: string): (Data, Reply) {
    var lst := Listed(data, "subaccount");
    var i := ProviderIndexOf(n, lst, name);
    if i == |lst| then (data, NotFound) else (data["subaccount" := lst[..i] + lst[i + 1..]], Done)
  }

  /** Not found without an entry of the name; malformed for another action, or where the entry's labels are no list. */
  ghost predicate PatchReply(n: Naming, lst: seq<Item>, name: string, action: string, reply: Reply) {
    && (reply == NotFound <==> forall e :: e in lst ==> !Named(n, e, name))
    && (reply == Done ==> action in {"ADD", "DELETE"})
    && (reply == BadRequest ==>
          action !in {"ADD", "DELETE"} || exists e :: e in lst && Named(n, e, name) && forall current :: !HasLabels(e, current))
    && reply != Conflict
  }

  /** The entry at place i is the first of the name and has these labels afterwards, as the patch says; nothing else is changed. */
  ghost predicate PatchedAt(
    n: Naming, lst: seq<Item>, name: string, action: string, patch: seq<Label>, after: seq<Item>, i: nat, labels: seq<Label>)
  {
    && i < |lst| && Named(n, lst[i], name) && (forall j :: 0 <= j < i ==> !Named(n, lst[j], name))
    && after == lst[i := lst[i]["labels" := LabelList(labels)]]
    && exists current :: HasLabels(lst[i], current) && PatchedAs(current, action, patch, labels)
  }

  ghost predicate PatchedList(n: Naming, lst: seq<Item>, name: string, action: string, patch: seq<Label>, after: seq<Item>) {
    exists i, labels :: PatchedAt(n, lst, name, action, patch, after, i, labels)
  }

  // ---------- The store ----------

  class Store {
    const naming: Naming
    var data: Data

    constructor (naming: Naming)
      ensures this.naming == naming
      ensures data == map["subaccount" := [], "instance" := []]
    {
      this.naming := naming;
      this.data := map["subaccount" := [], "instance" := []];
    }

    method Items(collection: string) returns (lst: seq<Item>)
      ensures lst == Listed(data, collection)
    {
      return if collection in data then data[collection] else [];
    }

    method IndexByName(lst: seq<Item>, name: string) returns (i: int)
      ensures i == if IndexOf(naming, lst, name) < |lst| then IndexOf(naming, lst, name) else -1
      ensures -1 <= i < |lst| && (i >= 0 ==> Named(naming, lst[i], name))
      ensures forall j :: 0 <= j < (if i < 0 then |lst| else i) ==> !Named(naming, lst[j], name)
    {
      forall j | 0 <= j < |lst|
        ensures NameOf(naming, lst[j]) == Some(name) <==> Named(naming, lst[j], name)
      {
        NameOfTold(naming, lst[j], name);
      }
      for k := 0 to |lst|
        invariant forall j :: 0 <= j < k ==> NameOf(naming, lst[j]) != Some(name)
      {
        if NameOf(naming, lst[k]) == Some(name) {
          return k;
        }
      }
      return -1;
    }

    method IndexByNameAndNoTenant(lst: seq<Item>, name: string) returns (i: int)
      ensures i == if ProviderIndexOf(naming, lst, name) < |lst| then ProviderIndexOf(naming, lst, name) else -1
      ensures -1 <= i < |lst| && (i >= 0 ==> Named(naming, lst[i], name) && Lacks(lst[i], "tenant"))
      ensures forall j :: 0 <= j < (if i < 0 then |lst| else i) ==> !(Named(naming, lst[j], name) && Lacks(lst[j], "tenant"))
    {
      forall j | 0 <= j < |lst|
        ensures NameOf(naming, lst[j]) == Some(name) <==> Named(naming, lst[j], name)
        ensures Tenantless(lst[j]) <==> Lacks(lst[j], "tenant")
      {
        NameOfTold(naming, lst[j], name);
        LacksTold(lst[j], "tenant");
      }
      for k := 0 to |lst|
        invariant forall j :: 0 <= j < k ==> !(NameOf(naming, lst[j]) == Some(name) && Tenantless(lst[j]))
      {
        if NameOf(naming, lst[k]) == Some(name) && Tenantless(lst[k]) {
          return k;
        }
      }
      return -1;
    }

    method CreateEntity(collection: string, entry: Item, name: string) returns (reply: Reply)
      modifies this
      ensures (data, reply) == Apply(naming, old(data), Create(collection, name, entry))
    {
      var lst := Items(collection);
      var i := IndexByName(lst, name);
      if i >= 0 {
        return Conflict;
      }
      data := data[collection := lst + [entry]];
      return Done;
    }

    method UpdateEntity(collection: string, entry: Item, name: string, preserve: seq<string>) returns (reply: Reply)
      modifies this
      ensures (data, reply) == Apply(naming, old(data), Update(collection, name, entry, preserve))
    {
      var lst := Items(collection);
      var i := IndexByName(lst, name);
      if i < 0 {
        return NotFound;
      }
      var updated := entry;
      var existing := lst[i];
      for k := 0 to |preserve|
        invariant updated == Preserved(entry, existing, preserve[..k])
      {
        var f := preserve[k];
        if f in existing && Truthy(existing[f]) {
          updated := updated[f := existing[f]];
        }
        assert preserve[..k + 1][..k] == preserve[..k];
      }
      assert preserve[..|preserve|] == preserve;
      data := data[collection := lst[i := updated]];
      return Done;
    }

    method DeleteEntity(collection: string, name: string) returns (reply: Reply)
      modifies this
      ensures (data, reply) == Apply(naming, old(data), Remove(collection, name))
    {
      var lst := Items(collection);
      var i := IndexByName(lst, name);
      if i < 0 {
        return NotFound;
      }
      data := data[collection := lst[..i] + lst[i + 1..]];
      return Done;
    }

    method CreateProviderEntity(entry: Item, name: string) returns (reply: Reply)
      modifies this
      ensures (data, reply) == CreateProvider(naming, old(data), name, entry)
    {
      var lst := Items("subaccount");
      var i := IndexByNameAndNoTenant(lst, name);
      if i >= 0 {
        return Conflict;
      }
      data := data["subaccount" := lst + [entry]];
      return Done;
    }

    method DeleteProviderEntity(name: string) returns (reply: Reply)
      modifies this
      ensures (data, reply) == RemoveProvider(naming, old(data), name)
    {
      var lst := Items("subaccount");
      var i := IndexByNameAndNoTenant(lst, name);
      if i < 0 {
        return NotFound;
      }
      data := data["subaccount" := lst[..i] + lst[i + 1..]];
      return Done;
    }

    method PatchLabelsInStore(collection: string, name: string, action: string, patch: seq<Label>) returns (reply: Reply)
      modifies this
      ensures (data, reply) == Apply(naming, old(data), PatchLabels(collection, name, action, patch))
      ensures PatchReply(naming, Listed(old(data), collection), name, action, reply)
      ensures reply != Done ==> data == old(data)
      ensures reply == Done ==>
                PatchedList(naming, Listed(old(data), collection), name, action, patch, Listed(data, collection))
      ensures forall c :: c != collection ==> Listed(data, c) == Listed(old(data), c)
    {
      var lst := Items(collection);
      var i := IndexByName(lst, name);
      if i < 0 {
        return NotFound;
      }
      var current := CurrentLabels(lst[i]);
      if current.None? {
        return BadRequest;
      }
      var labels;
      if action == "ADD" {
        labels := AddLabels(current.value, patch);
      } else if action == "DELETE" {
        labels := DeleteLabels(current.value, patch);
      } else {
        return BadRequest;
      }
      PatchTold(lst[i], action, patch);
      data := data[collection := lst[i := lst[i]["labels" := LabelList(labels)]]];
      assert PatchedAt(naming, lst, name, action, patch, Listed(data, collection), i, labels);
      return Done;
    }
  }
}
