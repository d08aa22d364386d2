/** Label lists and the two patch actions of the local store: upsert by key, and removal by key. */
module Labels {

  datatype Label = Label(key: string, values: seq<string>)

  // ---------- A dictionary of labels, in insertion order ----------

  /** `key_map[l.key] = l`: an existing key keeps its place. */
  function Upsert(dict: seq<Label>, l: Label): seq<Label> {
    if dict == [] then [l]
    else if dict[0].key == l.key then [l] + dict[1..]
    else [dict[0]] + Upsert(dict[1..], l)
  }

  function UpsertAll(dict: seq<Label>, labels: seq<Label>): seq<Label>
    decreases |labels|
  {
    if labels == [] then dict else UpsertAll(Upsert(dict, labels[0]), labels[1..])
  }

  function Add(current: seq<Label>, patch: seq<Label>): seq<Label> {
    UpsertAll(UpsertAll([], current), patch)
  }

  function Delete(current: seq<Label>, keys: set<string>): seq<Label> {
    if current == [] then []
    else (if current[0].key in keys then [] else [current[0]]) + Delete(current[1..], keys)
  }

  function Keys(labels: seq<Label>): set<string> {
    set l | l in labels :: l.key
  }

  /** ADD: build the dictionary from the current labels, then from the patch. */
  method AddLabels(current: seq<Label>, patch: seq<Label>) returns (result: seq<Label>)
    ensures result == Add(current, patch)
  {
    result := [];
    for i := 0 to |current|
      invariant result == UpsertAll([], current[..i])
    {
      result := Upsert(result, current[i]);
      UpsertAllAppend([], current[..i], [current[i]]);
      assert current[..i] + [current[i]] == current[..i + 1];
    }
    assert current[..|current|] == current;
    for i := 0 to |patch|
      invariant result == UpsertAll(UpsertAll([], current), patch[..i])
    {
      result := Upsert(result, patch[i]);
      UpsertAllAppend(UpsertAll([], current), patch[..i], [patch[i]]);
      assert patch[..i] + [patch[i]] == patch[..i + 1];
    }
    assert patch[..|patch|] == patch;
  }

  /** DELETE: keep what no patch label names. */
  method DeleteLabels(current: seq<Label>, patch: seq<Label>) returns (result: seq<Label>)
    ensures result == Delete(current, Keys(patch))
  {
    var keysToRemove := Keys(patch);
    result := [];
    for i := 0 to |current|
      invariant result == Delete(current[..i], keysToRemove)
    {
      if current[i].key !in keysToRemove {
        result := result + [current[i]];
      }
      DeleteAppend(current[..i], [current[i]], keysToRemove);
      assert current[..i] + [current[i]] == current[..i + 1];
    }
    assert current[..|current|] == current;
  }

  // ---------- What ADD yields ----------

  ghost predicate UniqueKeys(labels: seq<Label>) {
    forall i, j :: 0 <= i < j < |labels| ==> labels[i].key != labels[j].key
  }

  /** The keys of a list, each where it is first seen. */
  function FirstSeen(labels: seq<Label>): seq<string> {
    if labels == [] then []
    else
      var before, l := FirstSeen(labels[..|labels| - 1]), labels[|labels| - 1];
      if l.key in before then before else before + [l.key]
  }

  /** The last label with `key`. */
  function LastWith(labels: seq<Label>, key: string): Label {
    if labels == [] then Label(key, [])
    else if labels[|labels| - 1].key == key then labels[|labels| - 1]
    else LastWith(labels[..|labels| - 1], key)
  }

  /** The keys of `labels` in first-seen order, each with its last label. */
  ghost predicate FirstOrderLastValue(labels: seq<Label>, result: seq<Label>) {
    && |result| == |FirstSeen(labels)|
    && forall i :: 0 <= i < |result| ==>
         result[i].key == FirstSeen(labels)[i] && result[i] == LastWith(labels, result[i].key)
  }

  lemma {:induction false} UpsertAllAppend(dict: seq<Label>, a: seq<Label>, b: seq<Label>)
    ensures UpsertAll(dict, a + b) == UpsertAll(UpsertAll(dict, a), b)
    decreases |a|
  {
    if a == [] {
      assert a + b == b;
    } else {
      assert (a + b)[1..] == a[1..] + b;
      UpsertAllAppend(Upsert(dict, a[0]), a[1..], b);
    }
  }

  lemma {:induction false} UpsertAt(dict: seq<Label>, l: Label)
    requires UniqueKeys(dict)
    ensures var r := Upsert(dict, l);
            if l.key in Keys(dict) then
              |r| == |dict| && forall i :: 0 <= i < |dict| ==> r[i] == if dict[i].key == l.key then l else dict[i]
            else r == dict + [l]
  {
    if dict != [] {
      assert UniqueKeys(dict[1..]);
      UpsertAt(dict[1..], l);
      assert forall x :: x in dict[1..] ==> x in dict;
    }
  }

  lemma {:induction false} DictionaryOrder(labels: seq<Label>)
    ensures FirstOrderLastValue(labels, UpsertAll([], labels))
    ensures UniqueKeys(UpsertAll([], labels))
    ensures forall k :: k in FirstSeen(labels) <==> k in Keys(UpsertAll([], labels))
  {
    if labels != [] {
      var before, l := labels[..|labels| - 1], labels[|labels| - 1];
      assert labels == before + [l];
      DictionaryOrder(before);
      UpsertAllAppend([], before, [l]);
      var dict, r := UpsertAll([], before), UpsertAll([], labels);
      assert r == Upsert(dict, l);
      UpsertAt(dict, l);
      KeysFollow(labels, r);
    }
  }

  /** A list whose keys are, place by place, `FirstSeen` has exactly those keys. */
  lemma KeysFollow(labels: seq<Label>, r: seq<Label>)
    requires |r| == |FirstSeen(labels)| && forall i :: 0 <= i < |r| ==> r[i].key == FirstSeen(labels)[i]
    ensures forall k :: k in FirstSeen(labels) <==> k in Keys(r)
  {
  }

  /** ADD keeps one label a key: keys as first seen in the current labels and then the patch, the last value winning. */
  lemma AddYields(current: seq<Label>, patch: seq<Label>)
    ensures UniqueKeys(Add(current, patch))
    ensures FirstOrderLastValue(current + patch, Add(current, patch))
  {
    UpsertAllAppend([], current, patch);
    DictionaryOrder(current + patch);
  }

  // ---------- Algebra ----------

  /** Rebuilding a dictionary with unique keys changes nothing. */
  lemma {:induction false} RebuildUnique(labels: seq<Label>)
    requires UniqueKeys(labels)
    ensures UpsertAll([], labels) == labels
  {
    if labels != [] {
      var before, l := labels[..|labels| - 1], labels[|labels| - 1];
      assert labels == before + [l] && UniqueKeys(before);
      RebuildUnique(before);
      UpsertAllAppend([], before, [l]);
      UpsertAt(before, l);
    }
  }

  /** Two ADDs are one ADD of both patches. */
  lemma AddComposes(current: seq<Label>, p1: seq<Label>, p2: seq<Label>)
    ensures Add(Add(current, p1), p2) == Add(current, p1 + p2)
  {
    AddYields(current, p1);
    RebuildUnique(Add(current, p1));
    UpsertAllAppend(UpsertAll([], current), p1, p2);
  }

  lemma {:induction false} DeleteAppend(a: seq<Label>, b: seq<Label>, keys: set<string>)
    ensures Delete(a + b, keys) == Delete(a, keys) + Delete(b, keys)
  {
    if a == [] {
      assert a + b == b;
    } else {
      assert (a + b)[1..] == a[1..] + b;
      DeleteAppend(a[1..], b, keys);
    }
  }

  /** DELETE leaves, in order, exactly the labels with other keys. */
  lemma {:induction false} DeleteYields(current: seq<Label>, keys: set<string>, l: Label)
    ensures l in Delete(current, keys) <==> l in current && l.key !in keys
    ensures multiset(Delete(current, keys))[l] == if l.key in keys then 0 else multiset(current)[l]
  {
    if current != [] {
      DeleteYields(current[1..], keys, l);
      assert current == [current[0]] + current[1..];
    }
  }

  /** Some label of the patch has this key. */
  ghost predicate Names(patch: seq<Label>, key: string) {
    exists l :: l in patch && l.key == key
  }

  /** `kept` is what stands at these places of `current`: in order, exactly the labels that the patch does not name. */
  ghost predicate KeptAt(current: seq<Label>, patch: seq<Label>, kept: seq<Label>, places: seq<nat>) {
    && |places| == |kept|
    && (forall i, j :: 0 <= i < j < |places| ==> places[i] < places[j])
    && (forall i :: 0 <= i < |places| ==> places[i] < |current| && kept[i] == current[places[i]])
    && (forall k :: 0 <= k < |current| ==> (k in places <==> !Names(patch, current[k].key)))
  }

  ghost predicate KeptInOrder(current: seq<Label>, patch: seq<Label>, kept: seq<Label>) {
    exists places :: KeptAt(current, patch, kept, places)
  }

  lemma OneMorePlace(before: seq<Label>, l: Label, patch: seq<Label>, kept: seq<Label>, places: seq<nat>)
    requires KeptAt(before, patch, kept, places)
    ensures if Names(patch, l.key) then KeptAt(before + [l], patch, kept, places)
            else KeptAt(before + [l], patch, kept + [l], places + [|before|])
  {
    var more := places + [|before|];
    assert forall k :: k in places ==> k < |before|;
    assert forall k :: k in more <==> k in places || k == |before|;
  }

  lemma {:induction false} DeletePlaces(current: seq<Label>, patch: seq<Label>) returns (places: seq<nat>)
    ensures KeptAt(current, patch, Delete(current, Keys(patch)), places)
  {
    if current == [] {
      places := [];
    } else {
      var before, l := current[..|current| - 1], current[|current| - 1];
      places := DeletePlaces(before, patch);
      OneMorePlace(before, l, patch, Delete(before, Keys(patch)), places);
      DeleteAppend(before, [l], Keys(patch));
      assert current == before + [l];
      if !Names(patch, l.key) {
        places := places + [|before|];
      }
    }
  }

  /** DELETE keeps, in their order, exactly the labels whose key the patch does not name. */
  lemma DeleteKeepsInOrder(current: seq<Label>, patch: seq<Label>)
    ensures KeptInOrder(current, patch, Delete(current, Keys(patch)))
  {
    var places := DeletePlaces(current, patch);
  }

  /** Two DELETEs are one DELETE of both patches. */
  lemma {:induction false} DeleteComposes(current: seq<Label>, p1: seq<Label>, p2: seq<Label>)
    ensures Delete(Delete(current, Keys(p1)), Keys(p2)) == Delete(current, Keys(p1 + p2))
  {
    assert Keys(p1 + p2) == Keys(p1) + Keys(p2);
    DeleteTwice(current, Keys(p1), Keys(p2));
  }

  lemma {:induction false} DeleteTwice(current: seq<Label>, k1: set<string>, k2: set<string>)
    ensures Delete(Delete(current, k1), k2) == Delete(current, k1 + k2)
  {
    if current != [] {
      DeleteTwice(current[1..], k1, k2);
      var head := if current[0].key in k1 then [] else [current[0]];
      DeleteAppend(head, Delete(current[1..], k1), k2);
    }
  }

  lemma {:induction false} DeleteUpsert(dict: seq<Label>, l: Label, keys: set<string>)
    ensures Delete(Upsert(dict, l), keys) == if l.key in keys then Delete(dict, keys) else Upsert(Delete(dict, keys), l)
  {
    if dict != [] {
      DeleteUpsert(dict[1..], l, keys);
      if dict[0].key == l.key {
        assert Upsert(dict, l)[1..] == dict[1..];
      } else {
        assert Upsert(dict, l)[1..] == Upsert(dict[1..], l);
        if dict[0].key !in keys {
          assert Delete(dict, keys)[1..] == Delete(dict[1..], keys);
        } else {
          assert Delete(dict, keys) == Delete(dict[1..], keys);
        }
      }
    }
  }

  lemma {:induction false} DeleteUpsertAll(dict: seq<Label>, labels: seq<Label>, keys: set<string>)
    ensures Delete(UpsertAll(dict, labels), keys) == UpsertAll(Delete(dict, keys), Delete(labels, keys))
    decreases |labels|
  {
    if labels != [] {
      DeleteUpsert(dict, labels[0], keys);
      DeleteUpsertAll(Upsert(dict, labels[0]), labels[1..], keys);
      if labels[0].key !in keys {
        assert Delete(labels, keys)[1..] == Delete(labels[1..], keys);
      } else {
        assert Delete(labels, keys) == Delete(labels[1..], keys);
      }
    }
  }

  lemma {:induction false} DeleteOwn(labels: seq<Label>, keys: set<string>)
    requires Keys(labels) <= keys
    ensures Delete(labels, keys) == []
  {
    if labels != [] {
      assert labels[0].key in Keys(labels);
      assert Keys(labels[1..]) <= Keys(labels);
      DeleteOwn(labels[1..], keys);
    }
  }

  /** ADD then DELETE of the same patch is DELETE, exactly if the labels that stay have unique keys. */
  lemma AddThenDeleteExactly(current: seq<Label>, patch: seq<Label>)
    ensures Delete(Add(current, patch), Keys(patch)) == Delete(current, Keys(patch))
            <==> UniqueKeys(Delete(current, Keys(patch)))
  {
    var keys := Keys(patch);
    DeleteUpsertAll(UpsertAll([], current), patch, keys);
    DeleteOwn(patch, keys);
    DeleteUpsertAll([], current, keys);
    DictionaryOrder(Delete(current, keys));
    if UniqueKeys(Delete(current, keys)) {
      RebuildUnique(Delete(current, keys));
    }
  }
}
