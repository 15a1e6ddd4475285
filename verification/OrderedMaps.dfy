// Maps that keep their entries in the order the keys were first inserted, as serde_json's do.
module OrderedMaps {
  import opened Wrappers

  type Entries<+V> = seq<(string, V)>

  predicate Distinct<V>(entries: Entries<V>) {
    forall i, j :: 0 <= i < j < |entries| ==> entries[i].0 != entries[j].0
  }

  function IndexOf<V>(entries: Entries<V>, key: string): (i: nat)
    ensures i <= |entries|
    ensures i < |entries| ==> entries[i].0 == key
    ensures forall j :: 0 <= j < i ==> entries[j].0 != key
  {
    if entries == [] || entries[0].0 == key then 0 else 1 + IndexOf(entries[1..], key)
  }

  function Lookup<V>(entries: Entries<V>, key: string): Option<V> {
    var i := IndexOf(entries, key);
    if i < |entries| then Some(entries[i].1) else None
  }

  /** `Map::insert`: a key already there keeps its place and gets the new value. */
  function Insert<V>(entries: Entries<V>, key: string, value: V): Entries<V> {
    var i := IndexOf(entries, key);
    if i < |entries| then entries[i := (key, value)] else entries + [(key, value)]
  }

  /** `Map::remove`: the last entry takes the removed one's place. */
  function Remove<V>(entries: Entries<V>, key: string): Entries<V> {
    var i, last := IndexOf(entries, key), |entries| - 1;
    if i > last then entries
    else if i == last then entries[..last]
    else entries[..last][i := entries[last]]
  }

  lemma RemoveTakesAway<V>(entries: Entries<V>, key: string)
    requires Distinct(entries)
    ensures Distinct(Remove(entries, key)) && IndexOf(Remove(entries, key), key) == |Remove(entries, key)|
  {
  }

  lemma InsertThenRemove<V>(entries: Entries<V>, key: string, value: V)
    requires IndexOf(entries, key) == |entries|
    ensures Remove(Insert(entries, key, value), key) == entries
  {
    hide IndexOf;
    var more := Insert(entries, key, value);
    assert more[|entries|].0 == key && forall j :: 0 <= j < |entries| ==> more[j].0 == entries[j].0 != key;
    assert IndexOf(more, key) == |entries|;
  }

  lemma InsertThenLookup<V>(entries: Entries<V>, key: string, value: V, other: string)
    ensures Lookup(Insert(entries, key, value), other) == if other == key then Some(value) else Lookup(entries, other)
  {
    hide IndexOf;
    var more := Insert(entries, key, value);
    var i, j, k := IndexOf(entries, key), IndexOf(entries, other), IndexOf(more, other);
    assert forall m :: 0 <= m < |entries| ==> more[m].0 == entries[m].0;
    assert more[i] == (key, value);
    if other == key {
      assert k == i;
    } else {
      assert j < |entries| ==> k == j;
    }
  }

  /** What stands where after a removal: every entry in its place, and the last in the removed one's. */
  lemma RemovedPlaces<V>(entries: Entries<V>, i: nat, j: nat)
    requires Distinct(entries) && i < |entries| && j + 1 < |entries|
    ensures |Remove(entries, entries[i].0)| == |entries| - 1
    ensures Remove(entries, entries[i].0)[j] == if j == i then entries[|entries| - 1] else entries[j]
  {
    hide IndexOf;
    assert IndexOf(entries, entries[i].0) == i;
  }
}
