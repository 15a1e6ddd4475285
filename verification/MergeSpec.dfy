// A step's spec merged onto its library's: objects key by key, lists of named entries by name,
// anything else replaced.
module MergeSpec {
  import opened Wrappers

  /** A JSON value. Two objects are equal when they have the same keys with equal values. */
  datatype Value =
    | Null
    | Bool(b: bool)
    | Number(n: real)
    | String(s: string)
    | Array(items: seq<Value>)
    | Object(fields: map<string, Value>)

  // ---------------------------------------------------------------- lists of named entries

  predicate HasName(item: Value) {
    item.Object? && "name" in item.fields && item.fields["name"].String?
  }

  predicate IsNamed(items: seq<Value>) {
    items != [] && forall i :: 0 <= i < |items| ==> HasName(items[i])
  }

  function NameOf(item: Value): string { if HasName(item) then item.fields["name"].s else "" }

  /** Where the first entry of that name is, or the length. */
  function IndexOf(items: seq<Value>, name: string): (i: nat)
    ensures i <= |items|
    ensures i < |items| ==> NameOf(items[i]) == name
    ensures forall j :: 0 <= j < i ==> NameOf(items[j]) != name
  {
    if items == [] || NameOf(items[0]) == name then 0 else 1 + IndexOf(items[1..], name)
  }

  function Upsert(items: seq<Value>, entry: Value): seq<Value> {
    var i := IndexOf(items, NameOf(entry));
    if i < |items| then items[i := entry] else items + [entry]
  }

  function MergeNamed(base: seq<Value>, own: seq<Value>): seq<Value> {
    if own == [] then base else Upsert(MergeNamed(base, own[..|own| - 1]), own[|own| - 1])
  }

  // ---------------------------------------------------------------- merging

  function Merge(base: Value, own: Value): Value
    decreases own, 1
  {
    match (base, own)
    case (_, Null) => base
    case (Object(b), Object(_)) => Object(MergeFields(b, own))
    case (Array(b), Array(o)) => if IsNamed(b) && IsNamed(o) then Array(MergeNamed(b, o)) else own
    case _ => own
  }

  function MergeFields(base: map<string, Value>, own: Value): map<string, Value>
    requires own.Object?
    decreases own, 0
  {
    map key | key in base.Keys + own.fields.Keys ::
      if key !in own.fields then base[key]
      else if key in base then Merge(base[key], own.fields[key]) else own.fields[key]
  }

  method MergeNamedLists(base: seq<Value>, own: seq<Value>) returns (merged: seq<Value>)
    ensures merged == MergeNamed(base, own)
  {
    merged := base;
    for k := 0 to |own|
      invariant merged == MergeNamed(base, own[..k])
    {
      assert own[..k + 1][..k] == own[..k];
      var i := 0;
      while i < |merged| && NameOf(merged[i]) != NameOf(own[k])
        invariant 0 <= i <= |merged|
        invariant forall j :: 0 <= j < i ==> NameOf(merged[j]) != NameOf(own[k])
      {
        i := i + 1;
      }
      if i < |merged| { merged := merged[i := own[k]]; } else { merged := merged + [own[k]]; }
    }
    assert own[..|own|] == own;
  }

  /** The keys of `own` may be visited in any order. */
  method MergeValues(base: Value, own: Value) returns (merged: Value)
    ensures merged == Merge(base, own)
    decreases own
  {
    if own.Null? { return base; }
    if base.Object? && own.Object? {
      var fields, left := base.fields, own.fields.Keys;
      while left != {}
        invariant left <= own.fields.Keys
        invariant fields.Keys == base.fields.Keys + (own.fields.Keys - left)
        invariant forall key :: key in fields ==>
                    fields[key] == if key in left then base.fields[key] else MergeFields(base.fields, own)[key]
      {
        var key :| key in left;
        var value := own.fields[key];
        if key in fields {
          var baseValue := fields[key];
          fields := fields - {key};
          value := MergeValues(baseValue, value);
        }
        fields := fields[key := value];
        left := left - {key};
      }
      assert fields == MergeFields(base.fields, own);
      return Object(fields);
    }
    if base.Array? && own.Array? && IsNamed(base.items) && IsNamed(own.items) {
      var items := MergeNamedLists(base.items, own.items);
      return Array(items);
    }
    return own;
  }

  // ---------------------------------------------------------------- named entries

  /** The last entry of that name. */
  function Last(items: seq<Value>, name: string): Option<Value> {
    if items == [] then None
    else if NameOf(items[|items| - 1]) == name then Some(items[|items| - 1])
    else Last(items[..|items| - 1], name)
  }

  function First(items: seq<Value>, name: string): Option<Value> {
    var i := IndexOf(items, name);
    if i < |items| then Some(items[i]) else None
  }

  function Names(items: seq<Value>): seq<string> { seq(|items|, i requires 0 <= i < |items| => NameOf(items[i])) }

  /** The names `own` adds to `seen`, each once, in the order it first uses them. */
  function NewNames(seen: seq<string>, own: seq<Value>): seq<string> {
    if own == [] then []
    else
      var before := NewNames(seen, own[..|own| - 1]);
      var name := NameOf(own[|own| - 1]);
      if name in seen + before then before else before + [name]
  }

  /** Base entries keep their names and places, and the step's new ones follow in its order. */
  lemma {:induction false} MergedNames(base: seq<Value>, own: seq<Value>)
    ensures Names(MergeNamed(base, own)) == Names(base) + NewNames(Names(base), own)
  {
    if own != [] {
      var entry := own[|own| - 1];
      MergedNames(base, own[..|own| - 1]);
      UpsertNames(MergeNamed(base, own[..|own| - 1]), entry);
    }
  }

  lemma UpsertNames(items: seq<Value>, entry: Value)
    ensures Names(Upsert(items, entry))
         == if NameOf(entry) in Names(items) then Names(items) else Names(items) + [NameOf(entry)]
  {
    var i := IndexOf(items, NameOf(entry));
    if i < |items| {
      assert Names(items)[i] == NameOf(entry);
      assert Names(items[i := entry]) == Names(items);
    } else {
      assert forall j :: 0 <= j < |items| ==> Names(items)[j] == NameOf(items[j]);
      assert Names(items + [entry]) == Names(items) + [NameOf(entry)];
    }
  }

  /**
    What stands at each place of the base: the step's last entry of that name if it has one and the
    place is the name's first, and otherwise what stood there.
   */
  function Kept(base: seq<Value>, own: seq<Value>, i: nat): Value
    requires i < |base|
  {
    var name := NameOf(base[i]);
    if i == IndexOf(base, name) && Last(own, name).Some? then Last(own, name).value else base[i]
  }

  lemma {:induction false} PlacesKept(base: seq<Value>, own: seq<Value>, i: nat)
    requires i < |base|
    ensures i < |MergeNamed(base, own)| && MergeNamed(base, own)[i] == Kept(base, own, i)
    decreases |own|
  {
    if own != [] {
      var before, entry := own[..|own| - 1], own[|own| - 1];
      var items := MergeNamed(base, before);
      PlacesKept(base, before, i);
      MergedNames(base, before);
      assert forall j :: 0 <= j < |base| ==> Names(items)[j] == NameOf(base[j]);
      PlaceAfterUpsert(base, items, entry, i);
    }
  }

  lemma PlaceAfterUpsert(base: seq<Value>, items: seq<Value>, entry: Value, i: nat)
    requires i < |base| <= |items| && forall j :: 0 <= j < |base| ==> NameOf(items[j]) == NameOf(base[j])
    ensures i < |Upsert(items, entry)|
    ensures Upsert(items, entry)[i]
         == if NameOf(entry) == NameOf(base[i]) && i == IndexOf(base, NameOf(base[i])) then entry else items[i]
  {
  }

  /** By name: the step's last entry if it has one, and otherwise the base's first. */
  lemma {:induction false} EntryByName(base: seq<Value>, own: seq<Value>, name: string)
    ensures First(MergeNamed(base, own), name)
         == if Last(own, name).Some? then Last(own, name) else First(base, name)
    decreases |own|
  {
    if own != [] {
      EntryByName(base, own[..|own| - 1], name);
      FirstAfterUpsert(MergeNamed(base, own[..|own| - 1]), own[|own| - 1], name);
    }
  }

  lemma FirstAfterUpsert(items: seq<Value>, entry: Value, name: string)
    ensures First(Upsert(items, entry), name) == if NameOf(entry) == name then Some(entry) else First(items, name)
  {
    var i, j, after := IndexOf(items, NameOf(entry)), IndexOf(items, name), Upsert(items, entry);
    var k := IndexOf(after, name);
    if NameOf(entry) == name {
      assert after[i] == entry;
      assert k == i;
    } else {
      assert j < |items| ==> after[j] == items[j];
      assert forall m :: 0 <= m < j ==> NameOf(after[m]) != name;
    }
  }

  lemma {:induction false} MergeKeepsNamed(base: seq<Value>, own: seq<Value>)
    requires IsNamed(base) && forall i :: 0 <= i < |own| ==> HasName(own[i])
    ensures IsNamed(MergeNamed(base, own))
    decreases |own|
  {
    if own != [] { MergeKeepsNamed(base, own[..|own| - 1]); }
  }

  // ---------------------------------------------------------------- merging twice

  /** No name stands for two different entries at the ends of its uses. */
  predicate FirstIsLast(items: seq<Value>) {
    forall i :: 0 <= i < |items| ==> First(items, NameOf(items[i])) == Last(items, NameOf(items[i]))
  }

  predicate HasLast(items: seq<Value>, own: seq<Value>, name: string) {
    Last(own, name).Some? ==> First(items, name) == Last(own, name)
  }

  lemma {:induction false} NoNewNames(seen: seq<string>, own: seq<Value>)
    requires forall i :: 0 <= i < |own| ==> NameOf(own[i]) in seen
    ensures NewNames(seen, own) == []
    decreases |own|
  {
    if own != [] { NoNewNames(seen, own[..|own| - 1]); }
  }

  lemma {:induction false} LastOf(own: seq<Value>, i: nat)
    requires i < |own|
    ensures Last(own, NameOf(own[i])).Some?
    decreases |own|
  {
    if i < |own| - 1 { LastOf(own[..|own| - 1], i); }
  }

  lemma {:induction false} LastIsThere(own: seq<Value>, name: string)
    requires Last(own, name).Some?
    ensures exists i :: 0 <= i < |own| && own[i] == Last(own, name).value && NameOf(own[i]) == name
    decreases |own|
  {
    if NameOf(own[|own| - 1]) != name {
      LastIsThere(own[..|own| - 1], name);
      var i :| 0 <= i < |own| - 1 && own[i] == Last(own, name).value && NameOf(own[i]) == name;
    }
  }

  /** A list that already answers every name the step uses as the step does is left as it is, and only such a list. */
  lemma ListSettles(items: seq<Value>, own: seq<Value>)
    ensures MergeNamed(items, own) == items <==> forall i :: 0 <= i < |own| ==> HasLast(items, own, NameOf(own[i]))
  {
    if MergeNamed(items, own) == items {
      forall i | 0 <= i < |own| ensures HasLast(items, own, NameOf(own[i])) {
        EntryByName(items, own, NameOf(own[i]));
      }
    }
    if forall i :: 0 <= i < |own| ==> HasLast(items, own, NameOf(own[i])) {
      SettledListStays(items, own);
    }
  }

  lemma SettledListStays(items: seq<Value>, own: seq<Value>)
    requires forall i :: 0 <= i < |own| ==> HasLast(items, own, NameOf(own[i]))
    ensures MergeNamed(items, own) == items
  {
    forall i | 0 <= i < |own| ensures NameOf(own[i]) in Names(items) {
      LastOf(own, i);
      var j := IndexOf(items, NameOf(own[i]));
      assert HasLast(items, own, NameOf(own[i]));
      assert Names(items)[j] == NameOf(own[i]);
    }
    NoNewNames(Names(items), own);
    MergedNames(items, own);
    var merged := MergeNamed(items, own);
    assert |Names(merged)| == |merged| == |items|;
    forall i | 0 <= i < |items| ensures merged[i] == items[i] {
      PlacesKept(items, own, i);
      var name := NameOf(items[i]);
      if Last(own, name).Some? { LastIsThere(own, name); assert HasLast(items, own, name); }
    }
  }

  lemma MergedListSettles(base: seq<Value>, own: seq<Value>)
    ensures MergeNamed(MergeNamed(base, own), own) == MergeNamed(base, own)
  {
    forall i | 0 <= i < |own| ensures HasLast(MergeNamed(base, own), own, NameOf(own[i])) {
      EntryByName(base, own, NameOf(own[i]));
    }
    ListSettles(MergeNamed(base, own), own);
  }

  lemma OwnListSettles(own: seq<Value>)
    ensures MergeNamed(own, own) == own <==> FirstIsLast(own)
  {
    ListSettles(own, own);
    forall i | 0 <= i < |own| ensures Last(own, NameOf(own[i])).Some? {
      LastOf(own, i);
    }
    assert FirstIsLast(own) <==> forall i :: 0 <= i < |own| ==> HasLast(own, own, NameOf(own[i]));
  }

  /** In every named list reached through objects, first and last entries of a name agree. */
  predicate Stable(own: Value) {
    match own
    case Array(items) => IsNamed(items) ==> FirstIsLast(items)
    case Object(fields) => forall key :: key in fields ==> Stable(fields[key])
    case _ => true
  }

  lemma {:induction false} MergeWithItself(own: Value)
    ensures Merge(own, own) == own <==> Stable(own)
  {
    match own
    case Array(items) => OwnListSettles(items);
    case Object(fields) =>
      forall key | key in fields ensures Merge(fields[key], fields[key]) == fields[key] <==> Stable(fields[key]) {
        MergeWithItself(fields[key]);
      }
      var merged := MergeFields(fields, own);
      assert merged.Keys == fields.Keys;
      assert merged == fields <==> forall key :: key in fields ==> merged[key] == fields[key];
    case _ =>
  }

  /**
    The step's unstable lists are only ever merged with named lists of the base's. What takes the
    place of anything else must be stable.
   */
  predicate Settles(base: Value, own: Value)
    decreases own
  {
    match (base, own)
    case (Object(b), Object(o)) =>
      forall key :: key in o ==> if key in b then Settles(b[key], o[key]) else Stable(o[key])
    case (Array(b), Array(o)) => IsNamed(b) || Stable(own)
    case _ => Stable(own)
  }

  /** Merging a second time changes nothing, exactly where the step's own lists settle. */
  lemma {:induction false} MergeIsIdempotent(base: Value, own: Value)
    ensures Merge(Merge(base, own), own) == Merge(base, own) <==> Settles(base, own)
    decreases own
  {
    if base.Object? && own.Object? {
      FieldsAreIdempotent(base, own);
    } else if base.Array? && own.Array? && IsNamed(base.items) && IsNamed(own.items) {
      MergeKeepsNamed(base.items, own.items);
      MergedListSettles(base.items, own.items);
    } else {
      MergeWithItself(own);
    }
  }

  lemma {:induction false} FieldsAreIdempotent(base: Value, own: Value)
    requires base.Object? && own.Object?
    ensures Merge(Merge(base, own), own) == Merge(base, own) <==> Settles(base, own)
    decreases own, 0
  {
    hide IsNamed, Stable, MergeNamed;
    var b, o := base.fields, own.fields;
    var once := MergeFields(b, own);
    var twice := MergeFields(once, own);
    assert twice.Keys == once.Keys;
    forall key | key in once
      ensures twice[key] == once[key] <==> (key in o ==> if key in b then Settles(b[key], o[key]) else Stable(o[key]))
    {
      if key in o {
        if key in b { MergeIsIdempotent(b[key], o[key]); } else { MergeWithItself(o[key]); }
      }
    }
    assert twice == once <==> forall key :: key in once ==> twice[key] == once[key];
  }

  /** A step's spec may be merged any number of times onto any library's, exactly if it is stable. */
  lemma IdempotentForEveryBase(own: Value)
    ensures (forall base :: Merge(Merge(base, own), own) == Merge(base, own)) <==> Stable(own)
  {
    MergeIsIdempotent(Null, own);
    if Stable(own) {
      forall base ensures Merge(Merge(base, own), own) == Merge(base, own) {
        StableSettles(base, own);
        MergeIsIdempotent(base, own);
      }
    }
  }

  lemma {:induction false} StableSettles(base: Value, own: Value)
    requires Stable(own)
    ensures Settles(base, own)
    decreases own
  {
    if base.Object? && own.Object? {
      forall key | key in own.fields && key in base.fields ensures Settles(base.fields[key], own.fields[key]) {
        StableSettles(base.fields[key], own.fields[key]);
      }
    }
  }

  predicate DistinctNames(own: Value) {
    match own
    case Array(items) =>
      IsNamed(items) ==> forall i, j :: 0 <= i < j < |items| ==> NameOf(items[i]) != NameOf(items[j])
    case Object(fields) => forall key :: key in fields ==> DistinctNames(fields[key])
    case _ => true
  }

  lemma {:induction false} DistinctNamesAreStable(own: Value)
    requires DistinctNames(own)
    ensures Stable(own)
  {
    match own
    case Array(items) =>
      if IsNamed(items) {
        forall i | 0 <= i < |items| ensures First(items, NameOf(items[i])) == Last(items, NameOf(items[i])) {
          LastOf(items, i);
          LastIsThere(items, NameOf(items[i]));
        }
      }
    case Object(fields) =>
      forall key | key in fields ensures Stable(fields[key]) {
        DistinctNamesAreStable(fields[key]);
      }
    case _ =>
  }

  /** Two entries of one name, where the library sets nothing: the second merge drops the first entry. */
  lemma RepeatedNameIsNotIdempotent()
    ensures var a := Object(map["name" := String("A"), "value" := Number(1.0)]);
            var b := Object(map["name" := String("A"), "value" := Number(2.0)]);
            var own := Array([a, b]);
            Merge(Null, own) == own && Merge(own, own) != own
  {
    var a := Object(map["name" := String("A"), "value" := Number(1.0)]);
    var b := Object(map["name" := String("A"), "value" := Number(2.0)]);
    var items := [a, b];
    assert a.fields["value"] != b.fields["value"];
    assert Last(items, "A") == Some(b);
    MergeWithItself(Array(items));
    assert First(items, NameOf(items[0])) == Some(a);
  }

  // ---------------------------------------------------------------- by path

  /** What stands at the end of a path of object keys. */
  function At(value: Value, path: seq<string>): Option<Value>
    decreases |path|
  {
    if path == [] then Some(value)
    else if value.Object? && path[0] in value.fields then At(value.fields[path[0]], path[1..])
    else None
  }

  /** The step sets something that is neither null nor an object on the way, which hides the path. */
  predicate Hidden(own: Value, path: seq<string>)
    decreases |path|
  {
    path != [] && !own.Null?
    && (own.Object? ==> path[0] in own.fields && Hidden(own.fields[path[0]], path[1..]))
  }

  /**
    What a merge has at any path. Where both have a value, the two merged; where only the step has
    one, the step's; where only the library has one, the library's, unless the step hides it.
   */
  lemma {:induction false} MergedAt(base: Value, own: Value, path: seq<string>)
    ensures At(Merge(base, own), path)
         == (if At(own, path).Some? then
               (if At(base, path).Some? then Some(Merge(At(base, path).value, At(own, path).value)) else At(own, path))
             else if Hidden(own, path) then None else At(base, path))
    decreases |path|
  {
    if path != [] && base.Object? && own.Object? {
      var key := path[0];
      if key in base.fields && key in own.fields { MergedAt(base.fields[key], own.fields[key], path[1..]); }
    }
  }

  predicate BothNamed(base: Option<Value>, own: Value) {
    base.Some? && base.value.Array? && own.Array? && IsNamed(base.value.items) && IsNamed(own.items)
  }

  /** What the step sets at any path shows there: null as nothing set, a leaf as it is, named entries by name. */
  lemma StepValueWins(base: Value, own: Value, path: seq<string>, name: string)
    requires At(own, path).Some? && !At(own, path).value.Object?
    ensures var value, before, after := At(own, path).value, At(base, path), At(Merge(base, own), path);
            if value.Null? then after == if before.Some? then before else Some(Null)
            else if !BothNamed(before, value) then after == Some(value)
            else after.Some? && after.value.Array?
                 && First(after.value.items, name)
                    == if Last(value.items, name).Some? then Last(value.items, name)
                       else First(before.value.items, name)
  {
    hide First, Last, MergeNamed, MergeFields;
    MergedAt(base, own, path);
    var value, before := At(own, path).value, At(base, path);
    if BothNamed(before, value) { EntryByName(before.value.items, value.items, name); }
  }

  /** What the step says nothing about stays, at any path. */
  lemma UnmentionedStays(base: Value, own: Value, path: seq<string>)
    requires At(own, path).None? && !Hidden(own, path)
    ensures At(Merge(base, own), path) == At(base, path)
  {
    MergedAt(base, own, path);
  }

  // ---------------------------------------------------------------- which lists merge by name

  lemma NamesAre(items: seq<Value>)
    requires forall i :: 0 <= i < |items| ==>
               items[i].Object? && "name" in items[i].fields && items[i].fields["name"].String?
    ensures |Names(items)| == |items|
    ensures forall i :: 0 <= i < |items| ==> Names(items)[i] == items[i].fields["name"].s
    ensures items != [] ==> IsNamed(items)
  {
  }

  /**
    Two lists that are not empty, with objects only that have a string for their name, merge by
    name: the library's names in place, then the step's new ones, each answered by the step's last
    entry of that name or else the library's first.
   */
  lemma NamedListsMerge(base: seq<Value>, own: seq<Value>, name: string)
    requires base != [] && own != []
    requires forall i :: 0 <= i < |base| ==>
               base[i].Object? && "name" in base[i].fields && base[i].fields["name"].String?
    requires forall i :: 0 <= i < |own| ==>
               own[i].Object? && "name" in own[i].fields && own[i].fields["name"].String?
    ensures var merged := Merge(Array(base), Array(own));
            merged.Array? && IsNamed(merged.items)
            && Names(merged.items) == Names(base) + NewNames(Names(base), own)
            && First(merged.items, name) == if Last(own, name).Some? then Last(own, name) else First(base, name)
  {
    hide MergeNamed, First, Last, NewNames, Names, IsNamed;
    NamesAre(base);
    NamesAre(own);
    MergedNames(base, own);
    EntryByName(base, own, name);
    assert IsNamed(MergeNamed(base, own)) by { NamedStays(base, own); }
  }

  lemma NamedStays(base: seq<Value>, own: seq<Value>)
    requires IsNamed(base) && IsNamed(own)
    ensures IsNamed(MergeNamed(base, own))
  {
    MergeKeepsNamed(base, own);
  }

  /** In all other cases the step's list is the one that stands. */
  lemma OtherListsReplace(base: seq<Value>, own: seq<Value>)
    requires base == [] || own == []
             || (exists i :: 0 <= i < |base|
                   && !(base[i].Object? && "name" in base[i].fields && base[i].fields["name"].String?))
             || (exists i :: 0 <= i < |own|
                   && !(own[i].Object? && "name" in own[i].fields && own[i].fields["name"].String?))
    ensures Merge(Array(base), Array(own)) == Array(own)
  {
  }

  /** One entry of the library's and one of the step's, of different names: both are there. */
  lemma SingleEntriesMerge(a: Value, b: Value)
    requires a.Object? && "name" in a.fields && a.fields["name"].String?
    requires b.Object? && "name" in b.fields && b.fields["name"].String?
    ensures Merge(Array([a]), Array([b])) == Array(if a.fields["name"] == b.fields["name"] then [b] else [a, b])
  {
    assert [b][..0] == [];
    assert MergeNamed([a], [b]) == Upsert([a], b);
  }
}
