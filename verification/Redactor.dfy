// `RunRedactor`: the needles a run's stored context gives, and their replacement in text
// and in JSON.
module Redactor {
  import opened ByteStrings
  import opened Base64
  import opened EncodedForms
  import opened J = JsonValues
  import opened Wrappers

  const MIN_SECRET_LEN := 4
  const MASK: Bytes := [STAR, STAR, STAR, STAR, STAR, STAR, STAR, STAR]

  /** A number is known by its text. */
  type Json = J.Json<Bytes, Bytes, Bytes>
  type Fields = J.Fields<Bytes, Bytes, Bytes>

  // ---------------------------------------------------------------- collecting needles

  /** `collect_leaves`: every string and number, as text. */
  function Leaves(value: Json): seq<Bytes>
    decreases value
  {
    match value
    case String(s) => [s]
    case Number(n) => [n]
    case Array(items) => LeavesOfItems(items)
    case Object(fields) => LeavesOfFields(fields)
    case _ => []
  }

  function LeavesOfItems(items: seq<Json>): seq<Bytes>
    decreases items
  {
    if items == [] then [] else Leaves(items[0]) + LeavesOfItems(items[1..])
  }

  function LeavesOfFields(fields: Fields): seq<Bytes>
    decreases fields
  {
    match fields
    case End => []
    case More(_, value, rest) => Leaves(value) + LeavesOfFields(rest)
  }

  // "secret" and "properties"
  const SECRET_KEY: Bytes := [115, 101, 99, 114, 101, 116]
  const PROPERTIES_KEY: Bytes := [112, 114, 111, 112, 101, 114, 116, 105, 101, 115]

  /** The leaves of the inputs whose schema property says `secret = true`. */
  function SecretInputs(props: Fields, inputs: Json): seq<Bytes> {
    match props
    case End => []
    case More(name, prop, rest) =>
      var value := Get(inputs, name);
      (if Get(prop, SECRET_KEY) == Some(Bool(true)) && value.Some? then Leaves(value.value) else [])
      + SecretInputs(rest, inputs)
  }

  function Collected(sensitive: seq<Bytes>, secrets: Json, inputs: Json, schema: Option<Json>): seq<Bytes> {
    var props := if schema.Some? then Get(schema.value, PROPERTIES_KEY) else None;
    sensitive + Leaves(secrets)
    + (if inputs.Object? && props.Some? && props.value.Object?
       then SecretInputs(props.value.fields, inputs) else [])
  }

  // ---------------------------------------------------------------- where a secret can stand

  type Path = seq<J.Into<Bytes>>

  /** The string or number at the end of a path, as text. */
  function LeafAt(value: Json, path: Path): Option<Bytes>
    decreases |path|
  {
    if path == [] then
      if value.String? then Some(value.s) else if value.Number? then Some(value.n) else None
    else
      match path[0]
      case Key(key) =>
        var inner := Get(value, key);
        if inner.Some? then LeafAt(inner.value, path[1..]) else None
      case Index(i) => if value.Array? && i < |value.items| then LeafAt(value.items[i], path[1..]) else None
  }

  ghost predicate IsLeafOf(leaf: Bytes, value: Json) { exists path :: LeafAt(value, path) == Some(leaf) }

  lemma LeafFurtherDown(leaf: Bytes, inner: Json, step: J.Into<Bytes>, value: Json)
    requires IsLeafOf(leaf, inner)
    requires match step case Key(key) => Get(value, key) == Some(inner)
                        case Index(i) => value.Array? && i < |value.items| && value.items[i] == inner
    ensures IsLeafOf(leaf, value)
  {
    var path :| LeafAt(inner, path) == Some(leaf);
    assert ([step] + path)[1..] == path;
    assert LeafAt(value, [step] + path) == Some(leaf);
  }

  /** The leaves are what stands at the end of some path, at any depth. */
  lemma {:induction false} LeavesAreAtPaths(value: Json, leaf: Bytes)
    requires WellFormed(value)
    ensures leaf in Leaves(value) <==> IsLeafOf(leaf, value)
    decreases value
  {
    if leaf in Leaves(value) { LeafHasPath(value, leaf); }
    if IsLeafOf(leaf, value) {
      var path :| LeafAt(value, path) == Some(leaf);
      PathLeadsToLeaf(value, path);
    }
  }

  lemma {:induction false} PathLeadsToLeaf(value: Json, path: Path)
    requires LeafAt(value, path).Some?
    ensures LeafAt(value, path).value in Leaves(value)
    decreases |path|
  {
    if path != [] {
      match path[0]
      case Key(key) =>
        PathLeadsToLeaf(Get(value, key).value, path[1..]);
        FieldLeaves(value.fields, key, LeafAt(value, path).value);
      case Index(i) =>
        PathLeadsToLeaf(value.items[i], path[1..]);
        ItemLeaves(value.items, i, LeafAt(value, path).value);
    }
  }

  lemma {:induction false} FieldLeaves(fields: Fields, key: Bytes, leaf: Bytes)
    requires HasKey(fields, key) && leaf in Leaves(GetField(fields, key).value)
    ensures leaf in LeavesOfFields(fields)
  {
    if fields.key != key { FieldLeaves(fields.rest, key, leaf); }
  }

  lemma {:induction false} ItemLeaves(items: seq<Json>, i: nat, leaf: Bytes)
    requires i < |items| && leaf in Leaves(items[i])
    ensures leaf in LeavesOfItems(items)
  {
    if i > 0 { ItemLeaves(items[1..], i - 1, leaf); }
  }

  lemma {:induction false} LeafHasPath(value: Json, leaf: Bytes)
    requires WellFormed(value) && leaf in Leaves(value)
    ensures IsLeafOf(leaf, value)
    decreases value, 1
  {
    match value
    case Array(items) =>
      var i := ItemOfLeaf(items, leaf);
      LeafHasPath(items[i], leaf);
      LeafFurtherDown(leaf, items[i], Index(i), value);
    case Object(fields) =>
      var key := FieldOfLeaf(fields, leaf);
      LeafFurtherDown(leaf, GetField(fields, key).value, Key(key), value);
    case String(s) => assert LeafAt(value, []) == Some(s);
    case Number(n) => assert LeafAt(value, []) == Some(n);
    case _ =>
  }

  lemma {:induction false} ItemOfLeaf(items: seq<Json>, leaf: Bytes) returns (i: nat)
    requires leaf in LeavesOfItems(items)
    ensures i < |items| && leaf in Leaves(items[i])
  {
    if leaf in Leaves(items[0]) {
      i := 0;
    } else {
      i := ItemOfLeaf(items[1..], leaf);
      i := i + 1;
    }
  }

  lemma {:induction false} FieldOfLeaf(fields: Fields, leaf: Bytes) returns (key: Bytes)
    requires WellFormedFields(fields) && leaf in LeavesOfFields(fields)
    ensures HasKey(fields, key) && IsLeafOf(leaf, GetField(fields, key).value)
    decreases fields, 0
  {
    if leaf in Leaves(fields.value) {
      key := fields.key;
      LeafHasPath(fields.value, leaf);
    } else {
      key := FieldOfLeaf(fields.rest, leaf);
    }
  }

  /** The schema marks the input of that name as a secret. */
  predicate IsSecretInput(props: Fields, name: Bytes) {
    var prop := GetField(props, name);
    prop.Some? && Get(prop.value, SECRET_KEY) == Some(Bool(true))
  }

  ghost predicate IsLeafOfSecretInput(leaf: Bytes, props: Fields, inputs: Json) {
    exists name :: IsSecretInput(props, name) && Get(inputs, name).Some? && IsLeafOf(leaf, Get(inputs, name).value)
  }

  lemma {:induction false} SecretInputsAre(props: Fields, inputs: Json, leaf: Bytes)
    requires WellFormedFields(props) && inputs.Object? && WellFormed(inputs)
    ensures leaf in SecretInputs(props, inputs) <==> IsLeafOfSecretInput(leaf, props, inputs)
  {
    hide Leaves, IsLeafOf;
    match props
    case End =>
    case More(name, prop, rest) =>
      SecretInputsAre(rest, inputs, leaf);
      if HasKey(inputs.fields, name) {
        FieldIsWellFormed(inputs.fields, name);
        LeavesAreAtPaths(Get(inputs, name).value, leaf);
      }
      assert IsSecretInput(props, name) <==> Get(prop, SECRET_KEY) == Some(Bool(true));
      assert forall other :: other != name ==> IsSecretInput(props, other) == IsSecretInput(rest, other);
      assert !IsSecretInput(rest, name);
  }

  lemma {:induction false} FieldIsWellFormed(fields: Fields, key: Bytes)
    requires WellFormedFields(fields) && HasKey(fields, key)
    ensures WellFormed(GetField(fields, key).value)
  {
    if fields.key != key { FieldIsWellFormed(fields.rest, key); }
  }

  /**
    What a run must keep to itself: the values marked sensitive, every string and number in its
    secrets, and every one in an input its schema marks as secret.
   */
  ghost predicate IsSecretOf(v: Bytes, sensitive: seq<Bytes>, secrets: Json, inputs: Json, schema: Option<Json>) {
    v in sensitive || IsLeafOf(v, secrets)
    || (schema.Some? && Get(schema.value, PROPERTIES_KEY).Some? && Get(schema.value, PROPERTIES_KEY).value.Object?
        && inputs.Object? && IsLeafOfSecretInput(v, Get(schema.value, PROPERTIES_KEY).value.fields, inputs))
  }

  /** The redactor collects exactly these. */
  lemma CollectedAre(v: Bytes, sensitive: seq<Bytes>, secrets: Json, inputs: Json, schema: Option<Json>)
    requires WellFormed(secrets) && WellFormed(inputs) && (schema.Some? ==> WellFormed(schema.value))
    ensures v in Collected(sensitive, secrets, inputs, schema) <==> IsSecretOf(v, sensitive, secrets, inputs, schema)
  {
    hide Leaves, SecretInputs, IsLeafOf, IsLeafOfSecretInput;
    LeavesAreAtPaths(secrets, v);
    var props := if schema.Some? then Get(schema.value, PROPERTIES_KEY) else None;
    if props.Some? && props.value.Object? && inputs.Object? {
      FieldIsWellFormed(schema.value.fields, PROPERTIES_KEY);
      SecretInputsAre(props.value.fields, inputs, v);
    }
  }

  // ---------------------------------------------------------------- needles

  predicate IsScrubbed(secret: Bytes) {
    |secret| >= MIN_SECRET_LEN && secret != MASK
  }

  function Scrubbed(values: seq<Bytes>): (r: seq<Bytes>)
    ensures forall v :: v in r <==> v in values && IsScrubbed(v)
  {
    if values == [] then []
    else (if IsScrubbed(values[0]) then [values[0]] else []) + Scrubbed(values[1..])
  }

  function AllEncoded(values: seq<Bytes>): (r: seq<Bytes>)
    ensures forall f :: f in r <==> exists v :: v in values && f in FormsOf(v)
  {
    if values == [] then []
    else
      var rest := AllEncoded(values[1..]);
      assert forall v :: v in values <==> v == values[0] || v in values[1..];
      FormsOf(values[0]) + rest
  }

  // ---------------------------------------------------------------- longest first

  predicate LexLeq(a: Bytes, b: Bytes) {
    a == [] || (b != [] && (a[0] < b[0] || (a[0] == b[0] && LexLeq(a[1..], b[1..]))))
  }

  /** The order of the needles: longer first, then by bytes. */
  predicate Before(a: Bytes, b: Bytes) {
    |a| > |b| || (|a| == |b| && LexLeq(a, b))
  }

  ghost predicate LongestFirst(needles: seq<Bytes>) {
    forall i, j :: 0 <= i < j < |needles| ==> |needles[i]| >= |needles[j]|
  }

  function Insert(needle: Bytes, sorted: seq<Bytes>): seq<Bytes> {
    if sorted == [] || Before(needle, sorted[0]) then [needle] + sorted
    else [sorted[0]] + Insert(needle, sorted[1..])
  }

  function Sort(needles: seq<Bytes>): seq<Bytes> {
    if needles == [] then [] else Insert(needles[0], Sort(needles[1..]))
  }

  /** `Vec::dedup`: drops an element equal to the one before it. */
  function Dedup(needles: seq<Bytes>): seq<Bytes> {
    if |needles| < 2 then needles
    else if needles[0] == needles[1] then Dedup(needles[1..])
    else [needles[0]] + Dedup(needles[1..])
  }

  lemma {:induction false} LexTotal(a: Bytes, b: Bytes)
    ensures LexLeq(a, b) || LexLeq(b, a)
  {
    if a != [] && b != [] { LexTotal(a[1..], b[1..]); }
  }

  lemma {:induction false} LexTransitive(a: Bytes, b: Bytes, c: Bytes)
    requires LexLeq(a, b) && LexLeq(b, c)
    ensures LexLeq(a, c)
  {
    if a != [] && a[0] == b[0] == c[0] { LexTransitive(a[1..], b[1..], c[1..]); }
  }

  /** `a` has the smaller byte where the two first differ. */
  ghost predicate LexLess(a: Bytes, b: Bytes) {
    exists k :: 0 <= k < |a| && k < |b| && a[..k] == b[..k] && a[k] < b[k]
  }

  lemma {:induction false} LexDiffers(a: Bytes, b: Bytes)
    requires |a| == |b| && a != b && LexLeq(a, b)
    ensures LexLess(a, b) && !LexLeq(b, a)
  {
    if a[0] != b[0] {
      assert a[..0] == b[..0];
    } else {
      assert a == [a[0]] + a[1..] && b == [b[0]] + b[1..];
      LexDiffers(a[1..], b[1..]);
      var k :| 0 <= k < |a| - 1 && a[1..][..k] == b[1..][..k] && a[1..][k] < b[1..][k];
      assert a[..k + 1] == [a[0]] + a[1..][..k] && b[..k + 1] == [b[0]] + b[1..][..k];
    }
  }

  lemma BeforeIsAnOrder(a: Bytes, b: Bytes, c: Bytes)
    ensures Before(a, b) || Before(b, a)
    ensures Before(a, b) && Before(b, c) ==> Before(a, c)
    ensures Before(a, b) && Before(b, a) ==> a == b
  {
    LexTotal(a, b);
    if LexLeq(a, b) && LexLeq(b, c) { LexTransitive(a, b, c); }
    if |a| == |b| && a != b {
      if LexLeq(a, b) { LexDiffers(a, b); } else { LexDiffers(b, a); }
    }
  }

  predicate InOrder(needles: seq<Bytes>) {
    forall i, j :: 0 <= i < j < |needles| ==> Before(needles[i], needles[j])
  }

  predicate NoneTwice(needles: seq<Bytes>) {
    forall i, j :: 0 <= i < j < |needles| ==> needles[i] != needles[j]
  }

  lemma {:induction false} InsertKeeps(needle: Bytes, sorted: seq<Bytes>)
    requires InOrder(sorted)
    ensures InOrder(Insert(needle, sorted))
    ensures forall x :: x in Insert(needle, sorted) <==> x == needle || x in sorted
  {
    hide Before;
    if sorted == [] {
    } else if Before(needle, sorted[0]) {
      forall j | 0 <= j < |sorted| ensures Before(needle, sorted[j]) {
        if j > 0 { BeforeIsAnOrder(needle, sorted[0], sorted[j]); }
      }
    } else {
      BeforeIsAnOrder(needle, sorted[0], needle);
      InsertKeeps(needle, sorted[1..]);
      var rest := Insert(needle, sorted[1..]);
      forall j | 0 <= j < |rest| ensures Before(sorted[0], rest[j]) {
        assert rest[j] in rest;
        assert rest[j] == needle || rest[j] in sorted[1..];
      }
      assert sorted == [sorted[0]] + sorted[1..];
    }
  }

  lemma {:induction false} SortKeeps(needles: seq<Bytes>)
    ensures InOrder(Sort(needles))
    ensures forall x :: x in Sort(needles) <==> x in needles
  {
    if needles != [] {
      SortKeeps(needles[1..]);
      InsertKeeps(needles[0], Sort(needles[1..]));
      assert needles == [needles[0]] + needles[1..];
    }
  }

  lemma {:induction false} DedupKeeps(needles: seq<Bytes>)
    requires InOrder(needles)
    ensures InOrder(Dedup(needles)) && NoneTwice(Dedup(needles))
    ensures forall x :: x in Dedup(needles) <==> x in needles
  {
    hide Before;
    if |needles| >= 2 {
      DedupKeeps(needles[1..]);
      assert needles == [needles[0]] + needles[1..];
      var rest := Dedup(needles[1..]);
      forall j | 0 <= j < |rest|
        ensures Before(needles[0], rest[j]) && (needles[0] != needles[1] ==> rest[j] != needles[0])
      {
        assert rest[j] in rest && rest[j] in needles[1..];
        var m :| 0 <= m < |needles| - 1 && needles[1..][m] == rest[j];
        assert needles[m + 1] == rest[j];
        BeforeIsAnOrder(needles[0], needles[1], needles[0]);
      }
    }
  }

  /** The longer comes first, and of two as long the one with the smaller byte where they differ. */
  ghost predicate Precedes(a: Bytes, b: Bytes) { |a| > |b| || (|a| == |b| && LexLess(a, b)) }

  /** `RunRedactor::new`, given what it collected. */
  function Needles(values: seq<Bytes>): seq<Bytes> {
    var kept := Scrubbed(values);
    Dedup(Sort(kept + AllEncoded(kept)))
  }

  /** The needles are the scrubbed secrets and their encoded forms, no more, the longest first. */
  lemma NeedlesAre(values: seq<Bytes>)
    ensures LongestFirst(Needles(values))
    ensures forall n :: n in Needles(values) <==>
              exists v :: v in values && IsScrubbed(v) && (n == v || n in FormsOf(v))
  {
    hide FormsOf, IsScrubbed, LexLeq;
    var kept := Scrubbed(values);
    SortKeeps(kept + AllEncoded(kept));
    DedupKeeps(Sort(kept + AllEncoded(kept)));
  }

  /** They come in one order only, none of them twice. */
  lemma NeedlesAreOrdered(values: seq<Bytes>, i: nat, j: nat)
    requires i < j < |Needles(values)|
    ensures Precedes(Needles(values)[i], Needles(values)[j])
  {
    hide FormsOf, IsScrubbed, LexLeq;
    var kept := Scrubbed(values);
    SortKeeps(kept + AllEncoded(kept));
    DedupKeeps(Sort(kept + AllEncoded(kept)));
    var a, b := Needles(values)[i], Needles(values)[j];
    assert Before(a, b) && a != b;
    if |a| == |b| { LexDiffers(a, b); }
  }

  ghost predicate IsSealed(needle: Bytes) { Sealed(needle, MASK) }

  ghost predicate AllSealed(needles: seq<Bytes>) { forall n :: n in needles ==> IsSealed(n) }

  /** If no scrubbed secret holds a star, no needle does, plain or encoded. */
  lemma NeedlesAreStarFree(values: seq<Bytes>)
    requires forall v :: v in values && IsScrubbed(v) ==> StarFree(v)
    ensures forall n :: n in Needles(values) ==> StarFree(n)
  {
    hide FormsOf, Needles;
    NeedlesAre(values);
    forall n | n in Needles(values) ensures StarFree(n) {
      var v :| v in values && IsScrubbed(v) && (n == v || n in FormsOf(v));
      EncodedFormsStarFree(v);
    }
  }

  /** The needles are all sealed exactly if the scrubbed secrets are. */
  lemma NeedlesAreSealed(values: seq<Bytes>)
    ensures AllSealed(Needles(values)) <==> forall v :: v in values && IsScrubbed(v) ==> IsSealed(v)
  {
    hide FormsOf, Needles;
    NeedlesAre(values);
    if forall v :: v in values && IsScrubbed(v) ==> IsSealed(v) {
      forall n | n in Needles(values) ensures IsSealed(n) {
        var v :| v in values && IsScrubbed(v) && (n == v || n in FormsOf(v));
        EncodedFormsAreSealed(v, MASK);
      }
    }
  }

  // ---------------------------------------------------------------- replacing them

  function Text(needles: seq<Bytes>, text: Bytes): Bytes {
    if needles == [] then text
    else if needles[0] == [] then Text(needles[1..], text)
    else Text(needles[1..], Replace(text, needles[0], MASK))
  }

  /** `RunRedactor::text`: one needle after another, over what the last one left. */
  method ScrubText(needles: seq<Bytes>, text: Bytes) returns (out: Bytes)
    requires forall n :: n in needles ==> n != []
    ensures out == Text(needles, text)
  {
    out := text;
    for k := 0 to |needles|
      invariant Text(needles[k..], out) == Text(needles, text)
    {
      var needle := needles[k];
      assert needles[k..][0] == needle && needles[k..][1..] == needles[k + 1..];
      var found := Search(out, needle);
      assert needle in needles;
      if found {
        out := Replace(out, needle, MASK);
      } else {
        ReplaceAbsent(out, needle, MASK);
      }
    }
  }

  /** The whole sequence of replacements makes no sealed text either, whatever the needles are. */
  lemma {:induction false} TextMakesNothing(needles: seq<Bytes>, text: Bytes, other: Bytes)
    requires IsSealed(other) && Contains(Text(needles, text), other)
    ensures Contains(text, other) && other !in needles
  {
    if needles != [] {
      hide Replace;
      assert needles == [needles[0]] + needles[1..];
      if needles[0] == [] {
        TextMakesNothing(needles[1..], text, other);
      } else {
        TextMakesNothing(needles[1..], Replace(text, needles[0], MASK), other);
        ReplaceMakesNothing(text, needles[0], MASK, other);
      }
    }
  }

  /** A sealed needle is left nowhere in the output, whatever the other needles are. */
  lemma TextHidesNeedles(needles: seq<Bytes>, text: Bytes, n: Bytes)
    requires n in needles && IsSealed(n)
    ensures !Contains(Text(needles, text), n)
  {
    if Contains(Text(needles, text), n) {
      TextMakesNothing(needles, text, n);
    }
  }

  lemma {:induction false} TextOfClean(needles: seq<Bytes>, text: Bytes)
    requires forall n :: n in needles ==> !Contains(text, n)
    ensures Text(needles, text) == text
  {
    if needles != [] {
      if needles[0] != [] { ReplaceAbsent(text, needles[0], MASK); }
      TextOfClean(needles[1..], text);
    }
  }

  lemma ReplaceOnly(needle: Bytes, text: Bytes)
    requires needle != []
    ensures Text([needle], text) == Replace(text, needle, MASK)
  {
    assert [needle][1..] == [];
  }

  /** A needle is hidden in every text exactly if it is sealed. */
  lemma HiddenExactlyIfSealed(n: Bytes)
    ensures (forall text :: !Contains(Text([n], text), n)) <==> IsSealed(n)
  {
    hide Replace, Text;
    if IsSealed(n) {
      forall text ensures !Contains(Text([n], text), n) { TextHidesNeedles([n], text, n); }
    } else if n == [] {
      assert OccursAt(Text([n], []), n, 0);
    } else {
      var text := UnsealedSurvives(n, MASK);
      ReplaceOnly(n, text);
    }
  }

  /** And scrubbing a secret twice is scrubbing it once, for every text, exactly then. */
  lemma IdempotentExactlyIfSealed(n: Bytes)
    requires IsScrubbed(n)
    ensures (forall text :: Text([n], Text([n], text)) == Text([n], text)) <==> IsSealed(n)
  {
    hide Replace, Text;
    if IsSealed(n) {
      forall text ensures Text([n], Text([n], text)) == Text([n], text) { TextIdempotent([n], text); }
    } else {
      var text := UnsealedSurvives(n, MASK);
      var out := Replace(text, n, MASK);
      ReplaceOnly(n, text);
      ReplaceOnly(n, out);
      ReplaceChanges(out, n, MASK);
    }
  }

  /** Scrubbing twice is scrubbing once. */
  lemma TextIdempotent(needles: seq<Bytes>, text: Bytes)
    requires AllSealed(needles)
    ensures Text(needles, Text(needles, text)) == Text(needles, text)
  {
    forall n | n in needles ensures !Contains(Text(needles, text), n) {
      TextHidesNeedles(needles, text, n);
    }
    TextOfClean(needles, Text(needles, text));
  }

  lemma MaskHoldsNoNeedle(n: Bytes)
    requires IsSealed(n)
    ensures !Contains(MASK, n)
  {
    forall i ensures !OccursAt(MASK, n, i) {
      if 0 <= i && i + |n| <= |MASK| { assert MASK[i..i + |n|][0] == MASK[i]; }
    }
  }

  /** A secret is masked whole even when it contains another: the longer needle goes first. */
  lemma {:induction false} NeedleIsMaskedWhole(needles: seq<Bytes>, n: Bytes)
    requires LongestFirst(needles) && n in needles && forall m :: m in needles ==> !Contains(MASK, m)
    ensures Text(needles, n) == MASK
  {
    var first := needles[0];
    assert first in needles && first != [] by { if first == [] { assert OccursAt(MASK, first, 0); } }
    if first == n {
      assert n[..|n|] == n && n[|n|..] == [];
      assert Replace(n, n, MASK) == MASK + [] == MASK;
      forall m | m in needles[1..] ensures !Contains(MASK, m) {
        assert m in needles;
      }
      TextOfClean(needles[1..], MASK);
    } else {
      assert n in needles[1..];
      assert first in needles && |first| >= |n|;
      assert forall m :: m in needles[1..] ==> m in needles;
      if Contains(n, first) { ContainsShorter(n, first); }
      ReplaceAbsent(n, first, MASK);
      NeedleIsMaskedWhole(needles[1..], n);
    }
  }

  // ---------------------------------------------------------------- what the run's redactor hides

  /** The value is one the redactor scrubs. */
  predicate Guarded(values: seq<Bytes>, secret: Bytes) { secret in values && IsScrubbed(secret) }

  lemma FormIsHidden(values: seq<Bytes>, secret: Bytes, form: Bytes, text: Bytes, longer: Bytes)
    requires Guarded(values, secret) && IsSealed(form)
    requires form == secret || form in FormsOf(secret)
    requires Contains(longer, form)
    ensures !Contains(Text(Needles(values), text), longer)
  {
    hide FormsOf, Needles, Text;
    NeedlesAre(values);
    var out := Text(Needles(values), text);
    TextHidesNeedles(Needles(values), text, form);
    if Contains(out, longer) { ContainsTransitive(out, longer, form); }
  }

  /** The output holds no text with the secret in it. */
  lemma PlainSecretHidden(values: seq<Bytes>, secret: Bytes, text: Bytes, prefix: Bytes, suffix: Bytes)
    requires Guarded(values, secret) && IsSealed(secret)
    ensures !Contains(Text(Needles(values), text), prefix + secret + suffix)
  {
    MiddleOccurs(prefix, secret, suffix);
    FormIsHidden(values, secret, secret, text, prefix + secret + suffix);
  }

  /**
    Nor the base64 of any text with the secret in it, in either alphabet and at every alignment
    where the secret fills enough characters, be there stars in the secret or not.
   */
  lemma Base64SecretHidden(values: seq<Bytes>, secret: Bytes, text: Bytes,
                           prefix: Bytes, suffix: Bytes, a: Alphabet)
    requires Guarded(values, secret) && IsKeptAt(secret, |prefix| % 3)
    ensures !Contains(Text(Needles(values), text), Encode(prefix + secret + suffix, a))
  {
    hide Encode, FormsOf, Needles, Text;
    var form := Base64IsCovered(prefix, secret, suffix, a);
    FormIsLong(secret, form);
    StarFreeIsSealed(form, MASK);
    FormIsHidden(values, secret, form, text, Encode(prefix + secret + suffix, a));
  }

  lemma UnpaddedSecretHidden(values: seq<Bytes>, secret: Bytes, text: Bytes, a: Alphabet)
    requires Guarded(values, secret) && |secret| >= 6
    ensures Reached(|secret|) <= |Encode(secret, a)|
    ensures !Contains(Text(Needles(values), text), Encode(secret, a)[..Reached(|secret|)])
  {
    hide Encode, FormsOf, Needles, Text;
    UnpaddedIsCovered(secret, a);
    var form := Encode(secret, a)[..Reached(|secret|)];
    EncodeStarFree(secret, a);
    SliceStarFree(Encode(secret, a), 0, Reached(|secret|));
    StarFreeIsSealed(form, MASK);
    assert OccursAt(form, form, 0);
    FormIsHidden(values, secret, form, text, form);
  }

  lemma FormIsLong(secret: Bytes, form: Bytes)
    requires form in FormsOf(secret)
    ensures |form| >= MIN_ENCODED_LEN
  {
  }

  /**
    Nor its percent-encoding or hex, be there stars in the secret or not, nor the form with `+` for
    spaces or the JSON escape of a sealed secret, once these are long enough to be kept.
   */
  lemma ByteCodedSecretHidden(values: seq<Bytes>, secret: Bytes, text: Bytes,
                              prefix: Bytes, suffix: Bytes, code: ByteCode)
    requires Guarded(values, secret) && (KeepsStars(code) ==> IsSealed(secret))
    requires |EncodeBytes(secret, code)| >= MIN_ENCODED_LEN || EncodeBytes(secret, code) == secret
    ensures !Contains(Text(Needles(values), text), EncodeBytes(prefix + secret + suffix, code))
  {
    hide EncodeBytes, FormsOf, Needles, Text, Sealed;
    var form := ByteCodeIsCovered(prefix, secret, suffix, code);
    if KeepsStars(code) {
      EncodedIsSealed(secret, code, MASK);
    } else {
      PercentAndHexStarFree(secret, code);
      StarFreeIsSealed(form, MASK);
    }
    FormIsHidden(values, secret, form, text, EncodeBytes(prefix + secret + suffix, code));
  }

  /**
    From the run's context to the output: every secret of the run of at least four bytes that is
    not the mask is hidden: in plain if it is sealed, in any base64 where it is long enough to be
    kept, and encoded by itself without padding.
   */
  lemma RunSecretsAreHidden(secret: Bytes, sensitive: seq<Bytes>, secrets: Json, inputs: Json, schema: Option<Json>,
                            text: Bytes, prefix: Bytes, suffix: Bytes, a: Alphabet)
    requires WellFormed(secrets) && WellFormed(inputs) && (schema.Some? ==> WellFormed(schema.value))
    requires IsSecretOf(secret, sensitive, secrets, inputs, schema)
    requires |secret| >= 4 && secret != [42, 42, 42, 42, 42, 42, 42, 42]
    ensures var out := Text(Needles(Collected(sensitive, secrets, inputs, schema)), text);
            (IsSealed(secret) ==> !Contains(out, prefix + secret + suffix))
            && (IsKeptAt(secret, |prefix| % 3) ==> !Contains(out, Encode(prefix + secret + suffix, a)))
            && (|secret| >= 6 ==> Reached(|secret|) <= |Encode(secret, a)|
                                  && !Contains(out, Encode(secret, a)[..Reached(|secret|)]))
  {
    CollectedAre(secret, sensitive, secrets, inputs, schema);
    if |secret| >= 6 { UnpaddedSecretHidden(Collected(sensitive, secrets, inputs, schema), secret, text, a); }
    hide Collected, Needles, Text, Encode, IsSecretOf, Sealed;
    var values := Collected(sensitive, secrets, inputs, schema);
    if IsSealed(secret) { PlainSecretHidden(values, secret, text, prefix, suffix); }
    if IsKeptAt(secret, |prefix| % 3) { Base64SecretHidden(values, secret, text, prefix, suffix, a); }
  }

  /** For one, a secret that ends in stars can be put together out of the mask itself. */
  lemma StarredSecretSurvives()
    ensures var secret: Bytes := [97, STAR, STAR, STAR];
            IsScrubbed(secret)
            && Contains(Text([secret], [97, 97, STAR, STAR, STAR]), secret)
            && Text([secret], Text([secret], [97, 97, STAR, STAR, STAR]))
            != Text([secret], [97, 97, STAR, STAR, STAR])
  {
    var secret: Bytes := [97, STAR, STAR, STAR];
    var text: Bytes := [97, 97, STAR, STAR, STAR];
    assert text[..4] != secret && text[1..] == secret;
    assert secret[..4] == secret && secret[4..] == [];
    assert Replace(secret, secret, MASK) == MASK + [];
    var out := [97] + MASK;
    assert Replace(text, secret, MASK) == out;
    assert Text([secret], text) == out;
    assert OccursAt(out, secret, 0);
    assert out[..4] == secret;
    assert Replace(out, secret, MASK) == MASK + Replace(out[4..], secret, MASK);
    assert Text([secret], out) == Replace(out, secret, MASK);
    assert Text([secret], out)[0] == STAR;
  }

  // ---------------------------------------------------------------- JSON

  /** `RunRedactor::value`. */
  function ScrubValue(needles: seq<Bytes>, value: Json): Json
    decreases value
  {
    match value
    case String(s) => String(Text(needles, s))
    case Number(n) => if n in needles then String(MASK) else value
    case Array(items) => Array(ScrubItems(needles, items))
    case Object(fields) => Object(ScrubFields(needles, fields, End))
    case _ => value
  }

  function ScrubItems(needles: seq<Bytes>, items: seq<Json>): seq<Json>
    decreases items
  {
    if items == [] then [] else [ScrubValue(needles, items[0])] + ScrubItems(needles, items[1..])
  }

  function ScrubFields(needles: seq<Bytes>, fields: Fields, done: Fields): Fields
    decreases fields
  {
    match fields
    case End => done
    case More(key, value, rest) =>
      ScrubFields(needles, rest, InsertField(done, Text(needles, key), ScrubValue(needles, value)))
  }

  ghost predicate CleanText(needles: seq<Bytes>, s: Bytes) {
    forall n :: n in needles ==> !Contains(s, n)
  }

  /** No string and no key holds a needle, and no number is one. */
  ghost predicate Clean(needles: seq<Bytes>, value: Json) {
    match value
    case String(s) => CleanText(needles, s)
    case Number(d) => d !in needles
    case Array(items) => forall i :: 0 <= i < |items| ==> Clean(needles, items[i])
    case Object(fields) => CleanFields(needles, fields)
    case _ => true
  }

  ghost predicate CleanFields(needles: seq<Bytes>, fields: Fields) {
    match fields
    case End => true
    case More(key, value, rest) =>
      CleanText(needles, key) && Clean(needles, value) && CleanFields(needles, rest)
  }

  lemma TextIsClean(needles: seq<Bytes>, hidden: seq<Bytes>, s: Bytes)
    requires AllSealed(hidden) && forall n :: n in hidden ==> n in needles
    ensures CleanText(hidden, Text(needles, s))
  {
    forall n | n in hidden ensures !Contains(Text(needles, s), n) { TextHidesNeedles(needles, s, n); }
  }

  /** Every part of a JSON value comes out clean of the sealed needles, keys and nested values too. */
  lemma {:induction false} ValueHidesNeedles(needles: seq<Bytes>, hidden: seq<Bytes>, value: Json)
    requires AllSealed(hidden) && forall n :: n in hidden ==> n in needles
    ensures Clean(hidden, ScrubValue(needles, value))
    decreases value
  {
    match value
    case String(s) => TextIsClean(needles, hidden, s);
    case Number(d) =>
      forall n | n in hidden ensures !Contains(MASK, n) { MaskHoldsNoNeedle(n); }
    case Array(items) => ItemsHideNeedles(needles, hidden, items);
    case Object(fields) => FieldsHideNeedles(needles, hidden, fields, End);
    case _ =>
  }

  lemma {:induction false} ItemsHideNeedles(needles: seq<Bytes>, hidden: seq<Bytes>, items: seq<Json>)
    requires AllSealed(hidden) && forall n :: n in hidden ==> n in needles
    ensures forall i :: 0 <= i < |ScrubItems(needles, items)| ==> Clean(hidden, ScrubItems(needles, items)[i])
    decreases items
  {
    if items != [] {
      ValueHidesNeedles(needles, hidden, items[0]);
      ItemsHideNeedles(needles, hidden, items[1..]);
    }
  }

  lemma {:induction false} InsertClean(needles: seq<Bytes>, fields: Fields, key: Bytes, value: Json)
    requires CleanFields(needles, fields) && CleanText(needles, key) && Clean(needles, value)
    ensures CleanFields(needles, InsertField(fields, key, value))
  {
    if fields.More? { InsertClean(needles, fields.rest, key, value); }
  }

  lemma {:induction false} FieldsHideNeedles(needles: seq<Bytes>, hidden: seq<Bytes>, fields: Fields, done: Fields)
    requires AllSealed(hidden) && (forall n :: n in hidden ==> n in needles) && CleanFields(hidden, done)
    ensures CleanFields(hidden, ScrubFields(needles, fields, done))
    decreases fields
  {
    match fields
    case End =>
    case More(key, value, rest) =>
      TextIsClean(needles, hidden, key);
      ValueHidesNeedles(needles, hidden, value);
      InsertClean(hidden, done, Text(needles, key), ScrubValue(needles, value));
      FieldsHideNeedles(needles, hidden, rest, InsertField(done, Text(needles, key), ScrubValue(needles, value)));
  }

  // ---------------------------------------------------------------- what is clean stays

  function Append(a: Fields, b: Fields): Fields {
    match a
    case End => b
    case More(key, value, rest) => More(key, value, Append(rest, b))
  }

  /** The keys of `b` are none of `a`'s. */
  predicate Apart(a: Fields, b: Fields) {
    match b
    case End => true
    case More(key, _, rest) => !HasKey(a, key) && Apart(a, rest)
  }

  lemma {:induction false} InsertNew(a: Fields, key: Bytes, value: Json, rest: Fields)
    requires !HasKey(a, key)
    ensures Append(InsertField(a, key, value), rest) == Append(a, More(key, value, rest))
  {
    if a.More? { InsertNew(a.rest, key, value, rest); }
  }

  lemma {:induction false} InsertedKeys(a: Fields, key: Bytes, value: Json, other: Bytes)
    ensures HasKey(InsertField(a, key, value), other) <==> other == key || HasKey(a, other)
  {
    if a.More? { InsertedKeys(a.rest, key, value, other); }
  }

  lemma {:induction false} ApartAfterInsert(a: Fields, key: Bytes, value: Json, b: Fields)
    requires Apart(a, b) && !HasKey(b, key)
    ensures Apart(InsertField(a, key, value), b)
  {
    if b.More? {
      InsertedKeys(a, key, value, b.key);
      ApartAfterInsert(a, key, value, b.rest);
    }
  }

  lemma {:induction false} AppendEnd(a: Fields)
    ensures Append(a, End) == a
  {
    if a.More? { AppendEnd(a.rest); }
  }

  /** A JSON value without needles is left as it is, the order of its keys included. */
  lemma {:induction false} CleanValueStays(needles: seq<Bytes>, value: Json)
    requires WellFormed(value) && Clean(needles, value)
    ensures ScrubValue(needles, value) == value
    decreases value
  {
    match value
    case String(s) => TextOfClean(needles, s);
    case Array(items) => CleanItemsStay(needles, items);
    case Object(fields) =>
      NothingIsApart(fields);
      CleanFieldsStay(needles, fields, End);
    case _ =>
  }

  lemma {:induction false} NothingIsApart(fields: Fields)
    ensures Apart(End, fields)
  {
    if fields.More? { NothingIsApart(fields.rest); }
  }

  lemma {:induction false} CleanItemsStay(needles: seq<Bytes>, items: seq<Json>)
    requires forall i :: 0 <= i < |items| ==> WellFormed(items[i]) && Clean(needles, items[i])
    ensures ScrubItems(needles, items) == items
    decreases items
  {
    if items != [] {
      CleanValueStays(needles, items[0]);
      CleanItemsStay(needles, items[1..]);
    }
  }

  lemma {:induction false} CleanFieldsStay(needles: seq<Bytes>, fields: Fields, done: Fields)
    requires WellFormedFields(fields) && CleanFields(needles, fields) && Apart(done, fields)
    ensures ScrubFields(needles, fields, done) == Append(done, fields)
    decreases fields
  {
    match fields
    case End => AppendEnd(done);
    case More(key, value, rest) =>
      TextOfClean(needles, key);
      CleanValueStays(needles, value);
      ApartAfterInsert(done, key, value, rest);
      CleanFieldsStay(needles, rest, InsertField(done, key, value));
      InsertNew(done, key, value, rest);
  }

  lemma {:induction false} InsertKeepsWellFormed(fields: Fields, key: Bytes, value: Json)
    requires WellFormedFields(fields) && WellFormed(value)
    ensures WellFormedFields(InsertField(fields, key, value))
  {
    if fields.More? {
      InsertKeepsWellFormed(fields.rest, key, value);
      InsertedKeys(fields.rest, key, value, fields.key);
    }
  }

  lemma {:induction false} ScrubbedIsWellFormed(needles: seq<Bytes>, value: Json)
    ensures WellFormed(ScrubValue(needles, value))
    decreases value
  {
    match value
    case Array(items) => ScrubbedItemsAreWellFormed(needles, items);
    case Object(fields) => ScrubbedFieldsAreWellFormed(needles, fields, End);
    case _ =>
  }

  lemma {:induction false} ScrubbedItemsAreWellFormed(needles: seq<Bytes>, items: seq<Json>)
    ensures forall i :: 0 <= i < |ScrubItems(needles, items)| ==> WellFormed(ScrubItems(needles, items)[i])
    decreases items
  {
    if items != [] {
      ScrubbedIsWellFormed(needles, items[0]);
      ScrubbedItemsAreWellFormed(needles, items[1..]);
    }
  }

  lemma {:induction false} ScrubbedFieldsAreWellFormed(needles: seq<Bytes>, fields: Fields, done: Fields)
    requires WellFormedFields(done)
    ensures WellFormedFields(ScrubFields(needles, fields, done))
    decreases fields
  {
    match fields
    case End =>
    case More(key, value, rest) =>
      ScrubbedIsWellFormed(needles, value);
      InsertKeepsWellFormed(done, Text(needles, key), ScrubValue(needles, value));
      ScrubbedFieldsAreWellFormed(needles, rest, InsertField(done, Text(needles, key), ScrubValue(needles, value)));
  }

  /** Scrubbing changes a value exactly if there is a needle in it; so a second time changes nothing. */
  lemma ScrubbedExactlyIfUnclean(needles: seq<Bytes>, value: Json)
    requires AllSealed(needles) && WellFormed(value)
    ensures ScrubValue(needles, value) == value <==> Clean(needles, value)
    ensures ScrubValue(needles, ScrubValue(needles, value)) == ScrubValue(needles, value)
  {
    var once := ScrubValue(needles, value);
    ValueHidesNeedles(needles, needles, value);
    ScrubbedIsWellFormed(needles, value);
    CleanValueStays(needles, once);
    if Clean(needles, value) { CleanValueStays(needles, value); }
  }

  // ---------------------------------------------------------------- what becomes of each part

  /** The last entry whose key comes out as `key`: of keys that come out alike the last counts. */
  function LastAs(needles: seq<Bytes>, fields: Fields, key: Bytes): Option<Json> {
    match fields
    case End => None
    case More(k, value, rest) =>
      var later := LastAs(needles, rest, key);
      if later.Some? then later else if Text(needles, k) == key then Some(value) else None
  }

  lemma {:induction false} InsertedField(fields: Fields, key: Bytes, value: Json, other: Bytes)
    ensures GetField(InsertField(fields, key, value), other)
         == if other == key then Some(value) else GetField(fields, other)
  {
    if fields.More? { InsertedField(fields.rest, key, value, other); }
  }

  lemma {:induction false} ScrubbedField(needles: seq<Bytes>, fields: Fields, done: Fields, key: Bytes)
    ensures var last := LastAs(needles, fields, key);
            GetField(ScrubFields(needles, fields, done), key)
            == if last.Some? then Some(ScrubValue(needles, last.value)) else GetField(done, key)
    decreases fields
  {
    hide Text, ScrubValue;
    match fields
    case End =>
    case More(k, value, rest) =>
      var name, scrubbed := Text(needles, k), ScrubValue(needles, value);
      ScrubbedField(needles, rest, InsertField(done, name, scrubbed), key);
      InsertedField(done, name, scrubbed, key);
  }

  lemma {:induction false} ScrubbedItem(needles: seq<Bytes>, items: seq<Json>, i: nat)
    requires i < |items|
    ensures |ScrubItems(needles, items)| == |items| && ScrubItems(needles, items)[i] == ScrubValue(needles, items[i])
    decreases items
  {
    if |items| == 1 {
      assert items[1..] == [];
    } else {
      ScrubbedItem(needles, items[1..], if i == 0 then 0 else i - 1);
    }
  }

  /** The same path through scrubbed keys. */
  function Renamed(needles: seq<Bytes>, path: Path): Path
    decreases |path|
  {
    if path == [] then []
    else [if path[0].Key? then Key(Text(needles, path[0].key)) else path[0]] + Renamed(needles, path[1..])
  }

  /** No later key of the objects on the way comes out as one on the path. */
  predicate Uncovered(needles: seq<Bytes>, value: Json, path: Path)
    decreases |path|
  {
    path == []
    || match path[0]
       case Key(key) =>
         value.Object? && GetField(value.fields, key).Some?
         && LastAs(needles, value.fields, Text(needles, key)) == GetField(value.fields, key)
         && Uncovered(needles, GetField(value.fields, key).value, path[1..])
       case Index(i) => value.Array? && i < |value.items| && Uncovered(needles, value.items[i], path[1..])
  }

  /** What a leaf comes out as. */
  predicate LeafComesOutAs(needles: seq<Bytes>, leaf: Json, out: Json) {
    match leaf
    case String(s) => out == String(Text(needles, s))
    case Number(n) => out == if n in needles then String([42, 42, 42, 42, 42, 42, 42, 42]) else Number(n)
    case Null => out == Null
    case Bool(b) => out == Bool(b)
    case Array(items) => out.Array? && |out.items| == |items|
    case Object(_) => out.Object?
  }

  /**
    Every value stays where it is, under the scrubbed names of its keys: strings scrubbed, numbers
    that are secrets masked, the rest as it was.
   */
  lemma {:induction false} ScrubbedInPlace(needles: seq<Bytes>, value: Json, path: Path)
    requires Uncovered(needles, value, path) && NodeAt(value, path).Some?
    ensures NodeAt(ScrubValue(needles, value), Renamed(needles, path)).Some?
    ensures LeafComesOutAs(needles, NodeAt(value, path).value,
                           NodeAt(ScrubValue(needles, value), Renamed(needles, path)).value)
    decreases |path|
  {
    hide Text;
    if path == [] {
      if value.Array? && value.items != [] { ScrubbedItem(needles, value.items, 0); }
    } else {
      var renamed := Renamed(needles, path);
      assert renamed[1..] == Renamed(needles, path[1..]);
      match path[0]
      case Key(key) =>
        ScrubbedField(needles, value.fields, End, Text(needles, key));
        ScrubbedInPlace(needles, GetField(value.fields, key).value, path[1..]);
      case Index(i) =>
        ScrubbedItem(needles, value.items, i);
        ScrubbedInPlace(needles, value.items[i], path[1..]);
    }
  }
}
