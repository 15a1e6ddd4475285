// JSON values as serde_json keeps them with insertion order. `K` is the type of object keys,
// `N` of numbers and `S` of strings, which differ with what a module needs to see of them.
module JsonValues {

  import opened Wrappers

  datatype Json<K, N, S> =
    | Null
    | Bool(b: bool)
    | Number(n: N)
    | String(s: S)
    | Array(items: seq<Json<K, N, S>>)
    | Object(fields: Fields<K, N, S>)

  /** The entries of an object, in the order they were inserted. */
  datatype Fields<K, N, S> = End | More(key: K, value: Json<K, N, S>, rest: Fields<K, N, S>)

  function GetField<K(==), N, S>(fields: Fields<K, N, S>, key: K): Option<Json<K, N, S>> {
    match fields
    case End => None
    case More(k, value, rest) => if k == key then Some(value) else GetField(rest, key)
  }

  function Get<K(==), N, S>(value: Json<K, N, S>, key: K): Option<Json<K, N, S>> {
    if value.Object? then GetField(value.fields, key) else None
  }

  predicate HasKey<K(==), N, S>(fields: Fields<K, N, S>, key: K) {
    GetField(fields, key).Some?
  }

  /** `Map::insert`: a key already there keeps its place and gets the new value. */
  function InsertField<K(==), N, S>(fields: Fields<K, N, S>, key: K, value: Json<K, N, S>): Fields<K, N, S> {
    match fields
    case End => More(key, value, End)
    case More(k, v, rest) =>
      if k == key then More(key, value, rest) else More(k, v, InsertField(rest, key, value))
  }

  /** What a map always is: no key twice, at any depth. */
  predicate WellFormed<K(==), N, S>(value: Json<K, N, S>) {
    match value
    case Array(items) => forall i :: 0 <= i < |items| ==> WellFormed(items[i])
    case Object(fields) => WellFormedFields(fields)
    case _ => true
  }

  predicate WellFormedFields<K(==), N, S>(fields: Fields<K, N, S>) {
    match fields
    case End => true
    case More(key, value, rest) => !HasKey(rest, key) && WellFormed(value) && WellFormedFields(rest)
  }

  /** A step down into a value. */
  datatype Into<K> = Key(key: K) | Index(i: nat)

  /** The value at the end of a path. */
  function NodeAt<K(==), N, S>(value: Json<K, N, S>, path: seq<Into<K>>): Option<Json<K, N, S>>
    decreases |path|
  {
    if path == [] then Some(value)
    else
      match path[0]
      case Key(key) =>
        var inner := Get(value, key);
        if inner.Some? then NodeAt(inner.value, path[1..]) else None
      case Index(i) => if value.Array? && i < |value.items| then NodeAt(value.items[i], path[1..]) else None
  }
}
