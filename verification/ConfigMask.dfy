// Masking a connection's free-form configuration in responses, and putting the stored
// secrets back when an update carries the mask.
module ConfigMask {
  import opened Wrappers
  import opened J = JsonValues

  const MASK := "********"

  /**
    A string as the URL library sees it: not a URL, or a URL split into its password, its
    query pairs and everything else.
   */
  datatype Text =
    | Plain(s: string)
    | Url(rest: string, password: Option<string>, query: seq<(string, string)>)

  type Config = J.Json<string, int, Text>
  type ConfigFields = J.Fields<string, int, Text>

  /** The lists of keys whose values are shown: of a config, of `headers`, of a URL's query. */
  datatype Policy = Policy(config: seq<string>, headers: seq<string>, query: seq<string>)

  // ---------------------------------------------------------------- which keys are public

  function LowerChar(c: char): char {
    if 'A' <= c <= 'Z' then c - 'A' + 'a' else c
  }

  function Lower(s: string): string {
    seq(|s|, i requires 0 <= i < |s| => LowerChar(s[i]))
  }

  predicate StandsAt(s: string, part: string, i: int) {
    0 <= i <= |s| - |part| && s[i..i + |part|] == part
  }

  predicate Holds(s: string, part: string) {
    exists i :: 0 <= i <= |s| && StandsAt(s, part, i)
  }

  predicate HoldsAny(s: string, parts: seq<string>) {
    exists k :: 0 <= k < |parts| && Holds(s, parts[k])
  }

  predicate IsSecretKey(key: string) {
    HoldsAny(Lower(key),
             ["secret", "password", "passwd", "token", "private", "ssh_key", "credential",
              "api_key", "apikey", "api-key", "authorization", "cookie", "signature"])
  }

  predicate IsPublic(key: string, list: seq<string>) {
    Lower(key) in list && !IsSecretKey(Lower(key))
  }

  predicate IsPublicKey(key: Option<string>, list: seq<string>) {
    key.Some? && IsPublic(key.value, list)
  }

  /** A keyword-style connection string such as `host=db password=x`. */
  predicate HoldsCredential(s: string) {
    HoldsAny(Lower(s), ["password=", "passwd=", "secret=", "token=", "pwd="])
  }

  const PUBLIC_CONFIG_KEYS := [
    "url", "base_url", "endpoint", "endpoint_url", "host", "hostname", "port", "bucket",
    "region", "registry", "repo", "repo_url", "repository", "branch", "ref", "path", "prefix",
    "container", "namespace", "project", "project_id", "account", "account_name", "database",
    "dbname", "db", "schema", "sslmode", "username", "user", "email", "access_key",
    "access_key_id", "name", "type", "description", "force_path_style", "plain_http",
    "insecure", "timeout"]

  const PUBLIC_HEADERS := ["accept", "accept-encoding", "accept-language", "content-type", "user-agent"]

  const PUBLIC_QUERY_KEYS := [
    "sslmode", "ssl", "region", "timeout", "connect_timeout", "application_name", "schema",
    "search_path", "charset", "api-version", "version"]

  function StormchaserPolicy(): Policy { Policy(PUBLIC_CONFIG_KEYS, PUBLIC_HEADERS, PUBLIC_QUERY_KEYS) }

  // ---------------------------------------------------------------- masking

  predicate PairIsHidden(pair: (string, string), p: Policy) {
    pair.1 != "" && !IsPublic(pair.0, p.query)
  }

  function MaskPair(pair: (string, string), p: Policy): (string, string) {
    if PairIsHidden(pair, p) then (pair.0, MASK) else pair
  }

  function MaskPairs(query: seq<(string, string)>, p: Policy): (r: seq<(string, string)>)
    ensures |r| == |query|
    ensures forall i :: 0 <= i < |query| ==> r[i] == MaskPair(query[i], p)
  {
    seq(|query|, i requires 0 <= i < |query| => MaskPair(query[i], p))
  }

  /** `mask_public_string`, and through it `mask_url`: what is shown under a public key. */
  function MaskPublicText(t: Text, p: Policy): Text {
    match t
    case Url(rest, password, query) =>
      Url(rest, if password.Some? then Some(MASK) else None, MaskPairs(query, p))
    case Plain(s) => if HoldsCredential(s) then Plain(MASK) else t
  }

  function ListFor(key: Option<string>, list: seq<string>, p: Policy): seq<string> {
    if key.Some? && Lower(key.value) == "headers" then p.headers else list
  }

  /** `mask_value`: `value` is stored under `key`, and `list` holds the keys shown at this level. */
  function Mask(value: Config, key: Option<string>, list: seq<string>, p: Policy): Config
    decreases value
  {
    match value
    case Object(fields) => Object(MaskFields(fields, ListFor(key, list, p), p))
    case Array(items) => Array(MaskItems(items, key, list, p))
    case String(t) =>
      if t == Plain("") then value
      else if IsPublicKey(key, list) then String(MaskPublicText(t, p))
      else String(Plain(MASK))
    case Number(_) => if IsPublicKey(key, list) then value else String(Plain(MASK))
    case _ => value
  }

  function MaskItems(items: seq<Config>, key: Option<string>, list: seq<string>, p: Policy): (r: seq<Config>)
    ensures |r| == |items|
    ensures forall i :: 0 <= i < |items| ==> r[i] == Mask(items[i], key, list, p)
    decreases items
  {
    if items == [] then []
    else [Mask(items[0], key, list, p)] + MaskItems(items[1..], key, list, p)
  }

  function MaskFields(fields: ConfigFields, list: seq<string>, p: Policy): ConfigFields
    decreases fields
  {
    match fields
    case End => End
    case More(key, value, rest) => More(key, Mask(value, Some(key), list, p), MaskFields(rest, list, p))
  }

  /** `mask_config`. */
  function MaskConfig(config: Config, p: Policy): Config {
    Mask(config, None, p.config, p)
  }

  // ---------------------------------------------------------------- what is masked, in so many words

  /** The word in any mix of upper and lower case. */
  predicate IsCased(s: string, word: string) {
    |s| == |word|
    && forall i :: 0 <= i < |word| ==> s[i] == word[i] || ('a' <= word[i] <= 'z' && s[i] == word[i] - 'a' + 'A')
  }

  predicate IsLower(word: string) { forall i :: 0 <= i < |word| ==> !('A' <= word[i] <= 'Z') }

  lemma CasedLowers(s: string, word: string)
    requires IsLower(word)
    ensures IsCased(s, word) <==> Lower(s) == word
  {
    assert |Lower(s)| == |s|;
    if |s| == |word| {
      forall i | 0 <= i < |word|
        ensures s[i] == word[i] || ('a' <= word[i] <= 'z' && s[i] == word[i] - 'a' + 'A')
           <==> LowerChar(s[i]) == word[i]
      {
        LowerCases(s[i], word[i]);
      }
    }
  }

  lemma LowerCases(c: char, w: char)
    requires !('A' <= w <= 'Z')
    ensures c == w || ('a' <= w <= 'z' && c == w - 'a' + 'A') <==> LowerChar(c) == w
  {
    if 'A' <= c <= 'Z' { assert LowerChar(c) == c - 'A' + 'a' && (c - 'A' + 'a') - 'a' + 'A' == c; }
  }

  /** The word stands somewhere in the text, in any mix of cases. */
  ghost predicate HoldsCased(s: string, word: string) {
    exists prefix, middle, suffix :: s == prefix + middle + suffix && IsCased(middle, word)
  }

  lemma LowerParts(prefix: string, middle: string, suffix: string)
    ensures Lower(prefix + middle + suffix) == Lower(prefix) + Lower(middle) + Lower(suffix)
  {
  }

  lemma CasedIsHeld(prefix: string, middle: string, suffix: string, word: string)
    requires IsLower(word) && IsCased(middle, word)
    ensures Holds(Lower(prefix + middle + suffix), word)
  {
    CasedLowers(middle, word);
    LowerParts(prefix, middle, suffix);
    hide Lower;
    var s := Lower(prefix) + Lower(middle) + Lower(suffix);
    assert s[|Lower(prefix)|..|Lower(prefix)| + |word|] == word;
    assert StandsAt(s, word, |Lower(prefix)|);
  }

  lemma HeldIsCased(s: string, word: string, i: nat)
    requires IsLower(word) && StandsAt(Lower(s), word, i)
    ensures HoldsCased(s, word)
  {
    var middle := s[i..i + |word|];
    assert Lower(middle) == Lower(s)[i..i + |word|];
    CasedLowers(middle, word);
    assert s == s[..i] + middle + s[i + |word|..];
  }

  lemma HoldsIsCased(s: string, word: string)
    requires IsLower(word)
    ensures Holds(Lower(s), word) <==> HoldsCased(s, word)
  {
    hide Lower, IsCased, IsLower, StandsAt;
    if HoldsCased(s, word) {
      var prefix, middle, suffix :| s == prefix + middle + suffix && IsCased(middle, word);
      CasedIsHeld(prefix, middle, suffix, word);
    }
    if Holds(Lower(s), word) {
      var i :| 0 <= i <= |Lower(s)| && StandsAt(Lower(s), word, i);
      HeldIsCased(s, word, i);
    }
  }

  lemma {:induction false} HoldsAnyOf(s: string, words: seq<string>)
    requires forall k :: 0 <= k < |words| ==> IsLower(words[k])
    ensures HoldsAny(Lower(s), words) <==> exists k :: 0 <= k < |words| && HoldsCased(s, words[k])
  {
    forall k | 0 <= k < |words| ensures Holds(Lower(s), words[k]) <==> HoldsCased(s, words[k]) {
      HoldsIsCased(s, words[k]);
    }
  }

  /** What makes a plain text a credential, word by word. */
  ghost predicate NamesCredential(s: string) {
    HoldsCased(s, "password=") || HoldsCased(s, "passwd=") || HoldsCased(s, "secret=") || HoldsCased(s, "token=")
    || HoldsCased(s, "pwd=")
  }

  lemma CredentialIsNamed(s: string)
    ensures HoldsCredential(s) <==> NamesCredential(s)
  {
    hide HoldsAny, HoldsCased, Lower;
    var words := ["password=", "passwd=", "secret=", "token=", "pwd="];
    HoldsAnyOf(s, words);
    assert words[0] == "password=" && words[1] == "passwd=" && words[2] == "secret=" && words[3] == "token=";
    assert words[4] == "pwd=";
  }

  /** A plain text is masked whole exactly if it names a credential, and otherwise shown as it is. */
  lemma PlainTextIsMasked(s: string, p: Policy)
    ensures MaskPublicText(Plain(s), p) == if NamesCredential(s) then Plain("********") else Plain(s)
  {
    hide HoldsCredential, NamesCredential;
    CredentialIsNamed(s);
  }

  /** So is the ordinary connection string, whatever stands around the keyword. */
  lemma ConnectionStringIsMasked(prefix: string, keyword: string, suffix: string, p: Policy)
    requires IsCased(keyword, "password=") || IsCased(keyword, "passwd=") || IsCased(keyword, "secret=")
             || IsCased(keyword, "token=") || IsCased(keyword, "pwd=")
    ensures MaskPublicText(Plain(prefix + keyword + suffix), p) == Plain("********")
  {
    hide IsCased, MaskPublicText;
    PlainTextIsMasked(prefix + keyword + suffix, p);
  }

  /** What makes a key's name that of a credential. */
  ghost predicate NamesSecret(key: string) {
    HoldsCased(key, "secret") || HoldsCased(key, "password") || HoldsCased(key, "passwd") || HoldsCased(key, "token")
    || HoldsCased(key, "private") || HoldsCased(key, "ssh_key") || HoldsCased(key, "credential")
    || HoldsCased(key, "api_key") || HoldsCased(key, "apikey") || HoldsCased(key, "api-key")
    || HoldsCased(key, "authorization") || HoldsCased(key, "cookie") || HoldsCased(key, "signature")
  }

  lemma SecretKeyIsNamed(key: string)
    ensures IsSecretKey(key) <==> NamesSecret(key)
  {
    hide HoldsAny, HoldsCased, Lower;
    var words := ["secret", "password", "passwd", "token", "private", "ssh_key", "credential",
                  "api_key", "apikey", "api-key", "authorization", "cookie", "signature"];
    HoldsAnyOf(key, words);
    assert words[0] == "secret" && words[1] == "password" && words[2] == "passwd" && words[3] == "token";
    assert words[4] == "private" && words[5] == "ssh_key" && words[6] == "credential" && words[7] == "api_key";
    assert words[8] == "apikey" && words[9] == "api-key" && words[10] == "authorization" && words[11] == "cookie";
    assert words[12] == "signature";
  }

  lemma LowerTwice(s: string)
    ensures Lower(Lower(s)) == Lower(s)
  {
  }

  /** A key is public exactly if it is listed, in any case, and does not name a credential. */
  lemma PublicKeysAre(key: string, list: seq<string>)
    requires forall k :: 0 <= k < |list| ==> IsLower(list[k])
    ensures IsPublic(key, list) <==> (exists k :: 0 <= k < |list| && IsCased(key, list[k])) && !NamesSecret(key)
  {
    hide NamesSecret, IsSecretKey, IsLower;
    SecretKeyIsNamed(key);
    LowerTwice(key);
    assert IsSecretKey(Lower(key)) <==> IsSecretKey(key) by { SecretKeyOfLower(key); }
    forall k | 0 <= k < |list| ensures IsCased(key, list[k]) <==> Lower(key) == list[k] { CasedLowers(key, list[k]); }
  }

  lemma SecretKeyOfLower(key: string)
    ensures IsSecretKey(Lower(key)) <==> IsSecretKey(key)
  {
    hide HoldsAny;
    LowerTwice(key);
  }

  /** A URL keeps everything but its password and the values of query keys that are not public. */
  lemma UrlIsMasked(rest: string, password: Option<string>, query: seq<(string, string)>, p: Policy, i: nat)
    requires i < |query|
    ensures var shown := MaskPublicText(Url(rest, password, query), p);
            shown.Url? && shown.rest == rest && |shown.query| == |query|
            && shown.password == (if password.Some? then Some("********") else None)
            && shown.query[i] == (query[i].0, if query[i].1 == "" || IsPublic(query[i].0, p.query) then query[i].1
                                             else "********")
  {
  }

  // ---------------------------------------------------------------- by path

  type Path = seq<J.Into<string>>

  /** The last key on the path, or the one it starts under: items of a list go by the list's key. */
  function KeyOf(path: Path, outer: Option<string>): Option<string>
    decreases |path|
  {
    if path == [] then outer
    else if path[|path| - 1].Key? then Some(path[|path| - 1].key)
    else KeyOf(path[..|path| - 1], outer)
  }

  /** Somewhere above its last key the path goes through `headers`, in any case. */
  ghost predicate UnderHeaders(path: Path, outer: Option<string>) {
    exists k :: 0 <= k < |path| && path[k].Key?
                && KeyOf(path[..k], outer).Some? && IsCased(KeyOf(path[..k], outer).value, "headers")
  }

  lemma {:induction false} KeyFurtherDown(path: Path, outer: Option<string>)
    requires path != []
    ensures KeyOf(path, outer) == KeyOf(path[1..], if path[0].Key? then Some(path[0].key) else outer)
    decreases |path|
  {
    if |path| == 1 {
      assert path[1..] == [] && path[..0] == [];
    } else if !path[|path| - 1].Key? {
      var shorter := path[..|path| - 1];
      KeyFurtherDown(shorter, outer);
      assert shorter[1..] == path[1..][..|path| - 2];
    }
  }

  lemma HeadersFurtherDown(path: Path, outer: Option<string>)
    requires path != []
    ensures var inner := if path[0].Key? then Some(path[0].key) else outer;
            UnderHeaders(path, outer) <==>
              (path[0].Key? && outer.Some? && IsCased(outer.value, "headers")) || UnderHeaders(path[1..], inner)
  {
    hide IsCased;
    var inner := if path[0].Key? then Some(path[0].key) else outer;
    assert path[..0] == [];
    forall k | 0 < k < |path| ensures KeyOf(path[..k], outer) == KeyOf(path[1..][..k - 1], inner) {
      KeyFurtherDown(path[..k], outer);
      assert path[..k][1..] == path[1..][..k - 1];
    }
    if UnderHeaders(path[1..], inner) {
      var k :| 0 <= k < |path[1..]| && path[1..][k].Key? && KeyOf(path[1..][..k], inner).Some?
               && IsCased(KeyOf(path[1..][..k], inner).value, "headers");
      assert path[k + 1] == path[1..][k] && KeyOf(path[..k + 1], outer) == KeyOf(path[1..][..k], inner);
    }
    if UnderHeaders(path, outer) {
      var k :| 0 <= k < |path| && path[k].Key? && KeyOf(path[..k], outer).Some?
               && IsCased(KeyOf(path[..k], outer).value, "headers");
      if k > 0 { assert path[1..][k - 1] == path[k]; }
    }
  }

  /** What a value is shown as under a key that is public or not. */
  predicate ShownAs(value: Config, public: bool, shown: Config, p: Policy) {
    match value
    case String(t) =>
      shown == if t == Plain("") then value
               else if public then String(MaskPublicText(t, p)) else String(Plain("********"))
    case Number(_) => shown == if public then value else String(Plain("********"))
    case Null => shown == Null
    case Bool(b) => shown == Bool(b)
    case Array(items) => shown.Array? && |shown.items| == |items|
    case Object(_) => shown.Object?
  }

  lemma {:induction false} MaskedField(fields: ConfigFields, list: seq<string>, p: Policy, key: string)
    ensures GetField(MaskFields(fields, list, p), key)
         == match GetField(fields, key)
            case None => None
            case Some(value) => Some(Mask(value, Some(key), list, p))
  {
    hide Mask;
    if fields.More? && fields.key != key { MaskedField(fields.rest, list, p, key); }
  }

  /**
    Every value stays where it is. Whether it is shown goes by its nearest key, held against the
    list of headers anywhere under `headers` and against the list at hand otherwise.
   */
  lemma {:induction false} MaskedInPlace(value: Config, key: Option<string>, list: seq<string>, p: Policy, path: Path)
    requires NodeAt(value, path).Some?
    ensures NodeAt(Mask(value, key, list, p), path).Some?
    ensures ShownAs(NodeAt(value, path).value,
                    IsPublicKey(KeyOf(path, key), if UnderHeaders(path, key) then p.headers else list),
                    NodeAt(Mask(value, key, list, p), path).value, p)
    decreases |path|
  {
    if path == [] {
      hide IsPublic, MaskPublicText;
      assert !UnderHeaders(path, key);
    } else {
      hide IsPublic, MaskPublicText, ShownAs, UnderHeaders, IsCased;
      KeyFurtherDown(path, key);
      HeadersFurtherDown(path, key);
      match path[0]
      case Index(i) => MaskedInPlace(value.items[i], key, list, p, path[1..]);
      case Key(k) =>
        var inner := ListFor(key, list, p);
        MaskedField(value.fields, inner, p, k);
        MaskedInPlace(GetField(value.fields, k).value, Some(k), inner, p, path[1..]);
        if key.Some? { HeadersKey(key.value); }
    }
  }

  lemma HeadersKey(key: string)
    ensures Lower(key) == "headers" <==> IsCased(key, "headers")
  {
    CasedLowers(key, "headers");
  }

  // ---------------------------------------------------------------- restoring

  function FirstValue(query: seq<(string, string)>, key: string): Option<string> {
    if query == [] then None
    else if query[0].0 == key then Some(query[0].1)
    else FirstValue(query[1..], key)
  }

  function RestorePair(pair: (string, string), stored: seq<(string, string)>): (string, string) {
    var first := FirstValue(stored, pair.0);
    if first.Some? && pair.1 == MASK then (pair.0, first.value) else pair
  }

  function RestorePairs(query: seq<(string, string)>, stored: seq<(string, string)>): (r: seq<(string, string)>)
    ensures |r| == |query|
    ensures forall i :: 0 <= i < |query| ==> r[i] == RestorePair(query[i], stored)
  {
    seq(|query|, i requires 0 <= i < |query| => RestorePair(query[i], stored))
  }

  /** `restore_url`: the stored credentials, where the new URL carries the mask. */
  function RestoreText(incoming: Text, stored: Text): Text {
    if incoming.Url? && stored.Url? then
      Url(incoming.rest,
          if incoming.password == Some(MASK) then stored.password else incoming.password,
          RestorePairs(incoming.query, stored.query))
    else incoming
  }

  /** `restore_masked`. */
  function Restore(incoming: Config, stored: Config): Config
    decreases incoming
  {
    match incoming
    case Object(fields) => if stored.Object? then Object(RestoreFields(fields, stored.fields)) else incoming
    case Array(items) => if stored.Array? then Array(RestoreItems(items, stored.items)) else incoming
    case String(t) =>
      if t == Plain(MASK) then (if stored.String? || stored.Number? then stored else incoming)
      else if stored.String? then String(RestoreText(t, stored.s))
      else incoming
    case _ => incoming
  }

  function RestoreItems(items: seq<Config>, stored: seq<Config>): (r: seq<Config>)
    ensures |r| == |items|
    ensures forall i :: 0 <= i < |items| ==>
              r[i] == (if i < |stored| then Restore(items[i], stored[i]) else items[i])
    decreases items
  {
    if items == [] || stored == [] then items
    else
      var rest := RestoreItems(items[1..], stored[1..]);
      [Restore(items[0], stored[0])] + rest
  }

  function RestoreFields(fields: ConfigFields, stored: ConfigFields): ConfigFields
    decreases fields
  {
    match fields
    case End => End
    case More(key, value, rest) =>
      var was := GetField(stored, key);
      More(key, if was.Some? then Restore(value, was.value) else value, RestoreFields(rest, stored))
  }

  /** The first pair of the key, if there is one. */
  lemma {:induction false} FirstValueIs(query: seq<(string, string)>, key: string, value: string)
    ensures FirstValue(query, key) == Some(value) <==>
            exists j :: 0 <= j < |query| && query[j] == (key, value) && forall i :: 0 <= i < j ==> query[i].0 != key
    ensures FirstValue(query, key).None? <==> forall j :: 0 <= j < |query| ==> query[j].0 != key
  {
    if query != [] {
      FirstValueIs(query[1..], key, value);
      assert forall j :: 0 <= j < |query| - 1 ==> query[1..][j] == query[j + 1];
      if query[0].0 != key && FirstValue(query, key) == Some(value) {
        var j :| 0 <= j < |query| - 1 && query[1..][j] == (key, value)
                 && forall i :: 0 <= i < j ==> query[1..][i].0 != key;
        assert query[j + 1] == (key, value) && forall i :: 0 <= i < j + 1 ==> query[i].0 != key;
      }
      if j :| 0 <= j < |query| && query[j] == (key, value) && forall i :: 0 <= i < j ==> query[i].0 != key {
        if j > 0 { assert query[1..][j - 1] == (key, value) && forall i :: 0 <= i < j - 1 ==> query[1..][i].0 != key; }
      }
    }
  }

  /** A masked URL gets the stored password and the first stored value of each masked key; the rest is the update's. */
  lemma UrlIsRestored(incoming: Text, stored: Text, i: nat)
    requires incoming.Url? && stored.Url? && i < |incoming.query|
    ensures var out := RestoreText(incoming, stored);
            out.Url? && out.rest == incoming.rest && |out.query| == |incoming.query|
            && out.password == (if incoming.password == Some("********") then stored.password else incoming.password)
            && out.query[i].0 == incoming.query[i].0
            && out.query[i].1 == (if incoming.query[i].1 == "********"
                                     && FirstValue(stored.query, incoming.query[i].0).Some?
                                  then FirstValue(stored.query, incoming.query[i].0).value
                                  else incoming.query[i].1)
  {
  }

  /** What a value of an update is saved as, given what was stored in its place. */
  predicate SavedAs(incoming: Config, was: Option<Config>, out: Config) {
    match incoming
    case String(t) =>
      out == if t == Plain("********") then (if was.Some? && (was.value.String? || was.value.Number?) then was.value
                                             else incoming)
             else if was.Some? && was.value.String? then String(RestoreText(t, was.value.s))
             else incoming
    case Array(items) => out.Array? && |out.items| == |items|
    case Object(_) => out.Object?
    case _ => out == incoming
  }

  lemma {:induction false} RestoredField(fields: ConfigFields, stored: ConfigFields, key: string)
    ensures GetField(RestoreFields(fields, stored), key)
         == match GetField(fields, key)
            case None => None
            case Some(value) =>
              Some(if GetField(stored, key).Some? then Restore(value, GetField(stored, key).value) else value)
  {
    hide Restore;
    if fields.More? && fields.key != key { RestoredField(fields.rest, stored, key); }
  }

  /** Every value of an update stays where it is, and is saved against what was stored at the same path. */
  lemma {:induction false} RestoredInPlace(incoming: Config, stored: Config, path: Path)
    requires NodeAt(incoming, path).Some?
    ensures NodeAt(Restore(incoming, stored), path).Some?
    ensures SavedAs(NodeAt(incoming, path).value, NodeAt(stored, path), NodeAt(Restore(incoming, stored), path).value)
    decreases |path|
  {
    hide RestoreText;
    if path != [] {
      hide SavedAs;
      match path[0]
      case Index(i) =>
        if stored.Array? && i < |stored.items| {
          RestoredInPlace(incoming.items[i], stored.items[i], path[1..]);
        } else {
          NewIsKept(NodeAt(incoming, path).value);
        }
      case Key(k) =>
        var was := Get(stored, k);
        if stored.Object? { RestoredField(incoming.fields, stored.fields, k); }
        if was.Some? {
          RestoredInPlace(GetField(incoming.fields, k).value, was.value, path[1..]);
        } else {
          NewIsKept(NodeAt(incoming, path).value);
        }
    }
  }

  lemma NewIsKept(value: Config)
    ensures SavedAs(value, None, value)
  {
  }

  // ---------------------------------------------------------------- masking, then restoring

  /** Each pair whose shown value is the mask is the first of its key, or equal to the first. */
  predicate TextRestorable(t: Text, p: Policy) {
    t.Url? ==>
      forall i :: 0 <= i < |t.query| && (PairIsHidden(t.query[i], p) || t.query[i].1 == MASK) ==>
        FirstValue(t.query, t.query[i].0) == Some(t.query[i].1)
  }

  /** Every URL under a public key can have its query put back. */
  predicate Restorable(value: Config, key: Option<string>, list: seq<string>, p: Policy)
    decreases value
  {
    match value
    case Object(fields) => RestorableFields(fields, ListFor(key, list, p), p)
    case Array(items) => forall i :: 0 <= i < |items| ==> Restorable(items[i], key, list, p)
    case String(t) => IsPublicKey(key, list) ==> TextRestorable(t, p)
    case _ => true
  }

  predicate RestorableFields(fields: ConfigFields, list: seq<string>, p: Policy)
    decreases fields
  {
    match fields
    case End => true
    case More(key, value, rest) => Restorable(value, Some(key), list, p) && RestorableFields(rest, list, p)
  }

  predicate DistinctQueryKeys(t: Text) {
    t.Url? ==> forall i, j :: 0 <= i < j < |t.query| ==> t.query[i].0 != t.query[j].0
  }

  lemma {:induction false} FirstOfDistinct(query: seq<(string, string)>, i: nat)
    requires i < |query| && forall j :: 0 <= j < i ==> query[j].0 != query[i].0
    ensures FirstValue(query, query[i].0) == Some(query[i].1)
  {
    if i > 0 { FirstOfDistinct(query[1..], i - 1); }
  }

  /** Distinct query keys are enough. */
  lemma DistinctKeysAreRestorable(t: Text, p: Policy)
    requires DistinctQueryKeys(t)
    ensures TextRestorable(t, p)
  {
    if t.Url? {
      forall i | 0 <= i < |t.query| ensures FirstValue(t.query, t.query[i].0) == Some(t.query[i].1) {
        FirstOfDistinct(t.query, i);
      }
    }
  }

  lemma PairRoundTrip(pair: (string, string), query: seq<(string, string)>, p: Policy)
    requires pair in query
    ensures RestorePair(MaskPair(pair, p), query) == pair <==>
            (PairIsHidden(pair, p) || pair.1 == MASK ==> FirstValue(query, pair.0) == Some(pair.1))
  {
    hide IsPublic;
    KeyIsFound(query, pair);
  }

  lemma {:induction false} KeyIsFound(query: seq<(string, string)>, pair: (string, string))
    requires pair in query
    ensures FirstValue(query, pair.0).Some?
  {
    if query[0].0 != pair.0 { KeyIsFound(query[1..], pair); }
  }

  lemma TextRoundTrip(t: Text, p: Policy)
    requires t != Plain("")
    ensures Restore(String(MaskPublicText(t, p)), String(t)) == String(t) <==> TextRestorable(t, p)
  {
    hide HoldsCredential, PairIsHidden, MaskPair, FirstValue;
    if t.Url? {
      var back := RestorePairs(MaskPairs(t.query, p), t.query);
      assert Restore(String(MaskPublicText(t, p)), String(t)) == String(Url(t.rest, t.password, back));
      forall i | 0 <= i < |t.query|
        ensures back[i] == t.query[i] <==>
                (PairIsHidden(t.query[i], p) || t.query[i].1 == MASK ==>
                 FirstValue(t.query, t.query[i].0) == Some(t.query[i].1))
      {
        PairRoundTrip(t.query[i], t.query, p);
      }
      assert back == t.query <==> forall i :: 0 <= i < |t.query| ==> back[i] == t.query[i];
    }
  }

  /** Saving back what was shown loses nothing, exactly when every shown query can be put back. */
  lemma {:induction false} MaskRestoreRoundTrip(v: Config, key: Option<string>, list: seq<string>, p: Policy)
    requires WellFormed(v)
    ensures Restore(Mask(v, key, list, p), v) == v <==> Restorable(v, key, list, p)
    decreases v
  {
    hide IsPublicKey, TextRestorable, MaskPublicText, ListFor;
    match v
    case Object(fields) =>
      FieldsRoundTrip(fields, fields, ListFor(key, list, p), p);
    case Array(items) =>
      var back := RestoreItems(MaskItems(items, key, list, p), items);
      forall i | 0 <= i < |items|
        ensures back[i] == items[i] <==> Restorable(items[i], key, list, p)
      {
        MaskRestoreRoundTrip(items[i], key, list, p);
      }
    case String(t) =>
      if t == Plain("") {
        DistinctKeysAreRestorable(t, p);
      } else if IsPublicKey(key, list) {
        TextRoundTrip(t, p);
      }
    case _ =>
  }

  ghost predicate SameEntries(fields: ConfigFields, all: ConfigFields) {
    match fields
    case End => true
    case More(key, value, rest) => GetField(all, key) == Some(value) && SameEntries(rest, all)
  }

  lemma {:induction false} SameEntriesAfter(fields: ConfigFields, key: string, value: Config, all: ConfigFields)
    requires SameEntries(fields, all) && !HasKey(fields, key)
    ensures SameEntries(fields, More(key, value, all))
  {
    if fields.More? { SameEntriesAfter(fields.rest, key, value, all); }
  }

  lemma {:induction false} WellFormedSame(fields: ConfigFields)
    requires WellFormedFields(fields)
    ensures SameEntries(fields, fields)
  {
    if fields.More? {
      WellFormedSame(fields.rest);
      SameEntriesAfter(fields.rest, fields.key, fields.value, fields.rest);
    }
  }

  lemma {:induction false} FieldsRoundTrip(fields: ConfigFields, all: ConfigFields, list: seq<string>, p: Policy)
    requires WellFormedFields(fields) && (fields == all || SameEntries(fields, all))
    ensures RestoreFields(MaskFields(fields, list, p), all) == fields <==> RestorableFields(fields, list, p)
    decreases fields
  {
    if fields == all { WellFormedSame(fields); }
    match fields
    case End =>
    case More(key, value, rest) =>
      MaskRestoreRoundTrip(value, Some(key), list, p);
      FieldsRoundTrip(rest, all, list, p);
  }

  /** At the top: what `mask_config` shows, saved back unchanged, is the stored config. */
  lemma ConfigRoundTrip(config: Config, p: Policy)
    requires WellFormed(config)
    ensures Restore(MaskConfig(config, p), config) == config <==> Restorable(config, None, p.config, p)
  {
    MaskRestoreRoundTrip(config, None, p.config, p);
  }

  lemma UrlIsPublic()
    ensures IsPublic("url", PUBLIC_CONFIG_KEYS)
  {
    assert Lower("url") == "url";
    assert PUBLIC_CONFIG_KEYS[0] == "url";
  }

  lemma SigIsHidden()
    ensures !IsPublic("sig", PUBLIC_QUERY_KEYS)
  {
    hide IsSecretKey;
    assert Lower("sig") == "sig";
    forall i | 0 <= i < |PUBLIC_QUERY_KEYS| ensures PUBLIC_QUERY_KEYS[i] != "sig" {
      assert |PUBLIC_QUERY_KEYS[i]| == 3 ==> PUBLIC_QUERY_KEYS[i][1] == 's';
    }
  }

  const REPEATED: seq<(string, string)> := [("sig", "a"), ("sig", "b")]

  /** A config whose URL has a query key twice. */
  function RepeatedKey(query: seq<(string, string)>): Config {
    Object(More("url", String(Url("https://h/", None, query)), End))
  }

  /** With a repeated query key the second value is lost: both come back as the first. */
  lemma RepeatedKeyIsLost()
    ensures var p, stored := StormchaserPolicy(), RepeatedKey(REPEATED);
            Restore(MaskConfig(stored, p), stored) == RepeatedKey([("sig", "a"), ("sig", "a")])
            && RepeatedKey([("sig", "a"), ("sig", "a")]) != stored
  {
    UrlIsPublic();
    SigIsHidden();
    hide IsPublic;
    SecondValueIsLost(StormchaserPolicy());
    assert ("sig", "a") != REPEATED[1];
  }

  lemma SecondValueIsLost(p: Policy)
    requires IsPublic("url", p.config) && !IsPublic("sig", p.query)
    ensures Restore(MaskConfig(RepeatedKey(REPEATED), p), RepeatedKey(REPEATED))
         == RepeatedKey([("sig", "a"), ("sig", "a")])
  {
    hide IsPublic;
    var query := REPEATED;
    var masked := [("sig", MASK), ("sig", MASK)];
    var url: Config := String(Url("https://h/", None, query));
    var shown: Config := String(Url("https://h/", None, masked));
    assert PairIsHidden(query[0], p) && PairIsHidden(query[1], p);
    assert MaskPairs(query, p) == masked;
    assert Mask(url, Some("url"), p.config, p) == shown;
    assert MaskConfig(RepeatedKey(query), p) == RepeatedKey(masked);
    assert FirstValue(query, "sig") == Some("a");
    assert RestorePairs(masked, query) == [("sig", "a"), ("sig", "a")];
    assert RestoreText(shown.s, url.s) == Url("https://h/", None, [("sig", "a"), ("sig", "a")]);
    assert Restore(shown, url) == String(Url("https://h/", None, [("sig", "a"), ("sig", "a")]));
    var stored: ConfigFields := More("url", url, End);
    assert GetField(stored, "url") == Some(url);
    assert RestoreFields(More("url", shown, End), stored) == RepeatedKey([("sig", "a"), ("sig", "a")]).fields;
  }

  // ---------------------------------------------------------------- an edited masked form

  predicate MaskFreeText(t: Text) {
    match t
    case Plain(s) => s != MASK
    case Url(_, password, query) =>
      password != Some(MASK) && forall i :: 0 <= i < |query| ==> query[i].1 != MASK
  }

  predicate MaskFree(value: Config) {
    match value
    case String(t) => MaskFreeText(t)
    case Array(items) => forall i :: 0 <= i < |items| ==> MaskFree(items[i])
    case Object(fields) => MaskFreeFields(fields)
    case _ => true
  }

  predicate MaskFreeFields(fields: ConfigFields) {
    match fields
    case End => true
    case More(_, value, rest) => MaskFree(value) && MaskFreeFields(rest)
  }

  /** `edited` is `shown` with some leaves set to values, of any shape, that carry no mask. */
  predicate IsEditOf(edited: Config, shown: Config)
    decreases shown
  {
    match shown
    case Object(fields) => edited.Object? && IsEditOfFields(edited.fields, fields)
    case Array(items) =>
      edited.Array? && |edited.items| == |items|
      && forall i :: 0 <= i < |items| ==> IsEditOf(edited.items[i], items[i])
    case _ => edited == shown || MaskFree(edited)
  }

  predicate IsEditOfFields(edited: ConfigFields, shown: ConfigFields)
    decreases shown
  {
    match shown
    case End => edited == End
    case More(key, value, rest) =>
      edited.More? && edited.key == key && IsEditOf(edited.value, value) && IsEditOfFields(edited.rest, rest)
  }

  /** The edits, and everything else as stored. */
  function Expected(edited: Config, shown: Config, stored: Config): Config
    requires IsEditOf(edited, shown)
    decreases shown
  {
    match shown
    case Object(fields) =>
      if stored.Object? then Object(ExpectedFields(edited.fields, fields, stored.fields)) else edited
    case Array(items) =>
      if stored.Array? && |stored.items| == |items| then
        Array(seq(|items|, i requires 0 <= i < |items| => Expected(edited.items[i], items[i], stored.items[i])))
      else edited
    case _ => if edited == shown then stored else edited
  }

  function ExpectedFields(edited: ConfigFields, shown: ConfigFields, stored: ConfigFields): ConfigFields
    requires IsEditOfFields(edited, shown)
    decreases shown
  {
    match shown
    case End => End
    case More(key, value, rest) =>
      if stored.More? then
        More(key, Expected(edited.value, value, stored.value), ExpectedFields(edited.rest, rest, stored.rest))
      else edited
  }

  lemma MaskFreeIsKept(edited: Config, stored: Config)
    requires MaskFree(edited) && !stored.Object? && !stored.Array?
    ensures Restore(edited, stored) == edited
  {
    if edited.String? && stored.String? && edited.s.Url? && stored.s.Url? {
      assert RestorePairs(edited.s.query, stored.s.query) == edited.s.query;
    }
  }

  /** Saving an edited masked form gives the edits, with every other leaf as stored. */
  lemma {:induction false} EditedRestore(edited: Config, v: Config, key: Option<string>, list: seq<string>, p: Policy)
    requires WellFormed(v) && Restorable(v, key, list, p)
    requires IsEditOf(edited, Mask(v, key, list, p))
    ensures Restore(edited, v) == Expected(edited, Mask(v, key, list, p), v)
    decreases v
  {
    hide IsPublicKey, TextRestorable, MaskPublicText, ListFor, MaskFree;
    match v
    case Object(fields) =>
      WellFormedSame(fields);
      EditedFields(edited.fields, fields, fields, ListFor(key, list, p), p);
    case Array(items) =>
      forall i | 0 <= i < |items|
        ensures Restore(edited.items[i], items[i])
             == Expected(edited.items[i], MaskItems(items, key, list, p)[i], items[i])
      {
        EditedRestore(edited.items[i], items[i], key, list, p);
      }
    case _ =>
      if edited == Mask(v, key, list, p) {
        MaskRestoreRoundTrip(v, key, list, p);
      } else {
        MaskFreeIsKept(edited, v);
      }
  }

  lemma {:induction false} EditedFields(edited: ConfigFields, fields: ConfigFields, all: ConfigFields,
                                        list: seq<string>, p: Policy)
    requires WellFormedFields(fields) && SameEntries(fields, all) && RestorableFields(fields, list, p)
    requires IsEditOfFields(edited, MaskFields(fields, list, p))
    ensures RestoreFields(edited, all) == ExpectedFields(edited, MaskFields(fields, list, p), fields)
    decreases fields
  {
    match fields
    case End =>
    case More(key, value, rest) =>
      EditedRestore(edited.value, value, Some(key), list, p);
      EditedFields(edited.rest, rest, all, list, p);
  }

  // ---------------------------------------------------------------- what the masked form reveals

  /** Two strings under a public key that differ in credentials only. */
  predicate SameShownText(a: Text, b: Text, p: Policy) {
    match (a, b)
    case (Url(ra, pa, qa), Url(rb, pb, qb)) =>
      ra == rb && pa.Some? == pb.Some? && |qa| == |qb|
      && forall i :: 0 <= i < |qa| ==>
           qa[i] == qb[i] || (qa[i].0 == qb[i].0 && PairIsHidden(qa[i], p) && PairIsHidden(qb[i], p))
    case (Plain(sa), Plain(sb)) => sa == sb || (IsShownAsMask(sa) && IsShownAsMask(sb))
    case _ => false
  }

  predicate IsShownAsMask(s: string) { HoldsCredential(s) || s == MASK }

  /** A value that is masked whole under a key that is not public. */
  predicate IsSecretLeaf(value: Config) {
    value.Number? || (value.String? && value.s != Plain(""))
  }

  /** Two configs that differ in credentials only. */
  predicate SameShown(a: Config, b: Config, key: Option<string>, list: seq<string>, p: Policy)
    decreases a
  {
    match a
    case Object(fields) => b.Object? && SameShownFields(fields, b.fields, ListFor(key, list, p), p)
    case Array(items) =>
      b.Array? && |items| == |b.items|
      && forall i :: 0 <= i < |items| ==> SameShown(items[i], b.items[i], key, list, p)
    case String(t) =>
      a == b
      || (!IsPublicKey(key, list) && IsSecretLeaf(a) && IsSecretLeaf(b))
      || (IsPublicKey(key, list) && IsSecretLeaf(a) && IsSecretLeaf(b) && b.String? && SameShownText(t, b.s, p))
    case Number(_) => a == b || (!IsPublicKey(key, list) && IsSecretLeaf(b))
    case _ => a == b
  }

  predicate SameShownFields(a: ConfigFields, b: ConfigFields, list: seq<string>, p: Policy)
    decreases a
  {
    match a
    case End => b == End
    case More(key, value, rest) =>
      b.More? && b.key == key && SameShown(value, b.value, Some(key), list, p)
      && SameShownFields(rest, b.rest, list, p)
  }

  lemma SameShownTextMasksAlike(a: Text, b: Text, p: Policy)
    ensures MaskPublicText(a, p) == MaskPublicText(b, p) <==> SameShownText(a, b, p)
  {
    hide HoldsCredential, IsPublic;
    MaskIsNoCredential();
    if a.Url? && b.Url? && |a.query| == |b.query| {
      var ma, mb := MaskPairs(a.query, p), MaskPairs(b.query, p);
      assert ma == mb <==> forall i :: 0 <= i < |ma| ==> ma[i] == mb[i];
    }
  }

  /** Two configs have one masked form exactly if they differ in credentials only. */
  lemma {:induction false} MaskingHidesCredentials(a: Config, b: Config, key: Option<string>,
                                                   list: seq<string>, p: Policy)
    ensures Mask(a, key, list, p) == Mask(b, key, list, p) <==> SameShown(a, b, key, list, p)
    decreases a
  {
    hide IsPublicKey, ListFor, MaskPublicText, SameShownText;
    match a
    case Object(fields) =>
      if b.Object? { FieldsHideCredentials(fields, b.fields, ListFor(key, list, p), p); }
    case Array(items) =>
      if b.Array? && |b.items| == |items| { ItemsHideCredentials(items, b.items, key, list, p); }
    case String(t) =>
      if b.String? {
        SameShownTextMasksAlike(t, b.s, p);
        MaskTextIdempotent(t, p);
        MaskTextIdempotent(b.s, p);
      }
    case _ =>
  }

  lemma {:induction false} ItemsHideCredentials(a: seq<Config>, b: seq<Config>, key: Option<string>,
                                                list: seq<string>, p: Policy)
    requires |a| == |b|
    ensures MaskItems(a, key, list, p) == MaskItems(b, key, list, p)
       <==> forall i :: 0 <= i < |a| ==> SameShown(a[i], b[i], key, list, p)
    decreases a
  {
    hide SameShown, Mask;
    var ma, mb := MaskItems(a, key, list, p), MaskItems(b, key, list, p);
    forall i | 0 <= i < |a| ensures ma[i] == mb[i] <==> SameShown(a[i], b[i], key, list, p) {
      MaskingHidesCredentials(a[i], b[i], key, list, p);
    }
    assert ma == mb <==> forall i :: 0 <= i < |ma| ==> ma[i] == mb[i];
  }

  lemma {:induction false} FieldsHideCredentials(a: ConfigFields, b: ConfigFields, list: seq<string>, p: Policy)
    ensures MaskFields(a, list, p) == MaskFields(b, list, p) <==> SameShownFields(a, b, list, p)
    decreases a
  {
    match a
    case End =>
    case More(key, value, rest) =>
      if b.More? && b.key == key {
        MaskingHidesCredentials(value, b.value, Some(key), list, p);
        FieldsHideCredentials(rest, b.rest, list, p);
      }
  }

  lemma MaskIsNoCredential()
    ensures !HoldsCredential(MASK)
  {
    var parts := ["password=", "passwd=", "secret=", "token=", "pwd="];
    assert Lower(MASK) == MASK;
    forall k | 0 <= k < |parts| ensures !Holds(Lower(MASK), parts[k]) {
      assert parts[k][0] != '*';
      forall i ensures !StandsAt(MASK, parts[k], i) {
        if 0 <= i <= |MASK| - |parts[k]| { assert MASK[i..i + |parts[k]|][0] == '*'; }
      }
    }
  }

  lemma MaskTextIdempotent(t: Text, p: Policy)
    ensures MaskPublicText(MaskPublicText(t, p), p) == MaskPublicText(t, p)
    ensures t != Plain("") ==> MaskPublicText(t, p) != Plain("")
  {
    hide HoldsCredential, IsPublic;
    MaskIsNoCredential();
    if t.Url? {
      var once := MaskPairs(t.query, p);
      assert MaskPairs(once, p) == once;
    }
  }

  /** Masking what is masked changes nothing. */
  lemma {:induction false} MaskIdempotent(v: Config, key: Option<string>, list: seq<string>, p: Policy)
    ensures Mask(Mask(v, key, list, p), key, list, p) == Mask(v, key, list, p)
    decreases v
  {
    hide IsPublicKey, ListFor, MaskPublicText;
    match v
    case Object(fields) => FieldsIdempotent(fields, ListFor(key, list, p), p);
    case Array(items) =>
      var once := MaskItems(items, key, list, p);
      forall i | 0 <= i < |items| ensures Mask(once[i], key, list, p) == once[i] {
        MaskIdempotent(items[i], key, list, p);
      }
      assert MaskItems(once, key, list, p) == once;
    case String(t) => MaskTextIdempotent(t, p);
    case _ =>
  }

  lemma {:induction false} FieldsIdempotent(fields: ConfigFields, list: seq<string>, p: Policy)
    ensures MaskFields(MaskFields(fields, list, p), list, p) == MaskFields(fields, list, p)
    decreases fields
  {
    match fields
    case End =>
    case More(key, value, rest) =>
      MaskIdempotent(value, Some(key), list, p);
      FieldsIdempotent(rest, list, p);
  }
}
