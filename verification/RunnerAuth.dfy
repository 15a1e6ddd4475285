// What a runner's signature covers: the subject without its shard, the time and the payload.
// The MAC, its base64 form and JSON printing are parameters, taken to be injective.
module RunnerAuth {
  import opened Wrappers
  import opened OrderedMaps
  import Decimals

  // ---------------------------------------------------------------- subjects

  predicate Free(s: string, c: char) { c !in s }

  /** `split('.')`: always at least one part. */
  function Split(s: string): (parts: seq<string>)
    ensures parts != [] && forall i :: 0 <= i < |parts| ==> Free(parts[i], '.')
  {
    if s == "" then [""]
    else
      var rest := Split(s[1..]);
      if s[0] == '.' then [""] + rest else [[s[0]] + rest[0]] + rest[1..]
  }

  function Join(parts: seq<string>): string
    requires parts != []
  {
    if |parts| == 1 then parts[0] else parts[0] + "." + Join(parts[1..])
  }

  lemma {:induction false} SplitJoin(parts: seq<string>)
    requires parts != [] && forall i :: 0 <= i < |parts| ==> Free(parts[i], '.')
    ensures Split(Join(parts)) == parts
    decreases |parts|, |parts[0]|
  {
    var s := Join(parts);
    if parts[0] == "" {
      if |parts| > 1 {
        assert s == "." + Join(parts[1..]) && s[1..] == Join(parts[1..]);
        SplitJoin(parts[1..]);
        assert [""] + parts[1..] == parts;
      }
    } else {
      var fewer := [parts[0][1..]] + parts[1..];
      assert fewer[1..] == parts[1..];
      assert s[0] == parts[0][0] && s[0] != '.';
      assert s[1..] == Join(fewer);
      SplitJoin(fewer);
      assert [s[0]] + fewer[0] == parts[0];
    }
  }

  /** `parse::<u32>().is_ok()`: digits, after a plus sign if there is one, in 32 bits. */
  predicate IsU32(s: string) {
    var digits := if s != "" && s[0] == '+' then s[1..] else s;
    Decimals.Parse(digits).Some? && Decimals.Parse(digits).value <= 0xffff_ffff
  }

  predicate IsShard(part: string) { part == "global" || IsU32(part) }

  function Normalize(subject: string): string {
    var parts := Split(subject);
    if |parts| > 3 && IsShard(parts[2]) then Join(parts[..2] + parts[3..]) else subject
  }

  /** A shard follows the shard. */
  predicate TwoShards(subject: string) {
    var parts := Split(subject);
    |parts| > 4 && IsShard(parts[2]) && IsShard(parts[3])
  }

  lemma NormalizedParts(subject: string)
    ensures var parts := Split(subject);
            Split(Normalize(subject)) == if |parts| > 3 && IsShard(parts[2]) then parts[..2] + parts[3..] else parts
  {
    hide Split, Join;
    var parts := Split(subject);
    if |parts| > 3 && IsShard(parts[2]) { SplitJoin(parts[..2] + parts[3..]); }
  }

  /** Normalising twice is normalising once, except where one shard follows another. */
  lemma NormalizeIsIdempotent(subject: string)
    ensures Normalize(Normalize(subject)) == Normalize(subject) <==> !TwoShards(subject)
  {
    hide Split, Join, IsShard;
    NormalizedParts(subject);
    NormalizedParts(Normalize(subject));
  }

  /** `a.b.1.2.c` loses a shard each time. */
  lemma TwoShardsAreTakenInTurn()
    ensures var subject := Join(["a", "b", "1", "2", "c"]);
            Normalize(subject) == Join(["a", "b", "2", "c"]) && Normalize(Normalize(subject)) == Join(["a", "b", "c"])
  {
    hide Split, Join;
    SplitJoin(["a", "b", "1", "2", "c"]);
    SplitJoin(["a", "b", "2", "c"]);
    assert Decimals.Parse("1") == Some(1) && Decimals.Parse("2") == Some(2);
    assert ["a", "b", "1", "2", "c"][..2] + ["a", "b", "1", "2", "c"][3..] == ["a", "b", "2", "c"];
    assert ["a", "b", "2", "c"][..2] + ["a", "b", "2", "c"][3..] == ["a", "b", "c"];
  }

  // ---------------------------------------------------------------- generated subjects

  datatype Kind =
    | RunQueued
    | RunStartPending
    | RunDirect
    | RunRunning
    | RunCompleted
    | RunFailed
    | RunAborted
    | StepScheduled(stepType: string)
    | StepInitializing
    | StepRunning
    | StepCompleted
    | StepFailed
    | StepQuery
    | StepUnpackingSfs
    | StepPackingSfs

  datatype Subject =
    | Sharded(kind: Kind, shard: Option<nat>)
    | RunnerRegister
    | RunnerHeartbeat
    | RunnerOffline
    | RunnerCancel

  /** The parts after the shard. A step type, in lower case, may hold dots of its own. */
  function Tail(kind: Kind): seq<string> {
    match kind
    case RunQueued => ["run", "queued"]
    case RunStartPending => ["run", "start_pending"]
    case RunDirect => ["run", "direct"]
    case RunRunning => ["run", "running"]
    case RunCompleted => ["run", "completed"]
    case RunFailed => ["run", "failed"]
    case RunAborted => ["run", "aborted"]
    case StepScheduled(stepType) => ["step", "scheduled"] + Split(stepType)
    case StepInitializing => ["step", "initializing"]
    case StepRunning => ["step", "running"]
    case StepCompleted => ["step", "completed"]
    case StepFailed => ["step", "failed"]
    case StepQuery => ["step", "query"]
    case StepUnpackingSfs => ["step", "unpacking_sfs"]
    case StepPackingSfs => ["step", "packing_sfs"]
  }

  function ShardText(shard: Option<nat>): string {
    match shard
    case Some(id) => Decimals.Print(id)
    case None => "global"
  }

  function Parts(subject: Subject): seq<string> {
    match subject
    case Sharded(kind, shard) => ["stormchaser", "v1", ShardText(shard)] + Tail(kind)
    case RunnerRegister => ["stormchaser", "v1", "global", "runner", "register"]
    case RunnerHeartbeat => ["stormchaser", "v1", "global", "runner", "heartbeat"]
    case RunnerOffline => ["stormchaser", "v1", "global", "runner", "offline"]
    case RunnerCancel => ["stormchaser", "v1", "runner", "cancel"]
  }

  function AsStr(subject: Subject): string { Join(Parts(subject)) }

  predicate IsSubject(subject: Subject) {
    subject.Sharded? && subject.shard.Some? ==> subject.shard.value <= 0xffff_ffff
  }

  /** What the engine routes on: no shard in it. */
  function Route(subject: Subject): (r: seq<string>)
    ensures r != []
  {
    match subject
    case Sharded(kind, _) => ["stormchaser", "v1"] + Tail(kind)
    case RunnerRegister => ["stormchaser", "v1", "runner", "register"]
    case RunnerHeartbeat => ["stormchaser", "v1", "runner", "heartbeat"]
    case RunnerOffline => ["stormchaser", "v1", "runner", "offline"]
    case RunnerCancel => ["stormchaser", "v1", "runner", "cancel"]
  }

  function NormalizeTimes(subject: string, n: nat): string
    decreases n
  {
    if n == 0 then subject else NormalizeTimes(Normalize(subject), n - 1)
  }

  lemma ShardTextIsShard(shard: Option<nat>)
    requires shard.Some? ==> shard.value <= 0xffff_ffff
    ensures IsShard(ShardText(shard)) && Free(ShardText(shard), '.')
  {
    if shard.Some? {
      Decimals.ParsePrint(shard.value);
      var text := Decimals.Print(shard.value);
      assert Decimals.IsDigit(text[0]);
    }
  }

  lemma WordsAreNoShards()
    ensures !IsShard("run") && !IsShard("step") && !IsShard("runner")
  {
  }

  lemma TailFacts(kind: Kind)
    ensures |Tail(kind)| >= 2 && Tail(kind)[0] in {"run", "step"}
    ensures forall i :: 0 <= i < |Tail(kind)| ==> Free(Tail(kind)[i], '.')
  {
    hide Split;
  }

  lemma SubjectParts(subject: Subject)
    requires IsSubject(subject)
    ensures Split(AsStr(subject)) == Parts(subject) && Split(Join(Route(subject))) == Route(subject)
  {
    hide Split, Join, Tail, IsShard, ShardText;
    if subject.Sharded? {
      TailFacts(subject.kind);
      ShardTextIsShard(subject.shard);
    }
    SplitJoin(Parts(subject));
    SplitJoin(Route(subject));
  }

  lemma RoutesStay(subject: Subject)
    requires IsSubject(subject)
    ensures Normalize(AsStr(subject)) == Join(Route(subject)) && Normalize(Join(Route(subject))) == Join(Route(subject))
  {
    hide Split, Join, Tail, IsShard, ShardText;
    SubjectParts(subject);
    WordsAreNoShards();
    GlobalIsShard();
    var parts := Parts(subject);
    if subject.Sharded? {
      TailFacts(subject.kind);
      ShardTextIsShard(subject.shard);
      assert parts[..2] + parts[3..] == Route(subject);
    } else if !subject.RunnerCancel? {
      assert parts[..2] + parts[3..] == Route(subject);
    }
  }

  lemma GlobalIsShard()
    ensures IsShard("global")
  {
  }

  /** Every generated subject, normalised once or more, is its route, whatever its shard. */
  lemma {:induction false} GeneratedSubjectsNormalize(subject: Subject, n: nat)
    requires IsSubject(subject) && n > 0
    ensures NormalizeTimes(AsStr(subject), n) == Join(Route(subject))
  {
    hide Join, Route, Normalize;
    RoutesStay(subject);
    StayedNormalized(Join(Route(subject)), n - 1);
  }

  lemma {:induction false} StayedNormalized(s: string, n: nat)
    requires Normalize(s) == s
    ensures NormalizeTimes(s, n) == s
  {
    if n > 0 { StayedNormalized(s, n - 1); }
  }

  lemma {:induction false} JoinSplit(s: string)
    ensures Join(Split(s)) == s
  {
    if s != "" {
      JoinSplit(s[1..]);
      var rest := Split(s[1..]);
      if s[0] == '.' {
        assert ([""] + rest)[1..] == rest;
        assert "" + "." + Join(rest) == s;
      } else {
        var parts := [[s[0]] + rest[0]] + rest[1..];
        assert parts[1..] == rest[1..];
        if |rest| > 1 { assert [s[0]] + rest[0] + "." + Join(rest[1..]) == [s[0]] + (rest[0] + "." + Join(rest[1..])); }
      }
    }
  }

  /** What tells the tails apart: whether it is a run's, the length of the second part and how that begins. */
  function Mark(kind: Kind): (bool, nat, char) {
    match kind
    case RunQueued => (true, 6, 'q')
    case RunStartPending => (true, 13, 's')
    case RunDirect => (true, 6, 'd')
    case RunRunning => (true, 7, 'r')
    case RunCompleted => (true, 9, 'c')
    case RunFailed => (true, 6, 'f')
    case RunAborted => (true, 7, 'a')
    case StepScheduled(_) => (false, 9, 's')
    case StepInitializing => (false, 12, 'i')
    case StepRunning => (false, 7, 'r')
    case StepCompleted => (false, 9, 'c')
    case StepFailed => (false, 6, 'f')
    case StepQuery => (false, 5, 'q')
    case StepUnpackingSfs => (false, 13, 'u')
    case StepPackingSfs => (false, 11, 'p')
  }

  lemma TailIsMarked(kind: Kind)
    ensures |Tail(kind)| >= 2 && Tail(kind)[1] != ""
    ensures Mark(kind) == (|Tail(kind)[0]| == 3, |Tail(kind)[1]|, Tail(kind)[1][0])
    ensures |Tail(kind)[0]| == 3 || |Tail(kind)[0]| == 4
  {
    hide Split;
  }

  lemma TailsAreDistinct(a: Kind, b: Kind)
    requires Tail(a) == Tail(b)
    ensures a == b
  {
    TailIsMarked(a);
    TailIsMarked(b);
    if a.StepScheduled? && b.StepScheduled? {
      hide Split, Mark;
      assert Tail(a)[2..] == Split(a.stepType) && Tail(b)[2..] == Split(b.stepType);
      JoinSplit(a.stepType);
      JoinSplit(b.stepType);
    } else {
      hide Tail;
    }
  }

  /** The third part of a route, and the length of the fourth where it is a runner's. */
  lemma RouteIsMarked(subject: Subject)
    ensures var r := Route(subject);
            |r| >= 4 && (subject.Sharded? <==> |r[2]| != 6)
            && (!subject.Sharded? ==> |r[3]| == match subject case RunnerRegister => 8 case RunnerHeartbeat => 9
                                                              case RunnerOffline => 7 case _ => 6)
    ensures subject.Sharded? ==> Route(subject)[2..] == Tail(subject.kind)
  {
    if subject.Sharded? {
      TailIsMarked(subject.kind);
      hide Tail;
    }
  }

  /** Subjects of different kinds never have one route, so a signature for one kind is none for another. */
  lemma RoutesAreDistinct(a: Subject, b: Subject)
    requires IsSubject(a) && IsSubject(b) && Normalize(AsStr(a)) == Normalize(AsStr(b))
    ensures if a.Sharded? then b.Sharded? && a.kind == b.kind else a == b
  {
    hide Split, Join, Tail, Route, Parts, Normalize;
    RoutesStay(a);
    RoutesStay(b);
    SubjectParts(a);
    SubjectParts(b);
    assert Route(a) == Route(b);
    RouteIsMarked(a);
    RouteIsMarked(b);
    if a.Sharded? && b.Sharded? { TailsAreDistinct(a.kind, b.kind); }
  }

  lemma {:induction false} ParsedAreDigits(s: string)
    requires Decimals.Parse(s).Some?
    ensures s != "" && forall i :: 0 <= i < |s| ==> '0' <= s[i] <= '9'
  {
    if |s| > 1 { ParsedAreDigits(s[..|s| - 1]); }
  }

  /**
    A number is a shard exactly if it fits 32 bits, with a plus sign or without; and a shard is
    `global` or has nothing but digits after its sign.
   */
  lemma ShardsAre(n: nat, part: string)
    ensures IsShard(Decimals.Print(n)) <==> n <= 4294967295
    ensures IsShard("+" + Decimals.Print(n)) <==> n <= 4294967295
    ensures IsShard(part) && part != "global" ==>
              part != "" && (part[0] == '+' || '0' <= part[0] <= '9')
              && forall i :: 0 < i < |part| ==> '0' <= part[i] <= '9'
  {
    Decimals.ParsePrint(n);
    var text := Decimals.Print(n);
    assert Decimals.IsDigit(text[0]);
    assert ("+" + text)[1..] == text;
    assert text != "global" by { if |text| == 6 { assert Decimals.IsDigit(text[0]) && "global"[0] == 'g'; } }
    assert "+" + text != "global" by { assert ("+" + text)[0] == '+' && "global"[0] == 'g'; }
    if IsU32(part) {
      var digits := if part != "" && part[0] == '+' then part[1..] else part;
      ParsedAreDigits(digits);
      assert part != "" && part[0] == '+' ==> forall i :: 0 < i < |part| ==> part[i] == digits[i - 1];
    }
  }

  // ---------------------------------------------------------------- payloads

  /** A JSON value; an object's entries are in order, no key twice. */
  datatype Value =
    | Null
    | Bool(b: bool)
    | Number(n: int)
    | String(s: string)
    | Array(items: seq<Value>)
    | Object(entries: Entries<Value>)

  const SIGNATURE_FIELD := "runner_signature"
  const MAC_DOMAIN := "stormchaser runner message v2"
  const MAX_SIGNATURE_AGE_SECS := 300

  function Get(value: Value, key: string): Option<Value> {
    if value.Object? then Lookup(value.entries, key) else None
  }

  // ---------------------------------------------------------------- signing

  datatype Crypto<!K, !M> = Crypto(
    mac: (K, string) -> M,
    encode: M -> string,
    decode: string -> Option<M>,
    show: Value -> string)

  /** MACs and printed payloads are never equal by accident, and base64 decodes to what was encoded. */
  ghost predicate Ideal<K(!new), M(!new)>(w: Crypto<K, M>) {
    && (forall k, bytes, k', bytes' :: w.mac(k, bytes) == w.mac(k', bytes') ==> k == k' && bytes == bytes')
    && (forall m :: w.decode(w.encode(m)) == Some(m))
    && (forall v, v' :: w.show(v) == w.show(v') ==> v == v')
  }

  function SignedBytes<K, M>(w: Crypto<K, M>, subject: string, signedAt: int, payload: Value): string {
    MAC_DOMAIN + "\n" + Normalize(subject) + "\n" + Decimals.PrintInt(signedAt) + "\n" + w.show(payload)
  }

  function Sign<K, M>(w: Crypto<K, M>, payload: Value, key: K, subject: string, now: int): Value {
    if !payload.Object? then payload
    else
      var unsigned := Remove(payload.entries, SIGNATURE_FIELD);
      var mac := w.mac(key, SignedBytes(w, subject, now, Object(unsigned)));
      Object(Insert(unsigned, SIGNATURE_FIELD, Object([("signed_at", Number(now)), ("mac", String(w.encode(mac)))])))
  }

  datatype Verdict = Accepted | NotAnObject | NotSigned | NoTime | NoMac | NotBase64 | WrongTime | WrongMac

  function AsI64(value: Option<Value>): Option<int> {
    if value.Some? && value.value.Number? && -0x8000_0000_0000_0000 <= value.value.n < 0x8000_0000_0000_0000
    then Some(value.value.n) else None
  }

  function Verify<K, M(==)>(w: Crypto<K, M>, payload: Value, key: K, subject: string, publishedAt: int): Verdict {
    if !payload.Object? then NotAnObject
    else
      var signature := Get(payload, SIGNATURE_FIELD);
      if signature.None? then NotSigned
      else
        var signedAt, mac := AsI64(Get(signature.value, "signed_at")), Get(signature.value, "mac");
        if signedAt.None? then NoTime
        else if mac.None? || !mac.value.String? then NoMac
        else
          var given := w.decode(mac.value.s);
          if given.None? then NotBase64
          else if publishedAt - signedAt.value > MAX_SIGNATURE_AGE_SECS
               || signedAt.value - publishedAt > MAX_SIGNATURE_AGE_SECS then WrongTime
          else
            var unsigned := Remove(payload.entries, SIGNATURE_FIELD);
            if given.value == w.mac(key, SignedBytes(w, subject, signedAt.value, Object(unsigned))) then Accepted
            else WrongMac
  }

  // ---------------------------------------------------------------- what a signature means

  /** Up to the first newline, text determines what stands before and after it. */
  lemma FirstLineIsKnown(a: string, b: string, rest: string, rest': string)
    requires Free(a, '\n') && Free(b, '\n') && a + "\n" + rest == b + "\n" + rest'
    ensures a == b && rest == rest'
  {
    var s := a + "\n" + rest;
    FirstNewline(a, rest);
    FirstNewline(b, rest');
    assert |a| == |b|;
    assert a == s[..|a|] == b && rest == s[|a| + 1..] == rest';
  }

  lemma FirstNewline(a: string, rest: string)
    requires Free(a, '\n')
    ensures (a + "\n" + rest)[|a|] == '\n' && forall i :: 0 <= i < |a| ==> (a + "\n" + rest)[i] != '\n'
  {
    assert forall i :: 0 <= i < |a| ==> (a + "\n" + rest)[i] == a[i];
  }

  lemma {:induction false} JoinFree(parts: seq<string>, c: char)
    requires parts != [] && c != '.' && forall i :: 0 <= i < |parts| ==> Free(parts[i], c)
    ensures Free(Join(parts), c)
    decreases |parts|
  {
    if |parts| > 1 { JoinFree(parts[1..], c); }
  }

  lemma {:induction false} SplitFree(s: string, c: char)
    requires Free(s, c)
    ensures forall i :: 0 <= i < |Split(s)| ==> Free(Split(s)[i], c)
  {
    if s != "" { SplitFree(s[1..], c); }
  }

  lemma NormalizeFree(subject: string)
    requires Free(subject, '\n')
    ensures Free(Normalize(subject), '\n')
  {
    hide Split, Join, Free, IsShard;
    SplitFree(subject, '\n');
    var parts := Split(subject);
    if |parts| > 3 && IsShard(parts[2]) { JoinFree(parts[..2] + parts[3..], '\n'); }
  }

  lemma TimeFree(t: int)
    ensures Free(Decimals.PrintInt(t), '\n')
  {
    Decimals.PrintIntChars(t);
  }

  function Lines(domain: string, subject: string, time: string, rest: string): string {
    domain + "\n" + (subject + "\n" + (time + "\n" + rest))
  }

  lemma LinesAreKnown(d: string, s: string, t: string, r: string, s': string, t': string, r': string)
    requires Free(d, '\n') && Free(s, '\n') && Free(t, '\n') && Free(s', '\n') && Free(t', '\n')
    requires Lines(d, s, t, r) == Lines(d, s', t', r')
    ensures s == s' && t == t' && r == r'
  {
    FirstLineIsKnown(d, d, s + "\n" + (t + "\n" + r), s' + "\n" + (t' + "\n" + r'));
    FirstLineIsKnown(s, s', t + "\n" + r, t' + "\n" + r');
    FirstLineIsKnown(t, t', r, r');
  }

  lemma SignedBytesAreLines<K, M>(w: Crypto<K, M>, subject: string, t: int, payload: Value)
    ensures SignedBytes(w, subject, t, payload)
         == Lines(MAC_DOMAIN, Normalize(subject), Decimals.PrintInt(t), w.show(payload))
  {
    hide Normalize, Decimals.PrintInt;
  }

  /** The signed bytes determine the normalised subject, the time and the payload. */
  lemma SignedBytesAreUnambiguous<K(!new), M(!new)>(w: Crypto<K, M>,
      s: string, t: int, payload: Value, s': string, t': int, payload': Value)
    requires Ideal(w) && Free(s, '\n') && Free(s', '\n')
    ensures SignedBytes(w, s, t, payload) == SignedBytes(w, s', t', payload')
       <==> Normalize(s) == Normalize(s') && t == t' && payload == payload'
  {
    if SignedBytes(w, s, t, payload) == SignedBytes(w, s', t', payload') {
      SignedBytesAreLines(w, s, t, payload);
      SignedBytesAreLines(w, s', t', payload');
      NormalizeFree(s);
      NormalizeFree(s');
      TimeFree(t);
      TimeFree(t');
      hide SignedBytes, Normalize, Lines, Free;
      DomainFree();
      LinesAreKnown(MAC_DOMAIN, Normalize(s), Decimals.PrintInt(t), w.show(payload),
                    Normalize(s'), Decimals.PrintInt(t'), w.show(payload'));
      Decimals.PrintIntInjective(t, t');
    }
  }

  lemma DomainFree()
    ensures Free(MAC_DOMAIN, '\n')
  {
  }

  /** At most five minutes apart. */
  predicate InTime(t: int, t': int) { -300 <= t' - t <= 300 }

  /** What a signed object carries. */
  lemma SignedFields<K, M>(w: Crypto<K, M>, payload: Value, key: K, subject: string, now: int)
    requires payload.Object? && Distinct(payload.entries)
    ensures var unsigned := Object(Remove(payload.entries, SIGNATURE_FIELD));
            var signed := Sign(w, payload, key, subject, now);
            signed.Object? && Remove(signed.entries, SIGNATURE_FIELD) == unsigned.entries
            && Get(signed, SIGNATURE_FIELD) == Some(Object([("signed_at", Number(now)),
                 ("mac", String(w.encode(w.mac(key, SignedBytes(w, subject, now, unsigned)))))]))
  {
    hide SignedBytes, Remove;
    RemoveTakesAway(payload.entries, SIGNATURE_FIELD);
    var unsigned := Object(Remove(payload.entries, SIGNATURE_FIELD));
    var mac := w.mac(key, SignedBytes(w, subject, now, unsigned));
    var signature := Object([("signed_at", Number(now)), ("mac", String(w.encode(mac)))]);
    InsertThenRemove(unsigned.entries, SIGNATURE_FIELD, signature);
    InsertThenLookup(unsigned.entries, SIGNATURE_FIELD, signature, SIGNATURE_FIELD);
  }

  lemma SignatureFields(now: int, mac: string)
    ensures var signature := Object([("signed_at", Number(now)), ("mac", String(mac))]);
            Get(signature, "signed_at") == Some(Number(now)) && Get(signature, "mac") == Some(String(mac))
  {
    var entries := [("signed_at", Number(now)), ("mac", String(mac))];
    assert |entries[0].0| != |"mac"|;
    assert IndexOf(entries, "mac") == 1;
  }

  /**
    A payload signed for one subject at one time verifies on another exactly with the same key,
    where the subjects normalise alike and the times are at most five minutes apart.
   */
  lemma SignThenVerify<K(!new), M(!new)>(w: Crypto<K, M>, payload: Value,
      key: K, subject: string, now: int, key': K, subject': string, publishedAt: int)
    requires Ideal(w) && payload.Object? && Distinct(payload.entries)
    requires Free(subject, '\n') && Free(subject', '\n') && AsI64(Some(Number(now))).Some?
    ensures Verify(w, Sign(w, payload, key, subject, now), key', subject', publishedAt) == Accepted
       <==> key == key' && Normalize(subject) == Normalize(subject') && InTime(now, publishedAt)
  {
    var unsigned := Object(Remove(payload.entries, SIGNATURE_FIELD));
    SignedFields(w, payload, key, subject, now);
    SignatureFields(now, w.encode(w.mac(key, SignedBytes(w, subject, now, unsigned))));
    SignedBytesAreUnambiguous(w, subject, now, unsigned, subject', now, unsigned);
    hide SignedBytes, Sign, Get, Remove, Normalize, Free;
  }

  /** Whatever verifies holds exactly the fields, subject and time its MAC was made for. */
  lemma AcceptedIsWhatWasSigned<K(!new), M(!new)>(w: Crypto<K, M>, received: Value, key: K, subject: string,
      publishedAt: int, signature: Value, key': K, subject': string, signedAt: int, unsigned: Value)
    requires Ideal(w) && Free(subject, '\n') && Free(subject', '\n')
    requires Verify(w, received, key, subject, publishedAt) == Accepted
    requires Get(received, SIGNATURE_FIELD) == Some(signature)
    requires Get(signature, "mac") == Some(String(w.encode(w.mac(key', SignedBytes(w, subject', signedAt, unsigned)))))
    ensures key == key' && Normalize(subject) == Normalize(subject')
    ensures Get(signature, "signed_at") == Some(Number(signedAt)) && InTime(signedAt, publishedAt)
    ensures received.Object? && Object(Remove(received.entries, SIGNATURE_FIELD)) == unsigned
  {
    var rest := Object(Remove(received.entries, SIGNATURE_FIELD));
    var time := Get(signature, "signed_at").value.n;
    SignedBytesAreUnambiguous(w, subject, time, rest, subject', signedAt, unsigned);
    hide SignedBytes, Get, Remove, Normalize, Free;
  }

  /** Signing again leaves no trace of the first signature; what is not an object is never signed. */
  lemma SigningReplaces<K, M>(w: Crypto<K, M>, payload: Value, key: K, subject: string, now: int,
      key': K, subject': string, now': int)
    requires payload.Object? ==> Distinct(payload.entries)
    ensures Sign(w, Sign(w, payload, key, subject, now), key', subject', now') == Sign(w, payload, key', subject', now')
  {
    if payload.Object? {
      SignedFields(w, payload, key, subject, now);
      hide SignedBytes, Remove, Insert;
    }
  }

  /** Why a message is refused. */
  lemma RefusedBecause<K, M>(w: Crypto<K, M>, payload: Value, key: K, subject: string, publishedAt: int)
    ensures var verdict := Verify(w, payload, key, subject, publishedAt);
            var signature := Get(payload, "runner_signature");
            var time := if signature.Some? then AsI64(Get(signature.value, "signed_at")) else None;
            && (verdict == NotAnObject <==> !payload.Object?)
            && (verdict == NotSigned <==> payload.Object? && signature.None?)
            && (verdict == NoTime <==> signature.Some? && time.None?)
            && (verdict == WrongTime ==> time.Some? && !InTime(time.value, publishedAt))
            && (verdict == Accepted || verdict == WrongMac ==> time.Some? && InTime(time.value, publishedAt))
  {
    hide SignedBytes, Remove, Lookup;
  }
}
