// Any number of API replicas drawing tokens from one client's bucket, kept in a store that
// updates by revision: each request reads, takes a token, and writes only if nothing was
// written since, trying again up to six times before it is let through uncounted.
module RateLimiter {
  import opened Wrappers
  import opened TokenBucket

  /** What has happened to the stored bucket, in the order the store applied it. */
  datatype Event = Wrote(now: int, allowed: bool) | Forgot(now: int)

  datatype Entry = Missing | Stored(raw: string, revision: nat)

  /** Where a request stands in its loop. */
  datatype Phase =
    | Trying(retries: nat)
    | Holding(retries: nat, current: Option<Bucket>, revision: nat)
    | Ready(retries: nat, current: Option<Bucket>, revision: nat, now: int)
    | Decided(allowed: bool, at: int)
    | FailedOpen

  datatype State = State(entry: Entry, lastRevision: nat, requests: map<nat, Phase>, log: seq<Event>)

  datatype Step =
    | Arrive(id: nat)
    | Read(id: nat)
    | ReadError(id: nat)
    | Compute(id: nat, now: int)
    | Update(id: nat)
    | UpdateError(id: nat)
    | UpdateUnanswered(id: nat)
    | GiveUp(id: nat)
    | Expire(now: int)

  const MAX_RETRIES := 5

  function Revision(entry: Entry): nat {
    match entry case Missing => 0 case Stored(_, revision) => revision
  }

  /** A bucket that cannot be read counts as none. */
  function Current(entry: Entry): Option<Bucket> {
    match entry case Missing => None case Stored(raw, _) => Decode(raw)
  }

  predicate In(s: State, id: nat) { id in s.requests }

  function With(s: State, id: nat, phase: Phase): State { s.(requests := s.requests[id := phase]) }

  /** The store applies the write of a request that is ready, at a new revision. */
  function Written(s: State, r: Phase, limits: Limits): State
    requires r.Ready?
  {
    var (bucket, allowed) := TakeToken(r.current, r.now, limits);
    s.(entry := Stored(Encode(bucket), s.lastRevision + 1), lastRevision := s.lastRevision + 1,
       log := s.log + [Wrote(r.now, allowed)])
  }

  /** When the bucket was last written, if it is there. */
  function LastWrite(log: seq<Event>): Option<int> {
    if log == [] || log[|log| - 1].Forgot? then None else Some(log[|log| - 1].now)
  }

  predicate Init(s: State) {
    s == State(Missing, 0, map[], [])
  }

  predicate Next(s: State, s': State, step: Step, limits: Limits) {
    match step
    case Arrive(id) => !In(s, id) && s' == With(s, id, Trying(0))
    case Read(id) =>
      In(s, id) && s.requests[id].Trying? && s.requests[id].retries <= MAX_RETRIES
      && s' == With(s, id, Holding(s.requests[id].retries, Current(s.entry), Revision(s.entry)))
    case ReadError(id) =>
      In(s, id) && s.requests[id].Trying? && s' == With(s, id, FailedOpen)
    case Compute(id, now) =>
      In(s, id) && s.requests[id].Holding? && IsI64(now)
      && s' == With(s, id, Ready(s.requests[id].retries, s.requests[id].current, s.requests[id].revision, now))
    case Update(id) =>
      In(s, id) && s.requests[id].Ready?
      && (var r := s.requests[id];
          s' == if Revision(s.entry) == r.revision
                then With(Written(s, r, limits), id, Decided(TakeToken(r.current, r.now, limits).1, r.now))
                else With(s, id, Trying(r.retries + 1)))
    case UpdateError(id) =>
      In(s, id) && s.requests[id].Ready? && s' == With(s, id, Trying(s.requests[id].retries + 1))
    case UpdateUnanswered(id) =>
      In(s, id) && s.requests[id].Ready? && Revision(s.entry) == s.requests[id].revision
      && s' == With(Written(s, s.requests[id], limits), id, Trying(s.requests[id].retries + 1))
    case GiveUp(id) =>
      In(s, id) && s.requests[id].Trying? && s.requests[id].retries > MAX_RETRIES
      && s' == With(s, id, FailedOpen)
    case Expire(now) =>
      s.entry.Stored? && LastWrite(s.log).Some? && now - LastWrite(s.log).value >= MAX_AGE_MS
      && s' == s.(entry := Missing, log := s.log + [Forgot(now)])
  }

  ghost predicate Linked(s: State, s': State, limits: Limits) {
    exists step :: Next(s, s', step, limits)
  }

  /** A run: states joined by steps, from a store without the client's bucket. */
  ghost predicate IsRun(run: seq<State>, limits: Limits) {
    run != [] && Init(run[0])
    && forall i :: 0 < i < |run| ==> Linked(run[i - 1], run[i], limits)
  }

  // ---------------------------------------------------------------- one after another

  /** The bucket an event leaves. */
  function Apply(bucket: Option<Bucket>, e: Event, limits: Limits): Option<Bucket> {
    match e
    case Forgot(_) => None
    case Wrote(now, _) => Some(TakeToken(bucket, now, limits).0)
  }

  /** The event is one a single process could add: its own decision, or an idle hour's forgetting. */
  predicate Follows(bucket: Option<Bucket>, last: Option<int>, e: Event, limits: Limits) {
    match e
    case Wrote(now, allowed) => allowed == TakeToken(bucket, now, limits).1
    case Forgot(now) => last.Some? && now - last.value >= MAX_AGE_MS
  }

  /** The bucket after the events, as one process applying them in order would have it. */
  function Replay(log: seq<Event>, limits: Limits): Option<Bucket> {
    if log == [] then None
    else Apply(Replay(log[..|log| - 1], limits), log[|log| - 1], limits)
  }

  /** The events are those of one process handling one request after another. */
  predicate Sequential(log: seq<Event>, limits: Limits) {
    log == []
    || (var before := log[..|log| - 1];
        Sequential(before, limits)
        && Follows(Replay(before, limits), LastWrite(before), log[|log| - 1], limits))
  }

  lemma ReplayAppend(log: seq<Event>, e: Event, limits: Limits)
    ensures Replay(log + [e], limits) == Apply(Replay(log, limits), e, limits)
    ensures Sequential(log + [e], limits)
            <==> Sequential(log, limits) && Follows(Replay(log, limits), LastWrite(log), e, limits)
  {
    assert (log + [e])[..|log + [e]| - 1] == log;
  }

  // ---------------------------------------------------------------- every run is sequential

  /** What a request read is the bucket still, as long as the revision it read is the entry's. */
  predicate Fresh(s: State, phase: Phase, limits: Limits) {
    (phase.Ready? ==> IsI64(phase.now)) && (phase.Trying? ==> phase.retries <= MAX_RETRIES + 1)
    && (phase.Holding? || phase.Ready? ==>
          phase.revision <= s.lastRevision
          && phase.retries <= MAX_RETRIES
          && (phase.revision == 0 ==> phase.current == None)
          && (phase.revision == Revision(s.entry) ==> phase.current == Replay(s.log, limits)))
  }

  predicate EntryInv(s: State, limits: Limits) {
    && Revision(s.entry) <= s.lastRevision
    && (s.entry.Stored? ==> s.entry.revision > 0)
    && Current(s.entry) == Replay(s.log, limits)
    && (s.entry.Missing? ==> Replay(s.log, limits).None?)
    && Sequential(s.log, limits)
    && InRange(Replay(s.log, limits), limits)
  }

  predicate Inv(s: State, limits: Limits) {
    EntryInv(s, limits) && forall id :: id in s.requests ==> Fresh(s, s.requests[id], limits)
  }

  lemma TakenNow(bucket: Option<Bucket>, now: int, limits: Limits)
    ensures TakeToken(bucket, now, limits).0.updatedMs == now
  {
  }

  /** An applied write keeps the invariant, whatever becomes of its request. */
  lemma WriteKeepsInv(s: State, id: nat, after: Phase, limits: Limits)
    requires Inv(s, limits) && In(s, id) && s.requests[id].Ready? && Revision(s.entry) == s.requests[id].revision
    requires after.Decided? || after == Trying(s.requests[id].retries + 1)
    ensures Inv(With(Written(s, s.requests[id], limits), id, after), limits)
  {
    hide TakeToken, Decode, Encode, Replay, Sequential, IsI64;
    var r := s.requests[id];
    assert Fresh(s, r, limits);
    var (bucket, allowed) := TakeToken(r.current, r.now, limits);
    ReplayAppend(s.log, Wrote(r.now, allowed), limits);
    TakeTokenInRange(Replay(s.log, limits), r.now, limits);
    TakenNow(r.current, r.now, limits);
    DecodeEncode(bucket);
  }

  lemma RetryKeepsInv(s: State, id: nat, limits: Limits)
    requires Inv(s, limits) && In(s, id) && s.requests[id].Ready?
    ensures Inv(With(s, id, Trying(s.requests[id].retries + 1)), limits)
  {
    hide TakeToken, Decode, Encode, Replay, Sequential, IsI64;
    assert Fresh(s, s.requests[id], limits);
  }

  lemma UpdateKeepsInv(s: State, s': State, id: nat, limits: Limits)
    requires Inv(s, limits) && Next(s, s', Update(id), limits)
    ensures Inv(s', limits)
  {
    hide TakeToken, Written, Inv;
    if Revision(s.entry) == s.requests[id].revision {
      WriteKeepsInv(s, id, s'.requests[id], limits);
    } else {
      RetryKeepsInv(s, id, limits);
    }
  }

  lemma ExpireKeepsInv(s: State, s': State, now: int, limits: Limits)
    requires Inv(s, limits) && Next(s, s', Expire(now), limits)
    ensures Inv(s', limits)
  {
    hide TakeToken, Decode, Encode, Replay, Sequential, IsI64;
    ReplayAppend(s.log, Forgot(now), limits);
  }

  lemma NextKeepsInv(s: State, s': State, step: Step, limits: Limits)
    requires Inv(s, limits) && Next(s, s', step, limits)
    ensures Inv(s', limits)
  {
    hide TakeToken, Decode, Encode, Replay, Sequential, IsI64;
    match step
    case Update(id) => UpdateKeepsInv(s, s', id, limits);
    case UpdateUnanswered(id) => WriteKeepsInv(s, id, s'.requests[id], limits);
    case UpdateError(id) => RetryKeepsInv(s, id, limits);
    case Expire(now) => ExpireKeepsInv(s, s', now, limits);
    case _ =>
  }

  /**
    However the replicas' reads and writes interleave, the writes that succeed are those of
    one process handling one request after another.
   */
  lemma {:induction false} RunsAreSequential(run: seq<State>, limits: Limits, i: nat)
    requires IsRun(run, limits) && i < |run|
    ensures Inv(run[i], limits)
    ensures Sequential(run[i].log, limits)
  {
    if i == 0 {
    } else {
      hide Next;
      RunsAreSequential(run, limits, i - 1);
      assert Linked(run[i - 1], run[i], limits);
      var step :| Next(run[i - 1], run[i], step, limits);
      NextKeepsInv(run[i - 1], run[i], step, limits);
    }
  }

  // ---------------------------------------------------------------- how many are let through

  predicate Counts(e: Event, t1: int, t2: int) {
    e.Wrote? && e.allowed && t1 <= e.now <= t2
  }

  /** The requests admitted by a write whose time lies in `[t1, t2]`. */
  function Admitted(log: seq<Event>, t1: int, t2: int): nat {
    if log == [] then 0
    else Admitted(log[..|log| - 1], t1, t2) + (if Counts(log[|log| - 1], t1, t2) then 1 else 0)
  }

  /** The clock never goes back from one event to the next. */
  predicate InOrder(log: seq<Event>) {
    forall i, j :: 0 <= i < j < |log| ==> log[i].now <= log[j].now
  }

  function Tokens(bucket: Option<Bucket>, limits: Limits): int {
    match bucket case None => Full(limits) case Some(b) => b.tokens
  }

  /** The thousandths that come back in `ms` milliseconds. */
  function Earned(ms: int, limits: Limits): int { ms * limits.perSecond }

  lemma EarnedSum(a: int, b: int, limits: Limits)
    requires 0 <= a && 0 <= b
    ensures Earned(a + b, limits) == Earned(a, limits) + Earned(b, limits)
    ensures 0 <= Earned(a, limits) && 0 <= Earned(b, limits)
  {
  }

  lemma EarnedInAnHour(ms: int, limits: Limits)
    requires ms >= MAX_AGE_MS && limits.burst <= 3600 * limits.perSecond
    ensures Earned(ms, limits) >= Full(limits)
  {
    HourRefills(ms, limits);
  }

  lemma TopUpBound(bucket: Option<Bucket>, last: int, now: int, limits: Limits)
    requires bucket.Some? ==> bucket.value.updatedMs == last
    requires last <= now
    ensures TopUp(bucket, now, limits) <= Tokens(bucket, limits) + Earned(now - last, limits)
    ensures TopUp(bucket, now, limits) <= Full(limits)
  {
  }

  lemma {:induction false} ReplayTime(log: seq<Event>, limits: Limits)
    requires log != [] && Replay(log, limits).Some?
    ensures Replay(log, limits).value.updatedMs == log[|log| - 1].now
  {
  }

  lemma {:induction false} ReplayInRange(log: seq<Event>, limits: Limits)
    ensures InRange(Replay(log, limits), limits)
  {
    hide TakeToken;
    if log != [] {
      ReplayInRange(log[..|log| - 1], limits);
      TakeTokenInRange(Replay(log[..|log| - 1], limits), log[|log| - 1].now, limits);
    }
  }

  lemma {:induction false} NoneBefore(log: seq<Event>, t1: int, t2: int)
    requires forall i :: 0 <= i < |log| ==> log[i].now < t1
    ensures Admitted(log, t1, t2) == 0
  {
    if log != [] { NoneBefore(log[..|log| - 1], t1, t2); }
  }

  /** A decision spends what it grants: one request costs a thousand thousandths. */
  lemma DecisionSpends(bucket: Option<Bucket>, now: int, limits: Limits)
    ensures var (b, allowed) := TakeToken(bucket, now, limits);
            (if allowed then 1000 else 0) + b.tokens == TopUp(bucket, now, limits)
  {
  }

  /** Requests admitted since `t1` and tokens left never exceed the burst and what time brought. */
  ghost predicate Potential(log: seq<Event>, t1: int, limits: Limits) {
    log != [] && t1 <= log[|log| - 1].now ==>
      1000 * Admitted(log, t1, log[|log| - 1].now) + Tokens(Replay(log, limits), limits)
      <= Full(limits) + Earned(log[|log| - 1].now - t1, limits)
  }

  lemma {:induction false} SameCount(log: seq<Event>, t1: int, t2: int, t3: int)
    requires t2 <= t3 && forall i :: 0 <= i < |log| ==> log[i].now <= t2
    ensures Admitted(log, t1, t2) == Admitted(log, t1, t3)
  {
    if log != [] { SameCount(log[..|log| - 1], t1, t2, t3); }
  }

  lemma OrderedUpTo(before: seq<Event>, e: Event)
    requires before != [] && InOrder(before + [e])
    ensures before[|before| - 1].now <= e.now
    ensures forall i :: 0 <= i < |before| ==> before[i].now <= before[|before| - 1].now
  {
    var log := before + [e];
    assert log[|before|] == e && log[|before| - 1] == before[|before| - 1];
    forall i | 0 <= i < |before| ensures before[i].now <= before[|before| - 1].now {
      assert log[i] == before[i];
    }
  }

  /** What was admitted up to the last event, and the tokens left then. */
  function Spent(log: seq<Event>, t1: int, limits: Limits): int
    requires log != []
  {
    1000 * Admitted(log, t1, log[|log| - 1].now) + Tokens(Replay(log, limits), limits)
  }

  lemma TokensInRange(log: seq<Event>, limits: Limits)
    ensures 0 <= Tokens(Replay(log, limits), limits) <= Full(limits)
  {
    ReplayInRange(log, limits);
  }

  /** A decision spends at most what came back since the last event. */
  lemma SpentByWrite(before: seq<Event>, e: Event, t1: int, limits: Limits)
    requires before != [] && e.Wrote? && t1 <= before[|before| - 1].now
    requires InOrder(before + [e])
    requires e.allowed == TakeToken(Replay(before, limits), e.now, limits).1
    ensures Spent(before + [e], t1, limits)
         <= Spent(before, t1, limits) + Earned(e.now - before[|before| - 1].now, limits)
  {
    hide TakeToken, TopUp, Replay, Admitted, Earned, Full, InOrder;
    var last := before[|before| - 1].now;
    OrderedUpTo(before, e);
    ReplayAppend(before, e, limits);
    AdmittedAppend(before, e, t1, e.now);
    SameCount(before, t1, last, e.now);
    if Replay(before, limits).Some? { ReplayTime(before, limits); }
    TopUpBound(Replay(before, limits), last, e.now, limits);
    DecisionSpends(Replay(before, limits), e.now, limits);
  }

  /** Forgetting fills the bucket, with no more than the idle hour would have brought back. */
  lemma SpentByForgetting(before: seq<Event>, e: Event, t1: int, limits: Limits)
    requires before != [] && e.Forgot? && t1 <= before[|before| - 1].now
    requires InOrder(before + [e])
    requires e.now - before[|before| - 1].now >= MAX_AGE_MS
    requires limits.burst <= 3600 * limits.perSecond
    ensures Spent(before + [e], t1, limits)
         <= Spent(before, t1, limits) + Earned(e.now - before[|before| - 1].now, limits)
  {
    hide TakeToken, TopUp, Replay, Admitted, Earned, Full, InOrder;
    var last := before[|before| - 1].now;
    OrderedUpTo(before, e);
    ReplayAppend(before, e, limits);
    AdmittedAppend(before, e, t1, e.now);
    SameCount(before, t1, last, e.now);
    TokensInRange(before, limits);
    EarnedInAnHour(e.now - last, limits);
  }

  /** One more event keeps the potential, when the event before it is in the window too. */
  lemma PotentialStep(before: seq<Event>, e: Event, t1: int, limits: Limits)
    requires before != [] && InOrder(before + [e]) && t1 <= before[|before| - 1].now
    requires Sequential(before + [e], limits)
    requires limits.burst <= 3600 * limits.perSecond
    requires Potential(before, t1, limits)
    ensures Potential(before + [e], t1, limits)
  {
    hide TakeToken, Replay, Sequential, Admitted, Tokens, Earned, Full, InOrder;
    OrderedUpTo(before, e);
    EarnedSum(before[|before| - 1].now - t1, e.now - before[|before| - 1].now, limits);
    ReplayAppend(before, e, limits);
    if e.Forgot? {
      SpentByForgetting(before, e, t1, limits);
    } else {
      SpentByWrite(before, e, t1, limits);
    }
  }

  lemma AdmittedAppend(before: seq<Event>, e: Event, t1: int, t2: int)
    ensures Admitted(before + [e], t1, t2)
         == Admitted(before, t1, t2) + (if Counts(e, t1, t2) then 1 else 0)
  {
    assert (before + [e])[..|before + [e]| - 1] == before;
  }

  /** The first event of the window starts from a bucket that is at most full. */
  lemma PotentialStart(before: seq<Event>, e: Event, t1: int, limits: Limits)
    requires InOrder(before + [e]) && t1 <= e.now
    requires before != [] ==> before[|before| - 1].now < t1
    requires Sequential(before + [e], limits)
    ensures Potential(before + [e], t1, limits)
  {
    hide TakeToken, TopUp, Replay, Sequential, Admitted, Earned, Full;
    var log := before + [e];
    assert log[|log| - 1] == e;
    ReplayAppend(before, e, limits);
    AdmittedAppend(before, e, t1, e.now);
    forall i | 0 <= i < |before| ensures before[i].now < t1 {
      assert log[i] == before[i] && log[|before| - 1] == before[|before| - 1];
      assert log[i].now <= log[|before| - 1].now || i == |before| - 1;
    }
    NoneBefore(before, t1, e.now);
    ReplayInRange(before, limits);
    EarnedSum(e.now - t1, 0, limits);
    if e.Wrote? {
      DecisionSpends(Replay(before, limits), e.now, limits);
      TopUpAtMostFull(Replay(before, limits), e.now, limits);
    }
  }

  lemma TopUpAtMostFull(bucket: Option<Bucket>, now: int, limits: Limits)
    ensures TopUp(bucket, now, limits) <= Full(limits)
  {
  }

  lemma InOrderPrefix(log: seq<Event>)
    requires log != [] && InOrder(log)
    ensures InOrder(log[..|log| - 1])
  {
  }

  lemma {:induction false} PotentialHolds(log: seq<Event>, t1: int, limits: Limits)
    requires Sequential(log, limits) && InOrder(log) && limits.burst <= 3600 * limits.perSecond
    ensures Potential(log, t1, limits)
  {
    hide Potential, Replay;
    if log != [] && t1 <= log[|log| - 1].now {
      var before, e := log[..|log| - 1], log[|log| - 1];
      assert log == before + [e];
      InOrderPrefix(log);
      PotentialHolds(before, t1, limits);
      if before != [] && t1 <= before[|before| - 1].now {
        PotentialStep(before, e, t1, limits);
      } else {
        PotentialStart(before, e, t1, limits);
      }
    } else {
      PotentialOfEarlier(log, t1, limits);
    }
  }

  lemma PotentialOfEarlier(log: seq<Event>, t1: int, limits: Limits)
    requires log != [] ==> log[|log| - 1].now < t1
    ensures Potential(log, t1, limits)
  {
  }

  /** `a` requests within the burst and what the window brings back. */
  predicate WithinLimits(admitted: nat, t1: int, t2: int, limits: Limits) {
    1000 * admitted <= Full(limits) + Earned(t2 - t1, limits)
  }

  lemma {:induction false} WindowBound(log: seq<Event>, t1: int, t2: int, limits: Limits)
    requires Sequential(log, limits) && InOrder(log) && limits.burst <= 3600 * limits.perSecond
    requires t1 <= t2
    ensures WithinLimits(Admitted(log, t1, t2), t1, t2, limits)
  {
    hide Replay, Earned, Full;
    if log == [] {
      EarnedSum(t2 - t1, 0, limits);
      assert Full(limits) >= 0 by { TakeTokenInRange(None, 0, limits); }
    } else {
      var before, e := log[..|log| - 1], log[|log| - 1];
      if e.now > t2 || e.now < t1 {
        InOrderPrefix(log);
        WindowBound(before, t1, t2, limits);
      } else {
        PotentialHolds(log, t1, limits);
        SameCount(log, t1, e.now, t2);
        TokensInRange(log, limits);
        EarnedSum(e.now - t1, t2 - e.now, limits);
      }
    }
  }

  // ---------------------------------------------------------------- nothing earned is lost

  /** All requests admitted by writes. */
  function AllAdmitted(log: seq<Event>): nat {
    if log == [] then 0
    else AllAdmitted(log[..|log| - 1]) + (if log[|log| - 1].Wrote? && log[|log| - 1].allowed then 1 else 0)
  }

  /** The event is a write, no earlier than the last event, that finds the bucket short of the burst. */
  predicate IsShort(before: seq<Event>, e: Event, limits: Limits) {
    e.Wrote? && before != [] && before[|before| - 1].Wrote? && before[|before| - 1].now <= e.now
    && Tokens(Replay(before, limits), limits) + Earned(e.now - before[|before| - 1].now, limits) <= Full(limits)
  }

  lemma ShortWriteSpends(before: seq<Event>, e: Event, limits: Limits)
    requires IsShort(before, e, limits) && Sequential(before + [e], limits)
    ensures 1000 * AllAdmitted(before + [e]) + Tokens(Replay(before + [e], limits), limits)
         == 1000 * AllAdmitted(before) + Tokens(Replay(before, limits), limits)
            + Earned(e.now - before[|before| - 1].now, limits)
  {
    hide TakeToken, Replay, Sequential, AllAdmitted;
    var last := before[|before| - 1].now;
    ReplayAppend(before, e, limits);
    AllAdmittedAppend(before, e);
    LastWriteIsStored(before, limits);
    ReplayTime(before, limits);
    DecisionSpends(Replay(before, limits), e.now, limits);
    TopUpBy(Replay(before, limits).value, e.now - last, limits);
  }

  lemma AllAdmittedAppend(before: seq<Event>, e: Event)
    ensures AllAdmitted(before + [e]) == AllAdmitted(before) + if e.Wrote? && e.allowed then 1 else 0
  {
    assert (before + [e])[..|before|] == before;
  }

  /**
    From any write on, as long as the bucket is short of the burst and nothing is forgotten, every
    thousandth that time brings is a token left or an admission.
   */
  lemma {:induction false} TokensAreConserved(log: seq<Event>, k: nat, limits: Limits)
    requires Sequential(log, limits) && 0 < k <= |log|
    requires forall i :: k <= i < |log| ==> IsShort(log[..i], log[i], limits)
    ensures 1000 * (AllAdmitted(log) - AllAdmitted(log[..k])) + Tokens(Replay(log, limits), limits)
         == Tokens(Replay(log[..k], limits), limits) + Earned(log[|log| - 1].now - log[k - 1].now, limits)
    decreases |log|
  {
    hide TakeToken, Replay, AllAdmitted, Tokens, IsShort;
    if k == |log| {
      assert log[..k] == log;
      EarnedSum(0, 0, limits);
    } else {
      var before, e := log[..|log| - 1], log[|log| - 1];
      assert log == before + [e] && log[..|log| - 1] == before;
      assert IsShort(before, e, limits);
      forall i | k <= i < |before| ensures IsShort(before[..i], before[i], limits) {
        assert before[..i] == log[..i];
      }
      TokensAreConserved(before, k, limits);
      assert before[..k] == log[..k];
      ShortWriteSpends(before, e, limits);
      EarnedParts(before[|before| - 1].now - log[k - 1].now, e.now - before[|before| - 1].now, limits);
    }
  }

  lemma EarnedParts(a: int, b: int, limits: Limits)
    ensures Earned(a, limits) + Earned(b, limits) == Earned(a + b, limits)
  {
  }

  /** Each write comes at least a token's worth of time after the event before it. */
  predicate Spaced(log: seq<Event>, limits: Limits) {
    forall i :: 0 < i < |log| && log[i].Wrote? ==> Earned(log[i].now - log[i - 1].now, limits) >= 1000
  }

  /** Whoever asks no faster than the rate is never refused. */
  lemma SpacedWritesAreAllowed(log: seq<Event>, limits: Limits, i: nat)
    requires Sequential(log, limits) && Spaced(log, limits) && limits.burst >= 1 && i < |log| && log[i].Wrote?
    ensures log[i].allowed
  {
    hide Replay;
    SequentialAt(log, limits, i);
    var bucket := Replay(log[..i], limits);
    ReplayInRange(log[..i], limits);
    if bucket.Some? {
      EmptyHistory(limits);
      assert log[..i] != [];
      ReplayTime(log[..i], limits);
      assert Earned(log[i].now - log[i - 1].now, limits) >= 1000;
      EarnedSign(log[i].now - log[i - 1].now, limits);
      TopUpBy(bucket.value, log[i].now - log[i - 1].now, limits);
    }
    TakeIsAllowed(bucket, log[i].now, limits);
  }

  lemma EarnedSign(ms: int, limits: Limits)
    requires Earned(ms, limits) >= 1000
    ensures ms >= 0
  {
    assert ms <= 0 ==> ms * limits.perSecond <= 0;
  }

  /** A request is let through exactly if there is a whole token. */
  lemma TakeIsAllowed(bucket: Option<Bucket>, now: int, limits: Limits)
    ensures TakeToken(bucket, now, limits).1 <==> TopUp(bucket, now, limits) >= 1000
  {
  }

  lemma {:induction false} SequentialAt(log: seq<Event>, limits: Limits, i: nat)
    requires Sequential(log, limits) && i < |log| && log[i].Wrote?
    ensures log[i].allowed == TakeToken(Replay(log[..i], limits), log[i].now, limits).1
    decreases |log|
  {
    hide TakeToken, Replay;
    if i < |log| - 1 {
      SequentialAt(log[..|log| - 1], limits, i);
      assert log[..|log| - 1][..i] == log[..i];
    }
  }

  // ---------------------------------------------------------------- requests and writes

  predicate IsGranted(phase: Phase, t1: int, t2: int) { phase.Decided? && phase.allowed && t1 <= phase.at <= t2 }

  /** The requests let through by a write of their own in `[t1, t2]`. */
  function Granted(s: State, t1: int, t2: int): set<nat> {
    set id | id in s.requests && IsGranted(s.requests[id], t1, t2)
  }

  lemma GrantedOverStep(s: State, s': State, step: Step, limits: Limits, t1: int, t2: int)
    requires Next(s, s', step, limits)
    ensures |Granted(s', t1, t2)| - |Granted(s, t1, t2)| <= Admitted(s'.log, t1, t2) - Admitted(s.log, t1, t2)
  {
    hide TakeToken, Encode, Admitted;
    var before, after := Granted(s, t1, t2), Granted(s', t1, t2);
    if step.Update? && s'.requests[step.id].Decided? {
      var e := s'.log[|s.log|];
      AdmittedAppend(s.log, e, t1, t2);
      assert after == before + if Counts(e, t1, t2) then {step.id} else {};
    } else {
      if s'.log != s.log { AdmittedAppend(s.log, s'.log[|s.log|], t1, t2); }
      assert after == before;
    }
  }

  /** Every request let through by a write is one of the admissions the log counts. */
  lemma {:induction false} GrantedAreAdmitted(run: seq<State>, limits: Limits, i: nat, t1: int, t2: int)
    requires IsRun(run, limits) && i < |run|
    ensures |Granted(run[i], t1, t2)| <= Admitted(run[i].log, t1, t2)
  {
    if i == 0 {
      assert Granted(run[0], t1, t2) == {};
    } else {
      hide Next;
      GrantedAreAdmitted(run, limits, i - 1, t1, t2);
      assert Linked(run[i - 1], run[i], limits);
      var step :| Next(run[i - 1], run[i], step, limits);
      GrantedOverStep(run[i - 1], run[i], step, limits, t1, t2);
    }
  }

  /** Over every run and every window: the burst, and what the window brings back. */
  lemma RunsStayWithinLimits(run: seq<State>, limits: Limits, i: nat, t1: int, t2: int)
    requires IsRun(run, limits) && i < |run| && InOrder(run[i].log) && t1 <= t2
    requires limits.burst <= 3600 * limits.perSecond
    ensures WithinLimits(Admitted(run[i].log, t1, t2), t1, t2, limits)
    ensures WithinLimits(|Granted(run[i], t1, t2)|, t1, t2, limits)
  {
    hide Admitted;
    RunsAreSequential(run, limits, i);
    GrantedAreAdmitted(run, limits, i, t1, t2);
    WindowBound(run[i].log, t1, t2, limits);
  }

  /** A decided request was decided by a write in the log. */
  lemma {:induction false} DecisionsAreLogged(run: seq<State>, limits: Limits, i: nat, id: nat)
    requires IsRun(run, limits) && i < |run| && id in run[i].requests && run[i].requests[id].Decided?
    ensures Wrote(run[i].requests[id].at, run[i].requests[id].allowed) in run[i].log
  {
    if i > 0 {
      assert Linked(run[i - 1], run[i], limits);
      var step :| Next(run[i - 1], run[i], step, limits);
      DecisionOverStep(run[i - 1], run[i], step, limits, id);
      hide Next;
      if id in run[i - 1].requests && run[i - 1].requests[id].Decided? {
        DecisionsAreLogged(run, limits, i - 1, id);
      }
    }
  }

  lemma DecisionOverStep(s: State, s': State, step: Step, limits: Limits, id: nat)
    requires Next(s, s', step, limits) && id in s'.requests && s'.requests[id].Decided?
    ensures s.log <= s'.log
    ensures (id in s.requests && s.requests[id] == s'.requests[id])
            || Wrote(s'.requests[id].at, s'.requests[id].allowed) in s'.log
  {
    hide TakeToken, Encode;
  }

  /** Over every run whose writes come no faster than the rate, every request the limiter decides on is let through. */
  lemma SpacedRequestsAreAdmitted(run: seq<State>, limits: Limits, i: nat, id: nat)
    requires IsRun(run, limits) && i < |run| && Spaced(run[i].log, limits) && limits.burst >= 1
    requires id in run[i].requests && run[i].requests[id].Decided?
    ensures run[i].requests[id].allowed
  {
    hide Next, IsRun, Spaced, Sequential;
    RunsAreSequential(run, limits, i);
    DecisionsAreLogged(run, limits, i, id);
    var log := run[i].log;
    var k :| 0 <= k < |log| && log[k] == Wrote(run[i].requests[id].at, run[i].requests[id].allowed);
    SpacedWritesAreAllowed(log, limits, k);
  }

  // ---------------------------------------------------------------- a clock that goes back

  /** How far the clock has gone back, all in all. */
  function Back(log: seq<Event>): nat {
    if |log| < 2 then 0
    else Back(log[..|log| - 1]) + Max(log[|log| - 2].now - log[|log| - 1].now, 0)
  }

  /** The event at a later time. */
  function Moved(e: Event, shift: int): (r: Event)
    ensures r.now == e.now + shift && r.Wrote? == e.Wrote? && (e.Wrote? ==> r.allowed == e.allowed)
  {
    match e case Wrote(now, allowed) => Wrote(now + shift, allowed) case Forgot(now) => Forgot(now + shift)
  }

  /** The same events by a clock that stands still where theirs goes back. */
  function Straight(log: seq<Event>): (r: seq<Event>)
    ensures |r| == |log|
  {
    if log == [] then [] else Straight(log[..|log| - 1]) + [Moved(log[|log| - 1], Back(log))]
  }

  lemma BackAppend(before: seq<Event>, e: Event)
    ensures Back(before + [e])
         == Back(before) + if before == [] then 0 else Max(before[|before| - 1].now - e.now, 0)
    ensures before == [] ==> Back(before) == 0
  {
    assert (before + [e])[..|before|] == before;
  }

  lemma StraightAppend(before: seq<Event>, e: Event)
    ensures Straight(before + [e]) == Straight(before) + [Moved(e, Back(before + [e]))]
    ensures before != [] ==> Straight(before)[|before| - 1] == Moved(before[|before| - 1], Back(before))
  {
    hide Back, Moved;
    assert (before + [e])[..|before|] == before;
  }

  /** The bucket by the other clock. */
  function Later(bucket: Option<Bucket>, shift: int): Option<Bucket> {
    match bucket case None => None case Some(b) => Some(b.(updatedMs := b.updatedMs + shift))
  }

  /** A decision goes by the time since the last one only. */
  lemma TakeLater(bucket: Option<Bucket>, last: int, now: int, shift: nat, limits: Limits)
    requires bucket.Some? ==> bucket.value.updatedMs == last
    ensures var later := shift + Max(last - now, 0);
            TakeToken(Later(bucket, shift), now + later, limits).1 == TakeToken(bucket, now, limits).1
            && Some(TakeToken(Later(bucket, shift), now + later, limits).0)
               == Later(Some(TakeToken(bucket, now, limits).0), later)
  {
    var later := shift + Max(last - now, 0);
    assert bucket.Some? ==> Max(now + later - (last + shift), 0) == Max(now - last, 0);
  }

  lemma {:induction false} StraightIsSequential(log: seq<Event>, limits: Limits)
    requires Sequential(log, limits)
    ensures Sequential(Straight(log), limits) && Replay(Straight(log), limits) == Later(Replay(log, limits), Back(log))
  {
    if log != [] {
      hide TakeToken, Back, Straight, Replay, Moved;
      var before, e := log[..|log| - 1], log[|log| - 1];
      assert log == before + [e];
      StraightIsSequential(before, limits);
      BackAppend(before, e);
      StraightAppend(before, e);
      ReplayAppend(before, e, limits);
      ReplayAppend(Straight(before), Straight(log)[|before|], limits);
      if before == [] {
        EmptyHistory(limits);
        TakeLater(None, e.now, e.now, 0, limits);
      } else {
        var last := before[|before| - 1].now;
        if Replay(before, limits).Some? { ReplayTime(before, limits); }
        TakeLater(Replay(before, limits), last, e.now, Back(before), limits);
      }
    } else {
      EmptyHistory(limits);
    }
  }

  lemma {:induction false} StraightIsInOrder(log: seq<Event>)
    ensures InOrder(Straight(log))
  {
    if log != [] {
      hide Back, Straight, Moved;
      var before, e := log[..|log| - 1], log[|log| - 1];
      assert log == before + [e];
      StraightIsInOrder(before);
      BackAppend(before, e);
      StraightAppend(before, e);
    }
  }

  lemma {:induction false} StraightCounts(log: seq<Event>, t1: int, t2: int, shift: nat)
    requires Back(log) <= shift
    ensures Admitted(log, t1, t2) <= Admitted(Straight(log), t1, t2 + shift)
  {
    if log != [] {
      hide Admitted, Back, Straight, Moved;
      var before, e := log[..|log| - 1], log[|log| - 1];
      assert log == before + [e];
      BackAppend(before, e);
      StraightAppend(before, e);
      StraightCounts(before, t1, t2, shift);
      AdmittedAppend(before, e, t1, t2);
      AdmittedAppend(Straight(before), Straight(log)[|before|], t1, t2 + shift);
    } else {
      NoneBefore([], t1, t2);
    }
  }

  /**
    Whatever the clock does: what a window admits goes over the burst and what the window brings
    back by no more than the time the clock went back would bring.
   */
  lemma DriftBound(log: seq<Event>, t1: int, t2: int, limits: Limits)
    requires Sequential(log, limits) && limits.burst <= 3600 * limits.perSecond && t1 <= t2
    ensures WithinLimits(Admitted(log, t1, t2), t1, t2 + Back(log), limits)
  {
    hide Replay, Sequential, Admitted, Earned, Full;
    StraightIsSequential(log, limits);
    StraightIsInOrder(log);
    StraightCounts(log, t1, t2, Back(log));
    WindowBound(Straight(log), t1, t2 + Back(log), limits);
  }

  /** So over every run, for the requests let through by a write. */
  lemma RunsStayWithinDrift(run: seq<State>, limits: Limits, i: nat, t1: int, t2: int)
    requires IsRun(run, limits) && i < |run| && t1 <= t2
    requires limits.burst <= 3600 * limits.perSecond
    ensures WithinLimits(|Granted(run[i], t1, t2)|, t1, t2 + Back(run[i].log), limits)
  {
    hide Admitted, Back, Sequential;
    RunsAreSequential(run, limits, i);
    GrantedAreAdmitted(run, limits, i, t1, t2);
    DriftBound(run[i].log, t1, t2, limits);
  }

  // ---------------------------------------------------------------- the bound is exact

  predicate Timed(log: seq<Event>) {
    forall i :: 0 <= i < |log| ==> IsI64(log[i].now)
  }

  function Last(run: seq<State>): State
    requires run != []
  {
    run[|run| - 1]
  }

  lemma Extend(run: seq<State>, s': State, step: Step, limits: Limits)
    requires IsRun(run, limits) && Next(Last(run), s', step, limits)
    ensures IsRun(run + [s'], limits) && Last(run + [s']) == s'
  {
    var longer := run + [s'];
    forall i | 0 < i < |longer| ensures Linked(longer[i - 1], longer[i], limits) {
      if i < |run| {
        assert longer[i - 1] == run[i - 1] && longer[i] == run[i];
      } else {
        assert longer[i - 1] == Last(run);
      }
    }
  }

  /** One request of one replica, with nobody in between. */
  lemma ExtendByRequest(run: seq<State>, id: nat, now: int, limits: Limits) returns (longer: seq<State>)
    requires IsRun(run, limits) && id !in Last(run).requests && IsI64(now)
    ensures IsRun(longer, limits)
    ensures Last(longer).requests.Keys == Last(run).requests.Keys + {id}
    ensures Last(longer).log
         == Last(run).log + [Wrote(now, TakeToken(Replay(Last(run).log, limits), now, limits).1)]
  {
    hide TakeToken, Decode, Encode, Replay, Sequential, IsI64;
    var s := Last(run);
    RunsAreSequential(run, limits, |run| - 1);
    var s1 := With(s, id, Trying(0));
    Extend(run, s1, Arrive(id), limits);
    var s2 := With(s1, id, Holding(0, Current(s.entry), Revision(s.entry)));
    Extend(run + [s1], s2, Read(id), limits);
    var s3 := With(s2, id, Ready(0, Current(s.entry), Revision(s.entry), now));
    Extend(run + [s1] + [s2], s3, Compute(id, now), limits);
    var (bucket, allowed) := TakeToken(Current(s.entry), now, limits);
    var s4 := With(Written(s3, s3.requests[id], limits), id, Decided(allowed, now));
    longer := run + [s1] + [s2] + [s3] + [s4];
    Extend(run + [s1] + [s2] + [s3], s4, Update(id), limits);
  }

  /** Every sequential history is the history of some run. */
  lemma {:induction false} HistoriesAreRuns(log: seq<Event>, limits: Limits) returns (run: seq<State>)
    requires Sequential(log, limits) && Timed(log)
    ensures IsRun(run, limits) && Last(run).log == log
    ensures forall id :: id in Last(run).requests ==> id < |log|
  {
    hide TakeToken, Decode, Encode, Replay, IsI64;
    if log == [] {
      run := [State(Missing, 0, map[], [])];
    } else {
      var before, e := log[..|log| - 1], log[|log| - 1];
      run := HistoriesAreRuns(before, limits);
      assert log == before + [e];
      if e.Wrote? {
        run := ExtendByRequest(run, |before|, e.now, limits);
      } else {
        var s := Last(run);
        RunsAreSequential(run, limits, |run| - 1);
        LastWriteIsStored(before, limits);
        var s' := s.(entry := Missing, log := s.log + [e]);
        Extend(run, s', Expire(e.now), limits);
        run := run + [s'];
      }
    }
  }

  lemma LastWriteIsStored(log: seq<Event>, limits: Limits)
    requires LastWrite(log).Some?
    ensures Replay(log, limits).Some?
  {
  }

  /** `k` requests in a row at time `t`, all admitted. */
  function Burst(log: seq<Event>, k: nat, t: int): seq<Event> {
    if k == 0 then log else Burst(log, k - 1, t) + [Wrote(t, true)]
  }

  /** A token taken at a time the bucket is already at leaves one less, at that time. */
  lemma TakeAtOnce(bucket: Option<Bucket>, t: int, limits: Limits)
    requires 1000 <= TopUp(bucket, t, limits) <= Full(limits)
    ensures TakeToken(bucket, t, limits) == (Bucket(TopUp(bucket, t, limits) - 1000, t), true)
    ensures TopUp(Some(TakeToken(bucket, t, limits).0), t, limits) == TopUp(bucket, t, limits) - 1000
  {
  }

  predicate Orderly(log: seq<Event>, t: int) {
    InOrder(log) && Timed(log) && forall i :: 0 <= i < |log| ==> log[i].now <= t
  }

  lemma OrderlyAppend(log: seq<Event>, e: Event, t: int)
    requires Orderly(log, t) && IsI64(e.now) && e.now >= t
    ensures Orderly(log + [e], e.now)
  {
  }

  lemma {:induction false} BurstIsAdmitted(log: seq<Event>, k: nat, t: int, limits: Limits, t1: int, t2: int)
    requires Sequential(log, limits) && Orderly(log, t) && IsI64(t) && t1 <= t <= t2
    requires k <= limits.burst && TopUp(Replay(log, limits), t, limits) == Full(limits)
    ensures Sequential(Burst(log, k, t), limits) && Orderly(Burst(log, k, t), t)
    ensures TopUp(Replay(Burst(log, k, t), limits), t, limits) == Full(limits) - 1000 * k
    ensures Admitted(Burst(log, k, t), t1, t2) == Admitted(log, t1, t2) + k
    ensures k > 0 ==> LastWrite(Burst(log, k, t)) == Some(t)
  {
    hide TakeToken, TopUp, Replay, Sequential, Admitted, Orderly, IsI64;
    if k > 0 {
      var shorter := Burst(log, k - 1, t);
      BurstIsAdmitted(log, k - 1, t, limits, t1, t2);
      TakeAtOnce(Replay(shorter, limits), t, limits);
      ReplayAppend(shorter, Wrote(t, true), limits);
      AdmittedAppend(shorter, Wrote(t, true), t1, t2);
      OrderlyAppend(shorter, Wrote(t, true), t);
    }
  }

  /** With a larger burst, an hour's idling gives a second one: a history over the limit. */
  lemma TwoBursts(limits: Limits) returns (log: seq<Event>)
    requires limits.burst > 3600 * limits.perSecond
    ensures Sequential(log, limits) && InOrder(log) && Timed(log)
    ensures !WithinLimits(Admitted(log, 0, MAX_AGE_MS), 0, MAX_AGE_MS, limits)
  {
    hide Replay, Sequential, Admitted;
    EmptyHistory(limits);
    var first := Burst([], limits.burst, 0);
    BurstIsAdmitted([], limits.burst, 0, limits, 0, MAX_AGE_MS);
    var e := Forgot(MAX_AGE_MS);
    ReplayAppend(first, e, limits);
    AdmittedAppend(first, e, 0, MAX_AGE_MS);
    OrderlyAppend(first, e, 0);
    BurstIsAdmitted(first + [e], limits.burst, MAX_AGE_MS, limits, 0, MAX_AGE_MS);
    log := Burst(first + [e], limits.burst, MAX_AGE_MS);
  }

  lemma EmptyHistory(limits: Limits)
    ensures Replay([], limits) == None && Sequential([], limits)
  {
  }

  /** The limits hold over every window of every run exactly when an hour refills the bucket. */
  lemma LimitsHoldExactly(limits: Limits)
    ensures limits.burst <= 3600 * limits.perSecond <==>
            forall run, t1, t2 | IsRun(run, limits) && InOrder(Last(run).log) && t1 <= t2 ::
              WithinLimits(Admitted(Last(run).log, t1, t2), t1, t2, limits)
  {
    if limits.burst <= 3600 * limits.perSecond {
      forall run, t1, t2 | IsRun(run, limits) && InOrder(Last(run).log) && t1 <= t2
        ensures WithinLimits(Admitted(Last(run).log, t1, t2), t1, t2, limits)
      {
        RunsStayWithinLimits(run, limits, |run| - 1, t1, t2);
      }
    } else {
      var log := TwoBursts(limits);
      var run := HistoriesAreRuns(log, limits);
      assert IsRun(run, limits) && InOrder(Last(run).log);
      assert !WithinLimits(Admitted(Last(run).log, 0, MAX_AGE_MS), 0, MAX_AGE_MS, limits);
    }
  }

  /** The clock matters: a replica a second behind hands that second out again, and no more than that. */
  lemma ClockGoingBackGrantsTwice()
    ensures var limits := Limits(1, 1);
            var log := [Wrote(0, true), Wrote(1000, true), Wrote(0, false), Wrote(1000, true)];
            Sequential(log, limits) && !WithinLimits(Admitted(log, 0, 1000), 0, 1000, limits)
            && 1000 * Admitted(log, 0, 1000) == Full(limits) + Earned(1000 + Back(log), limits)
  {
    hide Replay, Sequential, Admitted, Back;
    var limits := Limits(1, 1);
    var log := [Wrote(0, true), Wrote(1000, true), Wrote(0, false), Wrote(1000, true)];
    EmptyHistory(limits);
    assert Admitted([], 0, 1000) == 0 by { NoneBefore([], 0, 1000); }
    var a, b, c, d := Wrote(0, true), Wrote(1000, true), Wrote(0, false), Wrote(1000, true);
    ReplayAppend([], a, limits);
    AdmittedAppend([], a, 0, 1000);
    ReplayAppend([] + [a], b, limits);
    AdmittedAppend([] + [a], b, 0, 1000);
    ReplayAppend([] + [a] + [b], c, limits);
    AdmittedAppend([] + [a] + [b], c, 0, 1000);
    ReplayAppend([] + [a] + [b] + [c], d, limits);
    AdmittedAppend([] + [a] + [b] + [c], d, 0, 1000);
    assert log == [] + [a] + [b] + [c] + [d];
    BackAppend([], a);
    BackAppend([] + [a], b);
    BackAppend([] + [a] + [b], c);
    BackAppend([] + [a] + [b] + [c], d);
  }

  // ---------------------------------------------------------------- requests let through uncounted

  /** The steps a request has before it at most. */
  function Remaining(phase: Phase): int {
    match phase
    case Trying(retries) => 3 * (6 - retries) + 1
    case Holding(retries, _, _) => 3 * (6 - retries)
    case Ready(retries, _, _, _) => 3 * (6 - retries) - 1
    case Decided(_, _) => 0
    case FailedOpen => 0
  }

  predicate IsStepOf(step: Step, id: nat) { !step.Expire? && !step.Arrive? && step.id == id }

  lemma OwnStepOver(s: State, s': State, step: Step, limits: Limits, id: nat)
    requires Next(s, s', step, limits) && IsStepOf(step, id)
    ensures id in s.requests && id in s'.requests
    ensures Remaining(s.requests[id]) > 0 ==> Remaining(s'.requests[id]) < Remaining(s.requests[id])
  {
    hide TakeToken, Encode;
  }

  /** A request's own steps come to an end: each brings it nearer, and it starts with nineteen. */
  lemma OwnStepsEnd(run: seq<State>, limits: Limits, i: nat, step: Step, id: nat)
    requires IsRun(run, limits) && i + 1 < |run| && Next(run[i], run[i + 1], step, limits) && IsStepOf(step, id)
    ensures id in run[i].requests && id in run[i + 1].requests
    ensures 0 <= Remaining(run[i + 1].requests[id]) < Remaining(run[i].requests[id]) <= 19
  {
    OwnStepOver(run[i], run[i + 1], step, limits, id);
    StepOfPending(run[i], run[i + 1], step, limits, id);
    RunsAreSequential(run, limits, i);
    RunsAreSequential(run, limits, i + 1);
    assert Fresh(run[i], run[i].requests[id], limits) && Fresh(run[i + 1], run[i + 1].requests[id], limits);
    hide Next, IsRun;
  }

  lemma StepOfPending(s: State, s': State, step: Step, limits: Limits, id: nat)
    requires Next(s, s', step, limits) && IsStepOf(step, id)
    ensures id in s.requests && id in s'.requests && !s.requests[id].Decided? && !s.requests[id].FailedOpen?
  {
    hide TakeToken, Encode;
  }

  /** A request is undecided for at most six tries. */
  lemma TriesAreBounded(run: seq<State>, limits: Limits, i: nat, id: nat)
    requires IsRun(run, limits) && i < |run| && id in run[i].requests
    ensures run[i].requests[id].Trying? ==> run[i].requests[id].retries <= 6
    ensures run[i].requests[id].Ready? ==> run[i].requests[id].retries <= 5
  {
    hide Next, IsRun;
    RunsAreSequential(run, limits, i);
    assert Fresh(run[i], run[i].requests[id], limits);
  }
}
