// The outbox relay: rows fetched and locked in a transaction, published one by one, deleted
// once the stream has stored them, and put to the back when publishing fails.
module OutboxRelay {
  import opened Wrappers

  const BATCH := 100

  /** Where a pass stands with the event in hand. */
  datatype Phase = Ready | Published(id: nat) | NotPublished(id: nat)

  /** One pass of one relay: its open transaction. */
  datatype Pass = Pass(todo: seq<nat>, phase: Phase, deleted: set<nat>, moved: map<nat, int>, broken: bool)

  /**
    `outbox`: the committed rows, by id, with the time they queue by. `stream`: what the
    stream stores. `committed`: every event ever committed to the outbox. `dedup`: whether the
    stream drops a message whose id it has.
   */
  datatype State = State(outbox: map<nat, int>, stream: seq<nat>, committed: set<nat>,
                         passes: map<nat, Pass>, dedup: bool)

  /** What became of a publish: stored and acknowledged, lost on the way, or stored with its answer lost. */
  datatype Delivery = Acknowledged | Lost | StoredUnanswered

  datatype Step =
    | InsertEvent(id: nat, at: int)
    | Fetch(relay: nat, batch: seq<nat>)
    | Publish(relay: nat, delivery: Delivery)
    | Delete(relay: nat, ok: bool)
    | Reschedule(relay: nat, ok: bool, now: int)
    | Commit(relay: nat, ok: bool)
    | Crash(relay: nat)

  function Store(stream: seq<nat>, id: nat, dedup: bool): seq<nat> {
    if dedup && id in stream then stream else stream + [id]
  }

  /** Rows some pass has locked; others skip them. */
  predicate Locked(s: State, id: nat) {
    exists r :: r in s.passes && Holds(s.passes[r], id)
  }

  predicate Holds(p: Pass, id: nat) {
    id in p.todo || id in p.deleted || id in p.moved || (!p.phase.Ready? && p.phase.id == id)
  }

  predicate Distinct(ids: seq<nat>) {
    forall i, j :: 0 <= i < j < |ids| ==> ids[i] != ids[j]
  }

  /** Up to a hundred rows that are not locked, the oldest first. */
  predicate IsBatch(s: State, batch: seq<nat>) {
    |batch| <= BATCH && Distinct(batch)
    && (forall i :: 0 <= i < |batch| ==> batch[i] in s.outbox && !Locked(s, batch[i]))
    && (forall i, j :: 0 <= i < j < |batch| ==> s.outbox[batch[i]] <= s.outbox[batch[j]])
    && (forall id :: id in s.outbox && !Locked(s, id) && id !in batch ==>
          |batch| == BATCH && forall i :: 0 <= i < |batch| ==> s.outbox[batch[i]] <= s.outbox[id])
  }

  function Update(s: State, relay: nat, p: Pass): State { s.(passes := s.passes[relay := p]) }

  function End(s: State, relay: nat): State { s.(passes := s.passes - {relay}) }

  function AfterPublish(s: State, relay: nat, delivery: Delivery): State
    requires relay in s.passes && s.passes[relay].todo != []
  {
    var p := s.passes[relay];
    var id := p.todo[0];
    var phase := if delivery.Acknowledged? then Published(id) else NotPublished(id);
    Update(s.(stream := if delivery.Lost? then s.stream else Store(s.stream, id, s.dedup)),
           relay, p.(todo := p.todo[1..], phase := phase))
  }

  /** A statement that fails aborts the transaction: nothing of it will be committed. */
  function AfterDelete(s: State, relay: nat, ok: bool): State
    requires relay in s.passes && s.passes[relay].phase.Published?
  {
    var p := s.passes[relay];
    Update(s, relay, if ok then p.(phase := Ready, deleted := p.deleted + {p.phase.id})
                     else p.(phase := Ready, broken := true))
  }

  function AfterReschedule(s: State, relay: nat, ok: bool, now: int): State
    requires relay in s.passes && s.passes[relay].phase.NotPublished?
  {
    var p := s.passes[relay];
    Update(s, relay, if ok then p.(phase := Ready, moved := p.moved[p.phase.id := now])
                     else p.(phase := Ready, broken := true))
  }

  function AfterCommit(s: State, relay: nat, ok: bool): State
    requires relay in s.passes
  {
    var p := s.passes[relay];
    if ok && !p.broken
    then End(s.(outbox := (s.outbox + (map id | id in p.moved && id in s.outbox :: p.moved[id])) - p.deleted), relay)
    else End(s, relay)
  }

  predicate Init(s: State) {
    s.outbox == map[] && s.stream == [] && s.committed == {} && s.passes == map[]
  }

  predicate Next(s: State, s': State, step: Step) {
    match step
    case InsertEvent(id, at) =>
      id !in s.committed && s' == s.(outbox := s.outbox[id := at], committed := s.committed + {id})
    case Fetch(relay, batch) =>
      relay !in s.passes && IsBatch(s, batch)
      && s' == Update(s, relay, Pass(batch, Ready, {}, map[], false))
    case Publish(relay, delivery) =>
      relay in s.passes && s.passes[relay].phase.Ready? && s.passes[relay].todo != []
      && s' == AfterPublish(s, relay, delivery)
    case Delete(relay, ok) =>
      relay in s.passes && s.passes[relay].phase.Published? && s' == AfterDelete(s, relay, ok)
    case Reschedule(relay, ok, now) =>
      relay in s.passes && s.passes[relay].phase.NotPublished? && s' == AfterReschedule(s, relay, ok, now)
    case Commit(relay, ok) =>
      relay in s.passes && s.passes[relay].phase.Ready? && s.passes[relay].todo == []
      && s' == AfterCommit(s, relay, ok)
    case Crash(relay) => relay in s.passes && s' == End(s, relay)
  }

  ghost predicate Linked(s: State, s': State) { exists step :: Next(s, s', step) }

  /** States joined by steps. */
  ghost predicate IsPath(path: seq<State>) {
    path != [] && forall i :: 0 < i < |path| ==> Linked(path[i - 1], path[i])
  }

  ghost predicate IsRun(run: seq<State>) {
    IsPath(run) && Init(run[0])
  }

  // ---------------------------------------------------------------- nothing is lost

  predicate PassInv(s: State, p: Pass) {
    (forall id :: id in p.deleted ==> id in s.stream)
    && (p.phase.Published? ==> p.phase.id in s.stream)
    && (forall id :: id in p.todo ==> id in s.committed)
    && (!p.phase.Ready? ==> p.phase.id in s.committed)
  }

  predicate Inv(s: State) {
    && (forall id :: id in s.committed ==> id in s.outbox || id in s.stream)
    && (forall id :: id in s.outbox ==> id in s.committed)
    && (forall i :: 0 <= i < |s.stream| ==> s.stream[i] in s.committed)
    && (s.dedup ==> Distinct(s.stream))
    && (forall r :: r in s.passes ==> PassInv(s, s.passes[r]))
  }

  lemma StoreKeeps(stream: seq<nat>, id: nat, dedup: bool)
    ensures stream <= Store(stream, id, dedup) && id in Store(stream, id, dedup)
    ensures forall x :: x in Store(stream, id, dedup) <==> x in stream || x == id
    ensures dedup && Distinct(stream) ==> Distinct(Store(stream, id, dedup))
  {
    var stored := Store(stream, id, dedup);
    if stored != stream { assert stored[|stream|] == id; }
  }

  lemma PublishKeepsInv(s: State, s': State, relay: nat, delivery: Delivery)
    requires Inv(s) && Next(s, s', Publish(relay, delivery))
    ensures Inv(s')
  {
    hide Store, Distinct;
    var p := s.passes[relay];
    assert p.todo[0] in p.todo;
    StoreKeeps(s.stream, p.todo[0], s.dedup);
    forall i | 0 <= i < |s'.stream| ensures s'.stream[i] in s'.committed {
      assert s'.stream[i] in s'.stream;
    }
    forall r | r in s'.passes ensures PassInv(s', s'.passes[r]) {
      if r == relay {
        assert forall id :: id in p.todo[1..] ==> id in p.todo;
      } else {
        assert PassInv(s, s.passes[r]);
      }
    }
  }

  lemma CommitKeepsInv(s: State, s': State, relay: nat, ok: bool)
    requires Inv(s) && Next(s, s', Commit(relay, ok))
    ensures Inv(s')
  {
    assert PassInv(s, s.passes[relay]);
    forall r | r in s'.passes ensures PassInv(s', s'.passes[r]) {
      assert PassInv(s, s.passes[r]);
    }
  }

  lemma OtherKeepsInv(s: State, s': State, step: Step)
    requires Inv(s) && Next(s, s', step) && !step.Publish? && !step.Commit?
    ensures Inv(s')
  {
    hide Distinct, Locked;
    forall r | r in s'.passes ensures PassInv(s', s'.passes[r]) {
      if r in s.passes { assert PassInv(s, s.passes[r]); }
    }
  }

  lemma NextKeepsInv(s: State, s': State, step: Step)
    requires Inv(s) && Next(s, s', step)
    ensures Inv(s')
  {
    hide Inv;
    match step
    case Publish(relay, delivery) => PublishKeepsInv(s, s', relay, delivery);
    case Commit(relay, ok) => CommitKeepsInv(s, s', relay, ok);
    case _ => OtherKeepsInv(s, s', step);
  }

  lemma {:induction false} RunsKeepInv(run: seq<State>, i: nat)
    requires IsRun(run) && i < |run|
    ensures Inv(run[i])
  {
    if i > 0 {
      RunsKeepInv(run, i - 1);
      assert Linked(run[i - 1], run[i]);
      var step :| Next(run[i - 1], run[i], step);
      NextKeepsInv(run[i - 1], run[i], step);
    }
  }

  /**
    However passes crash, publishes fail and transactions are rolled back: a committed event
    is in the outbox or in the stream, and the stream holds no event that was not committed.
   */
  lemma NothingIsLost(run: seq<State>, i: nat, id: nat)
    requires IsRun(run) && i < |run|
    ensures id in run[i].committed <==> id in run[i].outbox || id in run[i].stream
  {
    RunsKeepInv(run, i);
  }

  /** A stream that drops repeated ids stores each event at most once. */
  lemma StoredAtMostOnce(run: seq<State>, i: nat, a: nat, b: nat)
    requires IsRun(run) && i < |run| && run[i].dedup
    requires a < |run[i].stream| && b < |run[i].stream| && run[i].stream[a] == run[i].stream[b]
    ensures a == b
  {
    RunsKeepInv(run, i);
  }

  /** And once stored it stays where it is. */
  lemma {:induction false} StreamOnlyGrows(run: seq<State>, i: nat, j: nat)
    requires IsRun(run) && i <= j < |run|
    ensures run[i].stream <= run[j].stream && run[i].committed <= run[j].committed
  {
    if i < j {
      StreamOnlyGrows(run, i, j - 1);
      assert Linked(run[j - 1], run[j]);
      var step :| Next(run[j - 1], run[j], step);
      assert run[j - 1].stream <= run[j].stream && run[j - 1].committed <= run[j].committed;
    }
  }

  // ---------------------------------------------------------------- the queue

  /** A batch has at most a hundred rows, and a row older than one in it comes before that one, unless it is locked. */
  lemma OlderRowsGoFirst(s: State, batch: seq<nat>, k: nat, other: nat)
    requires IsBatch(s, batch) && k < |batch| && other in s.outbox && !Locked(s, other)
    requires s.outbox[other] < s.outbox[batch[k]]
    ensures |batch| <= 100 && exists j :: 0 <= j < k && batch[j] == other
  {
    assert other in batch;
    var j :| 0 <= j < |batch| && batch[j] == other;
  }

  /** A batch that is not full leaves out no row that is not locked. */
  lemma ShortBatchTakesAll(s: State, batch: seq<nat>, id: nat)
    requires IsBatch(s, batch) && |batch| < 100 && id in s.outbox && !Locked(s, id)
    ensures id in batch
  {
  }

  /**
    An event that could not be published goes to the back: once the pass commits, its row queues by
    the time it was put back, no other row has moved, and the published ones are gone.
   */
  lemma FailedEventGoesBack(s: State, s1: State, s2: State, s3: State, relay: nat, now: int)
    requires relay in s.passes && s.passes[relay].phase.NotPublished?
    requires Next(s, s1, Reschedule(relay, true, now))
    requires relay in s2.passes && s2.passes[relay] == s1.passes[relay] && !s2.passes[relay].broken
    requires Next(s2, s3, Commit(relay, true))
    ensures var id, p := s.passes[relay].phase.id, s.passes[relay];
            && (id in s2.outbox && id !in p.deleted ==> id in s3.outbox && s3.outbox[id] == now)
            && (forall other :: other in s3.outbox && other != id && other !in p.moved ==>
                  other in s2.outbox && s3.outbox[other] == s2.outbox[other])
            && s3.outbox.Keys == s2.outbox.Keys - p.deleted
  {
  }

  /** A statement that fails spoils the pass; a spoilt pass or a failed commit leaves the outbox as it was. */
  lemma SpoiltPassChangesNothing(s: State, s': State, step: Step, relay: nat)
    requires Next(s, s', step) && relay in s.passes
    ensures step.Delete? && step.relay == relay && !step.ok ==> relay in s'.passes && s'.passes[relay].broken
    ensures step.Reschedule? && step.relay == relay && !step.ok ==> relay in s'.passes && s'.passes[relay].broken
    ensures s.passes[relay].broken && relay in s'.passes ==> s'.passes[relay].broken
    ensures step.Commit? && step.relay == relay && (!step.ok || s.passes[relay].broken) ==> s'.outbox == s.outbox
    ensures step.Crash? ==> s'.outbox == s.outbox
  {
  }

  /**
    What becomes of a publish. Only one that is lost on the way leaves the event out of the stream;
    only one that is answered counts as published; and the event is no longer to be sent in this pass.
   */
  lemma PublishOutcomes(s: State, s': State, relay: nat, delivery: Delivery)
    requires Next(s, s', Publish(relay, delivery))
    ensures var p, p' := s.passes[relay], s'.passes[relay];
            && (delivery != Lost ==> p.todo[0] in s'.stream)
            && (delivery == Lost ==> s'.stream == s.stream)
            && p'.phase == (if delivery == Acknowledged then Published(p.todo[0]) else NotPublished(p.todo[0]))
            && p'.todo == p.todo[1..] && p'.deleted == p.deleted && s'.outbox == s.outbox
  {
    StoreKeeps(s.stream, s.passes[relay].todo[0], s.dedup);
  }

  // ---------------------------------------------------------------- locks

  ghost predicate Apart(p: Pass, q: Pass) { forall id: nat :: !(Holds(p, id) && Holds(q, id)) }

  ghost predicate AllApart(s: State) {
    forall a, b :: a in s.passes && b in s.passes && a != b ==> Apart(s.passes[a], s.passes[b])
  }

  /** A step of a pass takes hold of no row it did not have. */
  lemma HoldsNoMore(s: State, s': State, step: Step, relay: nat, id: nat)
    requires Next(s, s', step) && relay in s.passes && relay in s'.passes && Holds(s'.passes[relay], id)
    ensures Holds(s.passes[relay], id)
  {
  }

  lemma StepKeepsApart(s: State, s': State, step: Step)
    requires Next(s, s', step) && AllApart(s)
    ensures AllApart(s')
  {
    forall a, b | a in s'.passes && b in s'.passes && a != b ensures Apart(s'.passes[a], s'.passes[b]) {
      forall id: nat ensures !(Holds(s'.passes[a], id) && Holds(s'.passes[b], id)) {
        StepKeepsTwoApart(s, s', step, a, b, id);
      }
    }
  }

  lemma StepKeepsTwoApart(s: State, s': State, step: Step, a: nat, b: nat, id: nat)
    requires Next(s, s', step) && AllApart(s) && a in s'.passes && b in s'.passes && a != b
    ensures !(Holds(s'.passes[a], id) && Holds(s'.passes[b], id))
  {
    if step.Fetch? {
      var other := if a == step.relay then b else a;
      assert id in step.batch ==> !Locked(s, id);
      assert other != step.relay ==> s'.passes[other] == s.passes[other];
      if a != step.relay && b != step.relay { assert Apart(s.passes[a], s.passes[b]); }
    } else {
      assert a in s.passes && b in s.passes;
      assert Apart(s.passes[a], s.passes[b]);
      if Holds(s'.passes[a], id) { HoldsNoMore(s, s', step, a, id); }
      if Holds(s'.passes[b], id) { HoldsNoMore(s, s', step, b, id); }
    }
  }

  /** No row is ever in the hands of two passes. */
  lemma {:induction false} PassesStayApart(run: seq<State>, i: nat)
    requires IsRun(run) && i < |run|
    ensures AllApart(run[i])
  {
    if i > 0 {
      hide Next, AllApart;
      PassesStayApart(run, i - 1);
      assert Linked(run[i - 1], run[i]);
      var step :| Next(run[i - 1], run[i], step);
      StepKeepsApart(run[i - 1], run[i], step);
    }
  }

  // ---------------------------------------------------------------- without failures

  /** No crash, no answer lost after the stream stored the event, no statement or commit refused. */
  predicate GoesSmoothly(step: Step) {
    match step
    case Crash(_) => false
    case Publish(_, delivery) => !delivery.StoredUnanswered?
    case Delete(_, ok) => ok
    case Reschedule(_, ok, _) => ok
    case Commit(_, ok) => ok
    case _ => true
  }

  ghost predicate LinkedSmoothly(s: State, s': State) { exists step :: Next(s, s', step) && GoesSmoothly(step) }

  ghost predicate IsSmoothRun(run: seq<State>) {
    run != [] && Init(run[0]) && forall i :: 0 < i < |run| ==> LinkedSmoothly(run[i - 1], run[i])
  }

  /** The pass knows the event is stored. */
  predicate Knows(p: Pass, id: nat) { id in p.deleted || p.phase == Published(id) }

  predicate PassIsSmooth(s: State, p: Pass) {
    && !p.broken && Distinct(p.todo)
    && (forall k :: 0 <= k < |p.todo| ==> p.todo[k] !in s.stream)
    && (forall k :: 0 <= k < |p.todo| ==> p.todo[k] !in p.deleted)
    && (!p.phase.Ready? ==> p.phase.id !in p.todo)
    && (p.phase.NotPublished? ==> p.phase.id !in s.stream)
  }

  ghost predicate SmoothInv(s: State) {
    && Distinct(s.stream) && AllApart(s) && Inv(s)
    && (forall r :: r in s.passes ==> PassIsSmooth(s, s.passes[r]))
    && (forall id :: id in s.stream && id in s.outbox ==> exists r :: r in s.passes && Knows(s.passes[r], id))
  }

  lemma SmoothFetch(s: State, s': State, relay: nat, batch: seq<nat>)
    requires SmoothInv(s) && Next(s, s', Fetch(relay, batch)) && AllApart(s') && Inv(s')
    ensures SmoothInv(s')
  {
    hide Inv, AllApart, Distinct;
    forall id | id in s.stream && id in s.outbox ensures Locked(s, id) {
      var r :| r in s.passes && Knows(s.passes[r], id);
      assert Holds(s.passes[r], id);
    }
    forall k | 0 <= k < |batch| ensures batch[k] !in s.stream { assert batch[k] in s.outbox; }
    forall id | id in s'.stream && id in s'.outbox ensures exists r :: r in s'.passes && Knows(s'.passes[r], id) {
      var r :| r in s.passes && Knows(s.passes[r], id);
      assert s'.passes[r] == s.passes[r];
    }
  }

  lemma SmoothPublish(s: State, s': State, relay: nat, delivery: Delivery)
    requires SmoothInv(s) && Next(s, s', Publish(relay, delivery)) && !delivery.StoredUnanswered?
    requires AllApart(s') && Inv(s')
    ensures SmoothInv(s')
  {
    PublishedOnce(s, s', relay, delivery);
    forall r | r in s'.passes ensures PassIsSmooth(s', s'.passes[r]) {
      if r == relay {
        OwnPassStaysSmooth(s, s', relay, delivery);
      } else {
        OtherPassStaysSmooth(s, s', relay, delivery, r);
      }
    }
    hide PassIsSmooth, Distinct, AllApart, Inv;
    forall x | x in s'.stream && x in s'.outbox ensures exists r :: r in s'.passes && Knows(s'.passes[r], x) {
      if x in s.stream {
        var r :| r in s.passes && Knows(s.passes[r], x);
        assert Knows(s'.passes[r], x);
      } else {
        assert Knows(s'.passes[relay], x);
      }
    }
  }

  lemma OwnPassStaysSmooth(s: State, s': State, relay: nat, delivery: Delivery)
    requires SmoothInv(s) && Next(s, s', Publish(relay, delivery)) && !delivery.StoredUnanswered?
    requires forall x :: x in s'.stream <==> x in s.stream || (delivery.Acknowledged? && x == s.passes[relay].todo[0])
    ensures relay in s'.passes && PassIsSmooth(s', s'.passes[relay])
  {
    var p, p' := s.passes[relay], s'.passes[relay];
    assert PassIsSmooth(s, p);
    assert forall k :: 0 <= k < |p'.todo| ==> p'.todo[k] == p.todo[k + 1];
    hide SmoothInv;
  }

  lemma OtherPassStaysSmooth(s: State, s': State, relay: nat, delivery: Delivery, r: nat)
    requires SmoothInv(s) && Next(s, s', Publish(relay, delivery)) && r in s'.passes && r != relay
    requires forall x :: x in s'.stream <==> x in s.stream || (delivery.Acknowledged? && x == s.passes[relay].todo[0])
    ensures PassIsSmooth(s', s'.passes[r])
  {
    var p, id := s.passes[relay], s.passes[relay].todo[0];
    assert PassIsSmooth(s, s.passes[r]) && Apart(s.passes[r], p) && s'.passes[r] == s.passes[r];
    assert id in p.todo && Holds(p, id) && !Holds(s.passes[r], id);
    hide SmoothInv;
  }

  lemma PublishedOnce(s: State, s': State, relay: nat, delivery: Delivery)
    requires SmoothInv(s) && Next(s, s', Publish(relay, delivery)) && !delivery.StoredUnanswered?
    ensures Distinct(s'.stream)
    ensures forall x :: x in s'.stream <==> x in s.stream || (delivery.Acknowledged? && x == s.passes[relay].todo[0])
  {
    var p := s.passes[relay];
    assert PassIsSmooth(s, p) && p.todo[0] !in s.stream;
    if delivery.Acknowledged? { assert s'.stream == s.stream + [p.todo[0]]; }
  }

  lemma SmoothSettle(s: State, s': State, step: Step)
    requires SmoothInv(s) && Next(s, s', step) && GoesSmoothly(step) && (step.Delete? || step.Reschedule?)
    requires AllApart(s') && Inv(s')
    ensures SmoothInv(s')
  {
    hide Inv, AllApart, Distinct;
    forall r | r in s'.passes ensures PassIsSmooth(s', s'.passes[r]) { assert PassIsSmooth(s, s.passes[r]); }
    hide PassIsSmooth;
    forall x | x in s'.stream && x in s'.outbox ensures exists r :: r in s'.passes && Knows(s'.passes[r], x) {
      var r :| r in s.passes && Knows(s.passes[r], x);
      assert Knows(s'.passes[r], x);
    }
  }

  lemma SmoothCommit(s: State, s': State, relay: nat)
    requires SmoothInv(s) && Next(s, s', Commit(relay, true)) && AllApart(s') && Inv(s')
    ensures SmoothInv(s')
  {
    hide Inv, AllApart, Distinct;
    forall r | r in s'.passes ensures PassIsSmooth(s', s'.passes[r]) { assert PassIsSmooth(s, s.passes[r]); }
    assert !s.passes[relay].broken by { assert PassIsSmooth(s, s.passes[relay]); }
    hide PassIsSmooth;
    forall x | x in s'.stream && x in s'.outbox ensures exists r :: r in s'.passes && Knows(s'.passes[r], x) {
      assert x in s.outbox;
      var r :| r in s.passes && Knows(s.passes[r], x);
      assert r != relay && s'.passes[r] == s.passes[r];
    }
  }

  lemma SmoothInsert(s: State, s': State, id: nat, at: int)
    requires SmoothInv(s) && Next(s, s', InsertEvent(id, at)) && AllApart(s') && Inv(s')
    ensures SmoothInv(s')
  {
    assert id !in s.stream;
    forall r | r in s'.passes ensures PassIsSmooth(s', s'.passes[r]) { assert PassIsSmooth(s, s.passes[r]); }
  }

  lemma SmoothStep(s: State, s': State, step: Step)
    requires SmoothInv(s) && Next(s, s', step) && GoesSmoothly(step)
    ensures SmoothInv(s')
  {
    assert AllApart(s') && Inv(s') by {
      StepKeepsApart(s, s', step);
      NextKeepsInv(s, s', step);
    }
    hide SmoothInv, AllApart, Inv;
    match step
    case InsertEvent(id, at) => SmoothInsert(s, s', id, at);
    case Fetch(relay, batch) => SmoothFetch(s, s', relay, batch);
    case Publish(relay, delivery) => SmoothPublish(s, s', relay, delivery);
    case Commit(relay, _) => SmoothCommit(s, s', relay);
    case _ => SmoothSettle(s, s', step);
  }

  /** Where nothing fails the locks alone see to it: even a stream that drops nothing stores each event once. */
  lemma {:induction false} StoredOnceIfSmooth(run: seq<State>, i: nat)
    requires IsSmoothRun(run) && i < |run|
    ensures SmoothInv(run[i]) && Distinct(run[i].stream)
  {
    if i > 0 {
      hide Next, SmoothInv;
      StoredOnceIfSmooth(run, i - 1);
      assert LinkedSmoothly(run[i - 1], run[i]);
      var step :| Next(run[i - 1], run[i], step) && GoesSmoothly(step);
      SmoothStep(run[i - 1], run[i], step);
      assert Distinct(run[i].stream) by { SmoothIsDistinct(run[i]); }
    }
  }

  lemma SmoothIsDistinct(s: State)
    requires SmoothInv(s)
    ensures Distinct(s.stream)
  {
  }

  // ---------------------------------------------------------------- the relay's loop

  /** What the outside world does with one event of a pass. */
  datatype Luck = Luck(delivery: Delivery, statement: bool, now: int)

  lemma Extend(path: seq<State>, s': State, step: Step)
    requires IsPath(path) && Next(path[|path| - 1], s', step)
    ensures IsPath(path + [s'])
  {
    var longer := path + [s'];
    forall i | 0 < i < |longer| ensures Linked(longer[i - 1], longer[i]) {
      if i < |path| {
        assert longer[i - 1] == path[i - 1] && longer[i] == path[i];
      } else {
        assert longer[i - 1] == path[|path| - 1];
      }
    }
  }

  /** A pass that publishes its one event and dies before its transaction commits. */
  lemma PublishAndCrash(run: seq<State>, id: nat) returns (longer: seq<State>)
    requires IsRun(run)
    requires var s := run[|run| - 1]; s.passes == map[] && s.outbox.Keys == {id}
    ensures IsRun(longer)
    ensures var s := run[|run| - 1];
            longer[|longer| - 1] == s.(stream := Store(s.stream, id, s.dedup))
  {
    var s := run[|run| - 1];
    var s1 := Update(s, 0, Pass([id], Ready, {}, map[], false));
    Extend(run, s1, Fetch(0, [id]));
    var s2 := AfterPublish(s1, 0, Acknowledged);
    Extend(run + [s1], s2, Publish(0, Acknowledged));
    var s3 := End(s2, 0);
    Extend(run + [s1] + [s2], s3, Crash(0));
    longer := run + [s1] + [s2] + [s3];
    assert s3.passes == map[];
  }

  /** Dropping repeated ids is what it takes: without it a crash after publishing stores twice. */
  lemma WithoutDedupStoredTwice() returns (run: seq<State>)
    ensures IsRun(run) && !run[|run| - 1].dedup && run[|run| - 1].stream == [7, 7]
  {
    hide Next;
    var s0 := State(map[], [], {}, map[], false);
    var s1 := State(map[7 := 0], [], {7}, map[], false);
    assert Next(s0, s1, InsertEvent(7, 0)) by { FirstInsert(s0, s1); }
    Extend([s0], s1, InsertEvent(7, 0));
    run := PublishAndCrash([s0] + [s1], 7);
    run := PublishAndCrash(run, 7);
  }

  lemma FirstInsert(s0: State, s1: State)
    requires s0 == State(map[], [], {}, map[], false) && s1 == State(map[7 := 0], [], {7}, map[], false)
    ensures Next(s0, s1, InsertEvent(7, 0))
  {
  }

  predicate AllWell(lucks: seq<Luck>, n: nat)
    requires n <= |lucks|
  {
    forall k :: 0 <= k < n ==> lucks[k].delivery.Acknowledged? && lucks[k].statement
  }

  predicate GoesWell(luck: Luck) {
    luck.delivery.Acknowledged? && luck.statement
  }

  /** The body of the relay's loop: publish the next event, then delete its row or put it back. */
  method RelayEvent(s: State, relay: nat, luck: Luck) returns (s': State, ghost published: State)
    requires relay in s.passes && s.passes[relay].phase.Ready? && s.passes[relay].todo != []
    ensures Linked(s, published) && Linked(published, s')
    ensures s'.passes.Keys == s.passes.Keys && s'.passes - {relay} == s.passes - {relay}
    ensures s'.outbox == s.outbox && s.stream <= s'.stream
    ensures s'.passes[relay].todo == s.passes[relay].todo[1..] && s'.passes[relay].phase.Ready?
    ensures GoesWell(luck) ==>
              s'.passes[relay].deleted == s.passes[relay].deleted + {s.passes[relay].todo[0]}
              && s'.passes[relay].moved == s.passes[relay].moved
              && s'.passes[relay].broken == s.passes[relay].broken
              && s.passes[relay].todo[0] in s'.stream
  {
    hide Locked, Store;
    StoreKeeps(s.stream, s.passes[relay].todo[0], s.dedup);
    var next := AfterPublish(s, relay, luck.delivery);
    published := next;
    assert Next(s, published, Publish(relay, luck.delivery));
    if luck.delivery.Acknowledged? {
      s' := AfterDelete(next, relay, luck.statement);
      assert Next(published, s', Delete(relay, luck.statement));
    } else {
      s' := AfterReschedule(next, relay, luck.statement, luck.now);
      assert Next(published, s', Reschedule(relay, luck.statement, luck.now));
    }
  }

  /** What the pass has done after the first `k` events, if they all went well. */
  predicate DoneWell(s: State, relay: nat, done: seq<nat>) {
    relay in s.passes
    && s.passes[relay].deleted == (set id | id in done)
    && s.passes[relay].moved == map[] && !s.passes[relay].broken
    && forall id :: id in done ==> id in s.stream
  }

  lemma DoneOneMore(s: State, s': State, relay: nat, done: seq<nat>, id: nat)
    requires DoneWell(s, relay, done) && relay in s'.passes && s.stream <= s'.stream && id in s'.stream
    requires s'.passes[relay].deleted == s.passes[relay].deleted + {id}
    requires s'.passes[relay].moved == s.passes[relay].moved && s'.passes[relay].broken == s.passes[relay].broken
    ensures DoneWell(s', relay, done + [id])
  {
    forall x | x in done ensures x in s'.stream {
      var k :| 0 <= k < |s.stream| && s.stream[k] == x;
      assert s'.stream[k] == x;
    }
  }

  lemma ExtendLinked(path: seq<State>, s': State)
    requires IsPath(path) && Linked(path[|path| - 1], s')
    ensures IsPath(path + [s'])
  {
    var step :| Next(path[|path| - 1], s', step);
    Extend(path, s', step);
  }

  lemma CommitWell(s: State, relay: nat, batch: seq<nat>)
    requires DoneWell(s, relay, batch)
    ensures AfterCommit(s, relay, true).outbox.Keys == s.outbox.Keys - (set id | id in batch)
  {
  }

  /**
    One turn of the relay's loop over the batch it fetched. Whatever happens to each event, the
    pass is a path of the steps above; and if all goes well the batch is out of the outbox and
    in the stream.
   */
  method RelayPass(s: State, relay: nat, batch: seq<nat>, lucks: seq<Luck>, commits: bool)
    returns (s': State, ghost path: seq<State>)
    requires relay !in s.passes && IsBatch(s, batch) && |lucks| == |batch|
    ensures IsPath(path) && path[0] == s && path[|path| - 1] == s'
    ensures s'.passes == s.passes && s.stream <= s'.stream
    ensures commits && AllWell(lucks, |lucks|) ==>
              s'.outbox.Keys == s.outbox.Keys - (set id | id in batch)
              && forall id :: id in batch ==> id in s'.stream
    ensures !commits ==> s'.outbox == s.outbox
  {
    hide IsPath, Linked, IsBatch, DoneWell, AfterPublish, AfterDelete, AfterReschedule;
    s' := Update(s, relay, Pass(batch, Ready, {}, map[], false));
    path := StartPath(s, s', relay, batch);
    for k := 0 to |batch|
      invariant path != [] && IsPath(path) && path[0] == s && path[|path| - 1] == s'
      invariant relay in s'.passes && s'.passes[relay].todo == batch[k..] && s'.passes[relay].phase.Ready?
      invariant s'.passes - {relay} == s.passes && s'.outbox == s.outbox && s.stream <= s'.stream
      invariant AllWell(lucks, k) ==> DoneWell(s', relay, batch[..k])
    {
      ghost var before := s';
      ghost var published;
      s', published := RelayEvent(s', relay, lucks[k]);
      ExtendLinked(path, published);
      ExtendLinked(path + [published], s');
      path := path + [published] + [s'];
      if AllWell(lucks, k + 1) {
        DoneOneMore(before, s', relay, batch[..k], batch[k]);
        assert batch[..k + 1] == batch[..k] + [batch[k]];
      }
    }
    assert batch[..|batch|] == batch;
    var ended := AfterCommit(s', relay, commits);
    Extend(path, ended, Commit(relay, commits));
    path := path + [ended];
    if AllWell(lucks, |lucks|) { FinishWell(s', relay, batch); }
    s' := ended;
  }

  lemma StartPath(s: State, s': State, relay: nat, batch: seq<nat>) returns (path: seq<State>)
    requires relay !in s.passes && IsBatch(s, batch)
    requires s' == Update(s, relay, Pass(batch, Ready, {}, map[], false))
    ensures IsPath(path) && path[0] == s && path[|path| - 1] == s' && DoneWell(s', relay, [])
  {
    Extend([s], s', Fetch(relay, batch));
    path := [s] + [s'];
  }

  lemma FinishWell(s: State, relay: nat, batch: seq<nat>)
    requires DoneWell(s, relay, batch)
    ensures AfterCommit(s, relay, true).outbox.Keys == s.outbox.Keys - (set id | id in batch)
    ensures forall id :: id in batch ==> id in s.stream
  {
    CommitWell(s, relay, batch);
  }
}
