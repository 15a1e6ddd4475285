// The hydration loop: the queries of a form's schema run at once, finish in any order, and after
// each one an event tells how far they all are.
module Hydration {
  import opened Wrappers
  import opened OrderedMaps

  datatype Input = Null | Text(s: string) | Other

  type Inputs = map<string, Input>

  datatype Query = Query(name: string, dependencies: seq<string>)

  /** How a query's task ends: with options, with an error, or by panicking. */
  datatype Outcome<V> = Options(value: V) | Error(message: string) | Panic

  datatype Status = Pending | PendingDependency | Running | Resolved | Failed(message: string)

  datatype Report = UpdatePending | Completed | IncompleteInput | SchemaValidationFailed

  /** What validating the inputs against a schema finds. */
  datatype Validation = InvalidSchema | Valid | MissingProperty | WrongInput

  datatype Event<Schema> = Event(report: Report, schema: Schema, queryStatus: map<string, Status>)

  /** The schema as declared, how it resolves against query results, and how inputs fare against it. */
  datatype Form<!V, !Schema> = Form(
    schema: Schema,
    resolve: Entries<V> -> Schema,
    validate: Schema -> Validation)

  // ---------------------------------------------------------------- which queries run

  predicate IsMissing(inputs: Inputs, dependency: string) {
    dependency !in inputs || inputs[dependency] == Null || inputs[dependency] == Text("")
  }

  predicate Runnable(inputs: Inputs, query: Query) {
    forall d :: 0 <= d < |query.dependencies| ==> !IsMissing(inputs, query.dependencies[d])
  }

  predicate RunsAt(inputs: Inputs, queries: seq<Query>, i: int) {
    0 <= i < |queries| && Runnable(inputs, queries[i])
  }

  /** An order the tasks may complete in: each that runs, once. */
  ghost predicate IsOrder(inputs: Inputs, queries: seq<Query>, order: seq<nat>) {
    (forall k :: 0 <= k < |order| ==> RunsAt(inputs, queries, order[k]))
    && (forall i: nat :: RunsAt(inputs, queries, i) ==> i in order)
    && forall j, k :: 0 <= j < k < |order| ==> order[j] != order[k]
  }

  // ---------------------------------------------------------------- statuses

  function Ended<V>(outcome: Outcome<V>): Status {
    match outcome
    case Options(_) => Resolved
    case Error(message) => Failed(message)
    case Panic => Running
  }

  function StatusAfter<V>(inputs: Inputs, queries: seq<Query>, outcomes: seq<Outcome<V>>,
      done: seq<nat>, i: nat): Status
    requires i < |queries| == |outcomes|
  {
    if !Runnable(inputs, queries[i]) then PendingDependency else if i in done then Ended(outcomes[i]) else Running
  }

  function StatusesAfter<V>(inputs: Inputs, queries: seq<Query>, outcomes: seq<Outcome<V>>,
      done: seq<nat>): seq<Status>
    requires |queries| == |outcomes|
  {
    seq(|queries|, i requires 0 <= i < |queries| => StatusAfter(inputs, queries, outcomes, done, i))
  }

  predicate AnyRunning(statuses: seq<Status>) { exists i :: 0 <= i < |statuses| && statuses[i] == Running }

  /** One entry a name; of queries of the same name the last counts. */
  function StatusMap(queries: seq<Query>, statuses: seq<Status>): map<string, Status>
    requires |queries| == |statuses|
  {
    if queries == [] then map[]
    else
      var last := |queries| - 1;
      StatusMap(queries[..last], statuses[..last])[queries[last].name := statuses[last]]
  }

  function ReportOf(running: bool, validation: Validation): Report {
    if running then UpdatePending
    else match validation
         case InvalidSchema => SchemaValidationFailed
         case Valid => Completed
         case MissingProperty => IncompleteInput
         case WrongInput => SchemaValidationFailed
  }

  // ---------------------------------------------------------------- results

  /** What has been inserted once the tasks of `done` have completed, in that order. */
  function ResultsOf<V>(queries: seq<Query>, outcomes: seq<Outcome<V>>, done: seq<nat>): Entries<V>
    requires |queries| == |outcomes| && forall k :: 0 <= k < |done| ==> done[k] < |queries|
  {
    if done == [] then []
    else
      var before, i := ResultsOf(queries, outcomes, done[..|done| - 1]), done[|done| - 1];
      if outcomes[i].Options? then Insert(before, queries[i].name, outcomes[i].value) else before
  }

  /** The events of the first `k` completions. */
  function LoopEvents<V, Schema>(form: Form<V, Schema>, inputs: Inputs, queries: seq<Query>,
      outcomes: seq<Outcome<V>>, order: seq<nat>, k: nat): seq<Event<Schema>>
    requires |queries| == |outcomes| && k <= |order|
    decreases k
  {
    if k == 0 then []
    else
      var before := LoopEvents(form, inputs, queries, outcomes, order, k - 1);
      var statuses := StatusesAfter(inputs, queries, outcomes, order[..k]);
      if AnyRunning(statuses)
      then before + [Event(UpdatePending, form.schema, StatusMap(queries, statuses))] else before
  }

  function EmitEvent<V, Schema>(form: Form<V, Schema>, schema: Schema, queries: seq<Query>,
      statuses: seq<Status>): Event<Schema>
    requires |queries| == |statuses|
  {
    Event(ReportOf(AnyRunning(statuses), form.validate(schema)), schema, StatusMap(queries, statuses))
  }

  /** The last event, with the schema resolved against the results. */
  function LastEvent<V, Schema>(form: Form<V, Schema>, inputs: Inputs, queries: seq<Query>,
      outcomes: seq<Outcome<V>>, order: seq<nat>): Event<Schema>
    requires |queries| == |outcomes| && forall k :: 0 <= k < |order| ==> order[k] < |queries|
  {
    EmitEvent(form, form.resolve(ResultsOf(queries, outcomes, order)), queries,
              StatusesAfter(inputs, queries, outcomes, order))
  }

  /** All events: one to begin with, those of the loop, and the last. */
  function EventsOf<V, Schema>(form: Form<V, Schema>, inputs: Inputs, queries: seq<Query>,
      outcomes: seq<Outcome<V>>, order: seq<nat>): seq<Event<Schema>>
    requires |queries| == |outcomes| && forall k :: 0 <= k < |order| ==> order[k] < |queries|
  {
    [EmitEvent(form, form.schema, queries, StatusesAfter(inputs, queries, outcomes, []))]
    + LoopEvents(form, inputs, queries, outcomes, order, |order|)
    + [LastEvent(form, inputs, queries, outcomes, order)]
  }

  /** One task's completion sets its status, and no other's. */
  lemma OneMoreDone<V>(inputs: Inputs, queries: seq<Query>, outcomes: seq<Outcome<V>>, done: seq<nat>, i: nat)
    requires |queries| == |outcomes| && RunsAt(inputs, queries, i) && i !in done
    ensures StatusesAfter(inputs, queries, outcomes, done + [i])
         == StatusesAfter(inputs, queries, outcomes, done)[i := Ended(outcomes[i])]
    ensures StatusesAfter(inputs, queries, outcomes, done)[i] == Running
  {
  }

  lemma AllDone<V>(inputs: Inputs, queries: seq<Query>, outcomes: seq<Outcome<V>>, order: seq<nat>, i: nat)
    requires |queries| == |outcomes| && IsOrder(inputs, queries, order) && i < |queries|
    ensures StatusesAfter(inputs, queries, outcomes, order)[i]
         == if Runnable(inputs, queries[i]) then Ended(outcomes[i]) else PendingDependency
  {
    if Runnable(inputs, queries[i]) { assert RunsAt(inputs, queries, i); }
  }

  /** The tasks whose dependencies are there start; the others wait. */
  method StartTasks<V>(inputs: Inputs, queries: seq<Query>, ghost outcomes: seq<Outcome<V>>)
    returns (statuses: seq<Status>)
    requires |queries| == |outcomes|
    ensures statuses == StatusesAfter(inputs, queries, outcomes, [])
    ensures forall i :: 0 <= i < |queries| ==>
              statuses[i] == if exists d :: d in queries[i].dependencies
                                     && (d !in inputs || inputs[d] == Null || inputs[d] == Text(""))
                             then PendingDependency else Running
  {
    statuses := [];
    for i := 0 to |queries|
      invariant |statuses| == i
      invariant forall j :: 0 <= j < i ==> statuses[j] == StatusAfter(inputs, queries, outcomes, [], j)
    {
      statuses := statuses + [if Runnable(inputs, queries[i]) then Running else PendingDependency];
    }
    forall i | 0 <= i < |queries|
      ensures Runnable(inputs, queries[i]) <==> !exists d :: d in queries[i].dependencies && IsMissing(inputs, d)
    {
      assert forall k :: 0 <= k < |queries[i].dependencies| ==> queries[i].dependencies[k] in queries[i].dependencies;
    }
  }

  /** The loop, given the order in which the tasks happen to complete. */
  method RunHydrationLoop<V, Schema>(form: Form<V, Schema>, inputs: Inputs, queries: seq<Query>,
      outcomes: seq<Outcome<V>>, order: seq<nat>)
    returns (statuses: seq<Status>, results: Entries<V>, events: seq<Event<Schema>>)
    requires |queries| == |outcomes| && IsOrder(inputs, queries, order)
    ensures |statuses| == |queries|
    ensures forall i :: 0 <= i < |queries| ==>
              statuses[i] == if !Runnable(inputs, queries[i]) then PendingDependency
                             else match outcomes[i] case Options(_) => Resolved
                                                    case Error(message) => Failed(message)
                                                    case Panic => Running
    ensures results == ResultsOf(queries, outcomes, order)
    ensures events == EventsOf(form, inputs, queries, outcomes, order)
  {
    statuses := StartTasks(inputs, queries, outcomes);
    hide StatusMap, StatusesAfter, Insert, Runnable, AnyRunning, ReportOf;
    var first := EmitEvent(form, form.schema, queries, statuses);
    events := [first];
    results := [];
    for k := 0 to |order|
      invariant statuses == StatusesAfter(inputs, queries, outcomes, order[..k]) && |statuses| == |queries|
      invariant results == ResultsOf(queries, outcomes, order[..k])
      invariant events == [first] + LoopEvents(form, inputs, queries, outcomes, order, k)
    {
      var i := order[k];
      assert RunsAt(inputs, queries, i);
      assert order[..k + 1] == order[..k] + [i] && order[..k + 1][..k] == order[..k];
      OneMoreDone(inputs, queries, outcomes, order[..k], i);
      match outcomes[i] {
        case Options(value) =>
          statuses := statuses[i := Resolved];
          results := Insert(results, queries[i].name, value);
        case Error(message) => statuses := statuses[i := Failed(message)];
        case Panic =>
      }
      if AnyRunning(statuses) {
        events := events + [Event(UpdatePending, form.schema, StatusMap(queries, statuses))];
      }
    }
    assert order[..|order|] == order;
    forall i: nat | i < |queries|
      ensures statuses[i] == if Runnable(inputs, queries[i]) then Ended(outcomes[i]) else PendingDependency
    {
      AllDone(inputs, queries, outcomes, order, i);
    }
    events := events + [EmitEvent(form, form.resolve(results), queries, statuses)];
  }

  /** An event shows, for every name, the status of the last query of that name. */
  lemma {:induction false} StatusMapIs(queries: seq<Query>, statuses: seq<Status>, i: nat)
    requires |queries| == |statuses| && i < |queries|
    requires forall j :: i < j < |queries| ==> queries[j].name != queries[i].name
    ensures queries[i].name in StatusMap(queries, statuses)
    ensures StatusMap(queries, statuses)[queries[i].name] == statuses[i]
    decreases |queries|
  {
    var last := |queries| - 1;
    if i < last { StatusMapIs(queries[..last], statuses[..last], i); }
  }

  // ---------------------------------------------------------------- statuses only move on

  /** From `a`, a task can be in `b` later. */
  predicate Progress(a: Status, b: Status) { a == b || (a.Running? && (b.Resolved? || b.Failed?)) }

  lemma StatusesNeverGoBack<V>(inputs: Inputs, queries: seq<Query>, outcomes: seq<Outcome<V>>,
      order: seq<nat>, j: nat, k: nat, i: nat)
    requires i < |queries| == |outcomes| && j <= k <= |order|
    ensures Progress(StatusAfter(inputs, queries, outcomes, order[..j], i),
                     StatusAfter(inputs, queries, outcomes, order[..k], i))
  {
    assert order[..j] == order[..k][..j];
  }

  predicate MapProgress(a: map<string, Status>, b: map<string, Status>) {
    a.Keys == b.Keys && forall name :: name in a ==> Progress(a[name], b[name])
  }

  lemma {:induction false} StatusMapsProgress(queries: seq<Query>, a: seq<Status>, b: seq<Status>)
    requires |queries| == |a| == |b| && forall i :: 0 <= i < |a| ==> Progress(a[i], b[i])
    ensures MapProgress(StatusMap(queries, a), StatusMap(queries, b))
    decreases |queries|
  {
    if queries != [] {
      var n := |queries| - 1;
      StatusMapsProgress(queries[..n], a[..n], b[..n]);
    }
  }

  lemma MapsAfterProgress<V>(inputs: Inputs, queries: seq<Query>, outcomes: seq<Outcome<V>>,
      order: seq<nat>, j: nat, k: nat)
    requires |queries| == |outcomes| && j <= k <= |order|
    ensures MapProgress(StatusMap(queries, StatusesAfter(inputs, queries, outcomes, order[..j])),
                        StatusMap(queries, StatusesAfter(inputs, queries, outcomes, order[..k])))
  {
    forall i | 0 <= i < |queries| ensures Progress(StatusesAfter(inputs, queries, outcomes, order[..j])[i],
                                                   StatusesAfter(inputs, queries, outcomes, order[..k])[i]) {
      StatusesNeverGoBack(inputs, queries, outcomes, order, j, k, i);
    }
    StatusMapsProgress(queries, StatusesAfter(inputs, queries, outcomes, order[..j]),
                       StatusesAfter(inputs, queries, outcomes, order[..k]));
  }

  /** Which completion each event in the loop reports on: a later event never on an earlier one. */
  lemma {:induction false} LoopEventOf<V, Schema>(form: Form<V, Schema>, inputs: Inputs, queries: seq<Query>,
      outcomes: seq<Outcome<V>>, order: seq<nat>, k: nat, e: nat) returns (j: nat)
    requires |queries| == |outcomes| && k <= |order|
    requires e < |LoopEvents(form, inputs, queries, outcomes, order, k)|
    ensures 0 < j <= k && |LoopEvents(form, inputs, queries, outcomes, order, j)| == e + 1
    ensures LoopEvents(form, inputs, queries, outcomes, order, k)[e]
         == Event(UpdatePending, form.schema, StatusMap(queries, StatusesAfter(inputs, queries, outcomes, order[..j])))
    ensures AnyRunning(StatusesAfter(inputs, queries, outcomes, order[..j]))
    decreases k
  {
    hide StatusesAfter, StatusMap, AnyRunning;
    if e < |LoopEvents(form, inputs, queries, outcomes, order, k - 1)| {
      j := LoopEventOf(form, inputs, queries, outcomes, order, k - 1, e);
    } else {
      j := k;
    }
  }

  lemma {:induction false} LoopEventsGrow<V, Schema>(form: Form<V, Schema>, inputs: Inputs, queries: seq<Query>,
      outcomes: seq<Outcome<V>>, order: seq<nat>, j: nat, k: nat)
    requires |queries| == |outcomes| && j <= k <= |order|
    ensures |LoopEvents(form, inputs, queries, outcomes, order, j)|
         <= |LoopEvents(form, inputs, queries, outcomes, order, k)|
    decreases k
  {
    hide StatusesAfter, StatusMap, AnyRunning;
    if j < k { LoopEventsGrow(form, inputs, queries, outcomes, order, j, k - 1); }
  }

  /** The number of tasks done when an event is sent. */
  lemma EventOf<V, Schema>(form: Form<V, Schema>, inputs: Inputs, queries: seq<Query>,
      outcomes: seq<Outcome<V>>, order: seq<nat>, e: nat) returns (j: nat)
    requires |queries| == |outcomes| && IsOrder(inputs, queries, order)
    requires e < |EventsOf(form, inputs, queries, outcomes, order)|
    ensures j <= |order|
    ensures EventsOf(form, inputs, queries, outcomes, order)[e].queryStatus
         == StatusMap(queries, StatusesAfter(inputs, queries, outcomes, order[..j]))
    ensures e == 0 ==> j == 0
    ensures e == |EventsOf(form, inputs, queries, outcomes, order)| - 1 ==> j == |order|
    ensures 0 < e < |EventsOf(form, inputs, queries, outcomes, order)| - 1 ==>
              j > 0 && |LoopEvents(form, inputs, queries, outcomes, order, j)| == e
              && EventsOf(form, inputs, queries, outcomes, order)[e].report == UpdatePending
  {
    hide StatusesAfter, StatusMap, AnyRunning, LoopEvents, ResultsOf;
    var loop := LoopEvents(form, inputs, queries, outcomes, order, |order|);
    assert order[..0] == [] && order[..|order|] == order;
    if e == 0 {
      j := 0;
    } else if e <= |loop| {
      j := LoopEventOf(form, inputs, queries, outcomes, order, |order|, e - 1);
    } else {
      j := |order|;
    }
  }

  /** From one event to any later one no task's status goes back. */
  lemma EventsNeverGoBack<V, Schema>(form: Form<V, Schema>, inputs: Inputs, queries: seq<Query>,
      outcomes: seq<Outcome<V>>, order: seq<nat>, a: nat, b: nat)
    requires |queries| == |outcomes| && IsOrder(inputs, queries, order)
    requires a < b < |EventsOf(form, inputs, queries, outcomes, order)|
    ensures MapProgress(EventsOf(form, inputs, queries, outcomes, order)[a].queryStatus,
                        EventsOf(form, inputs, queries, outcomes, order)[b].queryStatus)
  {
    var j := EventOf(form, inputs, queries, outcomes, order, a);
    var k := EventOf(form, inputs, queries, outcomes, order, b);
    hide EventsOf, StatusesAfter, StatusMap, AnyRunning, LoopEvents, ResultsOf, MapProgress;
    if k < j { LoopEventsGrow(form, inputs, queries, outcomes, order, k, j); }
    MapsAfterProgress(inputs, queries, outcomes, order, j, k);
  }

  /** As long as anything runs the events say so; the last one does only if some task panicked. */
  lemma EventsReportPending<V, Schema>(form: Form<V, Schema>, inputs: Inputs, queries: seq<Query>,
      outcomes: seq<Outcome<V>>, order: seq<nat>, e: nat)
    requires |queries| == |outcomes| && IsOrder(inputs, queries, order)
    requires e < |EventsOf(form, inputs, queries, outcomes, order)|
    ensures var events := EventsOf(form, inputs, queries, outcomes, order);
            if e < |events| - 1 then events[e].report == UpdatePending || (e == 0 && order == [])
            else events[e].report == UpdatePending
                 <==> exists i :: RunsAt(inputs, queries, i) && outcomes[i].Panic?
  {
    var events := EventsOf(form, inputs, queries, outcomes, order);
    var j := EventOf(form, inputs, queries, outcomes, order, e);
    hide StatusMap, LoopEvents, ResultsOf;
    if e == 0 && order != [] {
      var statuses := StatusesAfter(inputs, queries, outcomes, []);
      assert RunsAt(inputs, queries, order[0]);
      assert statuses[order[0]] == Running;
    } else if e == |events| - 1 {
      var statuses := StatusesAfter(inputs, queries, outcomes, order);
      assert forall i: nat :: i < |queries| ==> statuses[i] == StatusAfter(inputs, queries, outcomes, order, i);
      if exists i :: RunsAt(inputs, queries, i) && outcomes[i].Panic? {
        var i :| RunsAt(inputs, queries, i) && outcomes[i].Panic?;
        assert statuses[i] == Running;
      }
      if AnyRunning(statuses) {
        var i :| 0 <= i < |statuses| && statuses[i] == Running;
        assert RunsAt(inputs, queries, i);
      }
    }
  }

  /** After every completion that leaves something running there is an event that shows the statuses then. */
  lemma {:induction false} CompletionsAreReported<V, Schema>(form: Form<V, Schema>, inputs: Inputs, queries: seq<Query>,
      outcomes: seq<Outcome<V>>, order: seq<nat>, j: nat, k: nat) returns (e: nat)
    requires |queries| == |outcomes| && 0 < j <= k <= |order|
    requires AnyRunning(StatusesAfter(inputs, queries, outcomes, order[..j]))
    ensures e < |LoopEvents(form, inputs, queries, outcomes, order, k)|
    ensures LoopEvents(form, inputs, queries, outcomes, order, k)[e].queryStatus
         == StatusMap(queries, StatusesAfter(inputs, queries, outcomes, order[..j]))
    decreases k
  {
    hide StatusesAfter, StatusMap, AnyRunning;
    if j < k {
      e := CompletionsAreReported(form, inputs, queries, outcomes, order, j, k - 1);
    } else {
      e := |LoopEvents(form, inputs, queries, outcomes, order, k - 1)|;
    }
  }

  /** Until the last, every event shows the schema as declared. */
  lemma EarlierEventsShowTheSchema<V, Schema>(form: Form<V, Schema>, inputs: Inputs, queries: seq<Query>,
      outcomes: seq<Outcome<V>>, order: seq<nat>, e: nat)
    requires |queries| == |outcomes| && IsOrder(inputs, queries, order)
    requires e + 1 < |EventsOf(form, inputs, queries, outcomes, order)|
    ensures EventsOf(form, inputs, queries, outcomes, order)[e].schema == form.schema
  {
    hide StatusesAfter, StatusMap, AnyRunning, LoopEvents, ResultsOf;
    if e > 0 { var _ := LoopEventOf(form, inputs, queries, outcomes, order, |order|, e - 1); }
  }

  /**
    What the last event reports when no task panicked: completed if the inputs are valid against
    the resolved schema, incomplete if a required property is missing, failed in all other cases.
   */
  lemma LastReportIs<V, Schema>(form: Form<V, Schema>, inputs: Inputs, queries: seq<Query>,
      outcomes: seq<Outcome<V>>, order: seq<nat>)
    requires |queries| == |outcomes| && IsOrder(inputs, queries, order)
    requires forall i :: RunsAt(inputs, queries, i) ==> !outcomes[i].Panic?
    ensures var last, found := LastEvent(form, inputs, queries, outcomes, order),
                               form.validate(form.resolve(ResultsOf(queries, outcomes, order)));
            && (last.report == Completed <==> found == Valid)
            && (last.report == IncompleteInput <==> found == MissingProperty)
            && (last.report == SchemaValidationFailed <==> found == InvalidSchema || found == WrongInput)
  {
    var events := EventsOf(form, inputs, queries, outcomes, order);
    EventsReportPending(form, inputs, queries, outcomes, order, |events| - 1);
    hide StatusMap, StatusesAfter, ResultsOf, LoopEvents;
  }

  // ---------------------------------------------------------------- the order of completion

  predicate Succeeds<V>(inputs: Inputs, queries: seq<Query>, outcomes: seq<Outcome<V>>, i: int)
    requires |queries| == |outcomes|
  {
    RunsAt(inputs, queries, i) && outcomes[i].Options?
  }

  /** Queries that share a name and both succeed have the same options. */
  ghost predicate Agree<V>(inputs: Inputs, queries: seq<Query>, outcomes: seq<Outcome<V>>)
    requires |queries| == |outcomes|
  {
    forall i, j ::
      (Succeeds(inputs, queries, outcomes, i) && Succeeds(inputs, queries, outcomes, j)
       && queries[i].name == queries[j].name) ==>
        outcomes[i] == outcomes[j]
  }

  ghost predicate InRange(queries: seq<Query>, done: seq<nat>) { forall k :: 0 <= k < |done| ==> done[k] < |queries| }

  /** One more completion, seen from one name. */
  lemma ResultsLookup<V>(queries: seq<Query>, outcomes: seq<Outcome<V>>, done: seq<nat>, name: string)
    requires |queries| == |outcomes| && InRange(queries, done) && done != []
    ensures var last, before := done[|done| - 1], ResultsOf(queries, outcomes, done[..|done| - 1]);
            Lookup(ResultsOf(queries, outcomes, done), name)
            == if outcomes[last].Options? && queries[last].name == name then Some(outcomes[last].value)
               else Lookup(before, name)
  {
    hide Lookup, Insert;
    var last := done[|done| - 1];
    if outcomes[last].Options? {
      var before := ResultsOf(queries, outcomes, done[..|done| - 1]);
      InsertThenLookup(before, queries[last].name, outcomes[last].value, name);
    }
  }

  lemma {:induction false} ResultsComeFromTasks<V>(queries: seq<Query>, outcomes: seq<Outcome<V>>, done: seq<nat>,
      name: string) returns (i: nat)
    requires |queries| == |outcomes| && InRange(queries, done)
    requires Lookup(ResultsOf(queries, outcomes, done), name).Some?
    ensures i in done && i < |queries| && queries[i].name == name
    ensures outcomes[i].Options? && Lookup(ResultsOf(queries, outcomes, done), name) == Some(outcomes[i].value)
    decreases |done|
  {
    var last := done[|done| - 1];
    ResultsLookup(queries, outcomes, done, name);
    if outcomes[last].Options? && queries[last].name == name {
      i := last;
    } else {
      i := ResultsComeFromTasks(queries, outcomes, done[..|done| - 1], name);
    }
  }

  lemma {:induction false} TasksGiveResults<V>(queries: seq<Query>, outcomes: seq<Outcome<V>>, done: seq<nat>, i: nat)
    requires |queries| == |outcomes| && InRange(queries, done) && i in done && outcomes[i].Options?
    ensures Lookup(ResultsOf(queries, outcomes, done), queries[i].name).Some?
    decreases |done|
  {
    hide Lookup, Insert;
    ResultsLookup(queries, outcomes, done, queries[i].name);
    if i != done[|done| - 1] { TasksGiveResults(queries, outcomes, done[..|done| - 1], i); }
  }

  /** The same to whoever reads them by name. */
  ghost predicate SameLookups<V>(a: Entries<V>, b: Entries<V>) { forall name :: Lookup(a, name) == Lookup(b, name) }

  ghost predicate SameResults<V>(queries: seq<Query>, outcomes: seq<Outcome<V>>, order: seq<nat>, order': seq<nat>)
    requires |queries| == |outcomes|
  {
    InRange(queries, order) && InRange(queries, order')
    && SameLookups(ResultsOf(queries, outcomes, order), ResultsOf(queries, outcomes, order'))
  }

  lemma ResultsIncluded<V>(inputs: Inputs, queries: seq<Query>, outcomes: seq<Outcome<V>>,
      order: seq<nat>, order': seq<nat>, name: string)
    requires |queries| == |outcomes| && Agree(inputs, queries, outcomes)
    requires IsOrder(inputs, queries, order) && IsOrder(inputs, queries, order')
    requires Lookup(ResultsOf(queries, outcomes, order), name).Some?
    ensures Lookup(ResultsOf(queries, outcomes, order'), name) == Lookup(ResultsOf(queries, outcomes, order), name)
  {
    hide ResultsOf, Lookup;
    var i := ResultsComeFromTasks(queries, outcomes, order, name);
    assert Succeeds(inputs, queries, outcomes, i);
    TasksGiveResults(queries, outcomes, order', i);
    var j := ResultsComeFromTasks(queries, outcomes, order', name);
    assert Succeeds(inputs, queries, outcomes, j);
  }

  lemma AgreeingResultsAreTheSame<V>(inputs: Inputs, queries: seq<Query>, outcomes: seq<Outcome<V>>,
      order: seq<nat>, order': seq<nat>)
    requires |queries| == |outcomes| && Agree(inputs, queries, outcomes)
    requires IsOrder(inputs, queries, order) && IsOrder(inputs, queries, order')
    ensures SameResults(queries, outcomes, order, order')
  {
    hide Agree, Lookup, ResultsOf;
    var a, b := ResultsOf(queries, outcomes, order), ResultsOf(queries, outcomes, order');
    forall name ensures Lookup(a, name) == Lookup(b, name) {
      if Lookup(a, name).Some? {
        ResultsIncluded(inputs, queries, outcomes, order, order', name);
      } else if Lookup(b, name).Some? {
        ResultsIncluded(inputs, queries, outcomes, order', order, name);
      }
    }
  }

  function Without(order: seq<nat>, i: nat): seq<nat> {
    if order == [] then [] else if order[0] == i then Without(order[1..], i) else [order[0]] + Without(order[1..], i)
  }

  lemma {:induction false} WithoutFacts(order: seq<nat>, i: nat)
    requires forall j, k :: 0 <= j < k < |order| ==> order[j] != order[k]
    ensures forall x: nat :: x in Without(order, i) <==> x in order && x != i
    ensures forall j, k :: 0 <= j < k < |Without(order, i)| ==> Without(order, i)[j] != Without(order, i)[k]
  {
    if order != [] {
      var rest := order[1..];
      WithoutFacts(rest, i);
      assert order[0] !in rest;
    }
  }

  /** Any task may be the first to complete, and any the last. */
  lemma FirstOrLast(inputs: Inputs, queries: seq<Query>, order: seq<nat>, i: nat)
    returns (first: seq<nat>, last: seq<nat>)
    requires IsOrder(inputs, queries, order) && RunsAt(inputs, queries, i)
    ensures IsOrder(inputs, queries, first) && first != [] && first[0] == i
    ensures IsOrder(inputs, queries, last) && last != [] && last[|last| - 1] == i
  {
    WithoutFacts(order, i);
    var rest := Without(order, i);
    first, last := [i] + rest, rest + [i];
    forall k | 0 <= k < |rest| ensures RunsAt(inputs, queries, rest[k]) { assert rest[k] in rest; }
    forall x: nat | RunsAt(inputs, queries, x) ensures x in first && x in last {
      assert x in order;
      assert x != i ==> x in rest;
    }
    assert i !in rest;
  }

  /** Two successful tasks of one name with different options: either can be the one that counts. */
  lemma DisagreementShows<V>(inputs: Inputs, queries: seq<Query>, outcomes: seq<Outcome<V>>, order: seq<nat>)
    returns (one: seq<nat>, other: seq<nat>)
    requires |queries| == |outcomes| && IsOrder(inputs, queries, order) && !Agree(inputs, queries, outcomes)
    ensures IsOrder(inputs, queries, one) && IsOrder(inputs, queries, other)
    ensures !SameResults(queries, outcomes, one, other)
  {
    var i, j :| Succeeds(inputs, queries, outcomes, i) && Succeeds(inputs, queries, outcomes, j)
                && queries[i].name == queries[j].name && outcomes[i] != outcomes[j];
    hide ResultsOf, Lookup;
    assert RunsAt(inputs, queries, i) && RunsAt(inputs, queries, j);
    var _, lastI := FirstOrLast(inputs, queries, order, i);
    var _, lastJ := FirstOrLast(inputs, queries, order, j);
    ResultsLookup(queries, outcomes, lastI, queries[i].name);
    ResultsLookup(queries, outcomes, lastJ, queries[i].name);
    one, other := lastI, lastJ;
  }

  /** By name, the results are the same for every order of completion exactly if queries that share a name agree. */
  lemma OrderDoesNotMatter<V>(inputs: Inputs, queries: seq<Query>, outcomes: seq<Outcome<V>>, order: seq<nat>)
    requires |queries| == |outcomes| && IsOrder(inputs, queries, order)
    ensures (forall order' :: IsOrder(inputs, queries, order') ==> SameResults(queries, outcomes, order, order'))
       <==> Agree(inputs, queries, outcomes)
  {
    hide ResultsOf, Lookup, IsOrder;
    if Agree(inputs, queries, outcomes) {
      forall order' | IsOrder(inputs, queries, order') ensures SameResults(queries, outcomes, order, order') {
        AgreeingResultsAreTheSame(inputs, queries, outcomes, order, order');
      }
    } else {
      var one, other := DisagreementShows(inputs, queries, outcomes, order);
      if SameResults(queries, outcomes, order, one) && SameResults(queries, outcomes, order, other) {
        SameResultsCompose(queries, outcomes, order, one, other);
      }
    }
  }

  lemma SameResultsCompose<V>(queries: seq<Query>, outcomes: seq<Outcome<V>>, a: seq<nat>, b: seq<nat>, c: seq<nat>)
    requires |queries| == |outcomes| && SameResults(queries, outcomes, a, b) && SameResults(queries, outcomes, a, c)
    ensures SameResults(queries, outcomes, b, c)
  {
    hide ResultsOf, Lookup;
    forall name
      ensures Lookup(ResultsOf(queries, outcomes, b), name) == Lookup(ResultsOf(queries, outcomes, c), name)
    {
      assert Lookup(ResultsOf(queries, outcomes, a), name) == Lookup(ResultsOf(queries, outcomes, b), name);
    }
  }

  lemma DistinctNamesAgree<V>(inputs: Inputs, queries: seq<Query>, outcomes: seq<Outcome<V>>)
    requires |queries| == |outcomes|
    requires forall i, j :: 0 <= i < j < |queries| ==> queries[i].name != queries[j].name
    ensures Agree(inputs, queries, outcomes)
  {
  }

  // ---------------------------------------------------------------- the order of the entries

  /** At most one name succeeds. */
  ghost predicate OneName<V>(inputs: Inputs, queries: seq<Query>, outcomes: seq<Outcome<V>>)
    requires |queries| == |outcomes|
  {
    forall i, j ::
      Succeeds(inputs, queries, outcomes, i) && Succeeds(inputs, queries, outcomes, j) ==>
        queries[i].name == queries[j].name
  }

  lemma {:induction false} AtMostOneEntry<V>(inputs: Inputs, queries: seq<Query>, outcomes: seq<Outcome<V>>,
      done: seq<nat>)
    requires |queries| == |outcomes| && OneName(inputs, queries, outcomes) && InRange(queries, done)
    requires forall k :: 0 <= k < |done| ==> RunsAt(inputs, queries, done[k])
    ensures |ResultsOf(queries, outcomes, done)| <= 1
    ensures forall i :: ResultsOf(queries, outcomes, done) != [] && Succeeds(inputs, queries, outcomes, i) ==>
              ResultsOf(queries, outcomes, done)[0].0 == queries[i].name
    decreases |done|
  {
    if done != [] {
      AtMostOneEntry(inputs, queries, outcomes, done[..|done| - 1]);
      var last := done[|done| - 1];
      if outcomes[last].Options? { assert Succeeds(inputs, queries, outcomes, last); }
    }
  }

  lemma OneEntryByName<V>(a: Entries<V>, b: Entries<V>)
    requires |a| <= 1 && |b| <= 1 && SameLookups(a, b)
    ensures a == b
  {
    if a != [] { assert Lookup(a, a[0].0) == Lookup(b, a[0].0); }
    if b != [] { assert Lookup(a, b[0].0) == Lookup(b, b[0].0); }
  }

  lemma {:induction false} FirstKeyStays<V>(queries: seq<Query>, outcomes: seq<Outcome<V>>, done: seq<nat>)
    requires |queries| == |outcomes| && InRange(queries, done) && done != [] && outcomes[done[0]].Options?
    ensures var results := ResultsOf(queries, outcomes, done);
            results != [] && results[0].0 == queries[done[0]].name
    decreases |done|
  {
    if |done| > 1 {
      FirstKeyStays(queries, outcomes, done[..|done| - 1]);
    } else {
      assert done[..|done| - 1] == [];
    }
  }

  ghost predicate SameEntries<V>(queries: seq<Query>, outcomes: seq<Outcome<V>>, order: seq<nat>, order': seq<nat>)
    requires |queries| == |outcomes|
  {
    InRange(queries, order) && InRange(queries, order')
    && ResultsOf(queries, outcomes, order) == ResultsOf(queries, outcomes, order')
  }

  lemma OneNameGivesOneOrder<V>(inputs: Inputs, queries: seq<Query>, outcomes: seq<Outcome<V>>,
      order: seq<nat>, order': seq<nat>)
    requires |queries| == |outcomes| && Agree(inputs, queries, outcomes) && OneName(inputs, queries, outcomes)
    requires IsOrder(inputs, queries, order) && IsOrder(inputs, queries, order')
    ensures SameEntries(queries, outcomes, order, order')
  {
    AgreeingResultsAreTheSame(inputs, queries, outcomes, order, order');
    hide ResultsOf, Lookup, Agree, OneName;
    AtMostOneEntry(inputs, queries, outcomes, order);
    AtMostOneEntry(inputs, queries, outcomes, order');
    OneEntryByName(ResultsOf(queries, outcomes, order), ResultsOf(queries, outcomes, order'));
  }

  /** Where two names succeed, either can be the first entry. */
  lemma TwoNamesShow<V>(inputs: Inputs, queries: seq<Query>, outcomes: seq<Outcome<V>>, order: seq<nat>)
    returns (one: seq<nat>, other: seq<nat>)
    requires |queries| == |outcomes| && IsOrder(inputs, queries, order) && !OneName(inputs, queries, outcomes)
    ensures IsOrder(inputs, queries, one) && IsOrder(inputs, queries, other)
    ensures !SameEntries(queries, outcomes, one, other)
  {
    var i, j :| Succeeds(inputs, queries, outcomes, i) && Succeeds(inputs, queries, outcomes, j)
                && queries[i].name != queries[j].name;
    hide ResultsOf;
    assert RunsAt(inputs, queries, i) && RunsAt(inputs, queries, j);
    var firstI, _ := FirstOrLast(inputs, queries, order, i);
    var firstJ, _ := FirstOrLast(inputs, queries, order, j);
    FirstKeyStays(queries, outcomes, firstI);
    FirstKeyStays(queries, outcomes, firstJ);
    one, other := firstI, firstJ;
  }

  /** As entries in order, the results are the same exactly if, besides, at most one name succeeds. */
  lemma EntryOrderMatters<V>(inputs: Inputs, queries: seq<Query>, outcomes: seq<Outcome<V>>, order: seq<nat>)
    requires |queries| == |outcomes| && IsOrder(inputs, queries, order)
    ensures (forall order' :: IsOrder(inputs, queries, order') ==> SameEntries(queries, outcomes, order, order'))
       <==> Agree(inputs, queries, outcomes) && OneName(inputs, queries, outcomes)
  {
    hide ResultsOf, Lookup, IsOrder, Agree, OneName;
    if !Agree(inputs, queries, outcomes) {
      var one, other := DisagreementShows(inputs, queries, outcomes, order);
      assert !SameEntries(queries, outcomes, one, other);
    } else if !OneName(inputs, queries, outcomes) {
      var one, other := TwoNamesShow(inputs, queries, outcomes, order);
      assert !SameEntries(queries, outcomes, one, other);
    } else {
      forall order' | IsOrder(inputs, queries, order') ensures SameEntries(queries, outcomes, order, order') {
        OneNameGivesOneOrder(inputs, queries, outcomes, order, order');
      }
    }
  }

  // ---------------------------------------------------------------- the last event

  lemma LastStatusesAreTheSame<V>(inputs: Inputs, queries: seq<Query>, outcomes: seq<Outcome<V>>,
      order: seq<nat>, order': seq<nat>)
    requires |queries| == |outcomes| && IsOrder(inputs, queries, order) && IsOrder(inputs, queries, order')
    ensures StatusesAfter(inputs, queries, outcomes, order) == StatusesAfter(inputs, queries, outcomes, order')
  {
    forall i: nat | i < |queries|
      ensures StatusAfter(inputs, queries, outcomes, order, i) == StatusAfter(inputs, queries, outcomes, order', i)
    {
      if Runnable(inputs, queries[i]) { assert RunsAt(inputs, queries, i); }
    }
  }

  /** The schema names the queries it takes results from; it does not walk over all there are. */
  ghost predicate ReadsByName<V(!new), Schema>(form: Form<V, Schema>) {
    forall a, b :: SameLookups(a, b) ==> form.resolve(a) == form.resolve(b)
  }

  /**
    The schema, the statuses and the report a form ends with are the same for every order: if the
    schema reads results by name and queries that share a name agree, or, for any schema, if at
    most one name succeeds besides.
   */
  lemma LastEventIsTheSame<V(!new), Schema>(form: Form<V, Schema>, inputs: Inputs, queries: seq<Query>,
      outcomes: seq<Outcome<V>>, order: seq<nat>, order': seq<nat>)
    requires |queries| == |outcomes| && IsOrder(inputs, queries, order) && IsOrder(inputs, queries, order')
    requires Agree(inputs, queries, outcomes) && (ReadsByName(form) || OneName(inputs, queries, outcomes))
    ensures LastEvent(form, inputs, queries, outcomes, order) == LastEvent(form, inputs, queries, outcomes, order')
  {
    LastStatusesAreTheSame(inputs, queries, outcomes, order, order');
    hide ResultsOf, Lookup, StatusesAfter, StatusMap, Agree, OneName;
    if ReadsByName(form) {
      AgreeingResultsAreTheSame(inputs, queries, outcomes, order, order');
    } else {
      OneNameGivesOneOrder(inputs, queries, outcomes, order, order');
    }
  }

  /** A form that shows the results as they are. */
  function Verbatim<V>(): Form<V, Entries<V>> { Form([], (results: Entries<V>) => results, (_: Entries<V>) => Valid) }

  /** And no less will do for every schema: one that shows all results ends the same only then. */
  lemma LastEventExactly<V(!new)>(inputs: Inputs, queries: seq<Query>, outcomes: seq<Outcome<V>>, order: seq<nat>)
    requires |queries| == |outcomes| && IsOrder(inputs, queries, order)
    ensures (forall order' :: IsOrder(inputs, queries, order') ==>
               LastEvent(Verbatim<V>(), inputs, queries, outcomes, order')
               == LastEvent(Verbatim<V>(), inputs, queries, outcomes, order))
       <==> Agree(inputs, queries, outcomes) && OneName(inputs, queries, outcomes)
  {
    EntryOrderMatters(inputs, queries, outcomes, order);
    hide ResultsOf, StatusesAfter, StatusMap, Agree, OneName;
    forall order' | IsOrder(inputs, queries, order')
      ensures LastEvent(Verbatim<V>(), inputs, queries, outcomes, order')
              == LastEvent(Verbatim<V>(), inputs, queries, outcomes, order)
         <==> SameEntries(queries, outcomes, order, order')
    {
      LastStatusesAreTheSame(inputs, queries, outcomes, order, order');
    }
  }

  /** What `%{ for name, options in queries }${name},%{ endfor }` comes to. */
  function ListNames<V>(results: Entries<V>): string {
    if results == [] then "" else results[0].0 + "," + ListNames(results[1..])
  }

  /** Two queries of different names that both succeed: such a schema tells which came first. */
  lemma LastEventTellsTheOrder()
    ensures var form := Form("", (results: Entries<int>) => ListNames(results), (_: string) => Valid);
            var queries, outcomes := [Query("a", []), Query("b", [])], [Options(1), Options(2)];
            IsOrder(map[], queries, [0, 1]) && IsOrder(map[], queries, [1, 0]) && Agree(map[], queries, outcomes)
            && LastEvent(form, map[], queries, outcomes, [0, 1]).schema == "a,b,"
            && LastEvent(form, map[], queries, outcomes, [1, 0]).schema == "b,a,"
  {
    var queries, outcomes := [Query("a", []), Query("b", [])], [Options(1), Options(2)];
    TwoOrders(queries, 0, 1);
    TwoOrders(queries, 1, 0);
    DistinctNamesAgree(map[], queries, outcomes);
    hide Agree, IsOrder, ResultsOf, ListNames, StatusesAfter, StatusMap;
    TwoResults(queries, outcomes, 0, 1);
    TwoResults(queries, outcomes, 1, 0);
  }

  lemma TwoOrders(queries: seq<Query>, i: nat, j: nat)
    requires |queries| == 2 && i < 2 && j < 2 && i != j && queries[0].dependencies == queries[1].dependencies == []
    ensures IsOrder(map[], queries, [i, j])
  {
    assert [i, j][0] == i && [i, j][1] == j;
  }

  lemma TwoResults(queries: seq<Query>, outcomes: seq<Outcome<int>>, i: nat, j: nat)
    requires |queries| == |outcomes| == 2 && i < 2 && j < 2
    requires outcomes[i].Options? && outcomes[j].Options? && queries[i].name != queries[j].name
    ensures ListNames(ResultsOf(queries, outcomes, [i, j])) == queries[i].name + "," + (queries[j].name + ",")
  {
    var a, b := (queries[i].name, outcomes[i].value), (queries[j].name, outcomes[j].value);
    assert [i, j][..1] == [i];
    assert [i][..0] == [];
    assert ResultsOf(queries, outcomes, [i]) == [a];
    assert ResultsOf(queries, outcomes, [i, j]) == [a, b];
    var both, rest: Entries<int> := [a, b], [b];
    assert both[1..] == rest && |rest[1..]| == 0;
    assert ListNames(rest) == b.0 + "," + "";
    assert b.0 + "," + "" == b.0 + ",";
  }
}
