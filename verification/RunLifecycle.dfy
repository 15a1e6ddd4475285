// A run's lifecycle: the typestate machine and its compare-and-set save.
module RunLifecycle {
  import opened Wrappers

  datatype Status = Queued | Resolving | StartPending | Running | Succeeded | Failed | Aborted

  predicate Finished(s: Status) { s.Succeeded? || s.Failed? || s.Aborted? }

  /** The moves of the diagram. */
  predicate Allowed(from: Status, to: Status) {
    !Finished(from)
    && (to.Failed? || to.Aborted?
        || (from.Queued? && to.Resolving?)
        || (from.Resolving? && to.StartPending?)
        || (from.StartPending? && to.Running?)
        || (from.Running? && to.Succeeded?))
  }

  /** What the database lets through: a move of the diagram, or a status that stays. */
  predicate PassesGuard(from: Status, to: Status) { from == to || Allowed(from, to) }

  /** The stored row of a run, as far as a transition writes it. */
  datatype Run = Run(status: Status, version: nat, updatedAt: int, startedResolvingAt: Option<int>,
                     startedAt: Option<int>, finishedAt: Option<int>, error: Option<string>)

  datatype Transition =
    | StartResolving
    | Resolved
    | Start
    | Succeed
    | Fail(reason: string)
    | Abort

  datatype Message = CancelSteps | RecoveryFailed | OtherEvent(id: int)

  /** Which state's machine has the transition. */
  predicate Enabled(from: Status, t: Transition) {
    match t
    case StartResolving => from.Queued?
    case Resolved => from.Resolving?
    case Start => from.StartPending?
    case Succeed => from.Running?
    case Fail(_) => !Finished(from)
    case Abort => !Finished(from)
  }

  function Target(t: Transition): Status {
    match t
    case StartResolving => Resolving
    case Resolved => StartPending
    case Start => Running
    case Succeed => Succeeded
    case Fail(_) => Failed
    case Abort => Aborted
  }

  /** What a transition writes, if the save goes through. */
  function Moved(held: Run, t: Transition, now: int): Run {
    held.(status := Target(t), version := held.version + 1, updatedAt := now,
          startedResolvingAt := if t.StartResolving? then Some(now) else held.startedResolvingAt,
          startedAt := if t.Start? then Some(now) else held.startedAt,
          finishedAt := if Finished(Target(t)) then Some(now) else held.finishedAt,
          error := if t.Fail? then Some(t.reason) else held.error)
  }

  /** A save goes through if the row is at the version and status the machine holds. */
  predicate CanSave(row: Run, held: Run) {
    row.version == held.version && row.status == held.status
  }

  /** Ending a running run tells the runners to stop its steps. */
  function Queues(from: Status, t: Transition): seq<Message> {
    if from.Running? && (t.Fail? || t.Abort?) then [CancelSteps] else []
  }

  // ---------------------------------------------------------------- the code

  /** The row and the outbox, as the connection in hand sees and writes them. */
  class Connection {
    var row: Run
    var outbox: seq<Message>

    constructor (row: Run)
      ensures this.row == row && outbox == []
    {
      this.row := row;
      outbox := [];
    }

    /** `persist_run`, with the database's guard on the status it writes. */
    method PersistRun(run: Run, expected: Status) returns (saved: bool)
      modifies this`row
      ensures saved <==> old(row).version == run.version && old(row).status == expected
                         && PassesGuard(expected, run.status)
      ensures row == if saved then run.(version := run.version + 1) else old(row)
    {
      if row.version == run.version && row.status == expected && PassesGuard(row.status, run.status) {
        row := run.(version := row.version + 1);
        saved := true;
      } else {
        saved := false;
      }
    }

    method Insert(message: Message)
      modifies this`outbox
      ensures outbox == old(outbox) + [message]
    {
      outbox := outbox + [message];
    }
  }

  /** What a transition does to the row, the outbox and the machine. */
  ghost predicate Stepped(held: Run, t: Transition, now: int, row: Run, outbox: seq<Message>,
                          saved: bool, held': Run, row': Run, outbox': seq<Message>) {
    if CanSave(row, held)
    then saved && row' == Moved(held, t, now) && outbox' == outbox + Queues(held.status, t) && held' == row'
    else !saved && row' == row && outbox' == outbox
  }

  /** `WorkflowMachine<S>`; `state` is the status its type stands for. */
  class WorkflowMachine {
    var run: Run
    var state: Status

    constructor (run: Run)
      ensures this.run == run && state == run.status
    {
      this.run := run;
      state := run.status;
    }

    /** Refuses a row whose status is not the state's. */
    static method Load(run: Run, expected: Status) returns (machine: WorkflowMachine?)
      ensures machine != null <==> run.status == expected
      ensures machine != null ==> fresh(machine) && machine.run == run && machine.state == expected
    {
      if run.status != expected {
        return null;
      }
      machine := new WorkflowMachine(run);
    }

    /** Saves the status a transition has set. A machine that cannot save is used no more. */
    method Save(now: int, db: Connection) returns (saved: bool)
      modifies this, db`row
      ensures saved <==> old(db.row).version == old(run).version && old(db.row).status == old(state)
                         && PassesGuard(old(state), old(run).status)
      ensures saved ==> db.row == old(run).(updatedAt := now, version := old(run).version + 1)
                        && run == db.row && state == run.status
      ensures !saved ==> db.row == old(db.row)
    {
      run := run.(updatedAt := now);
      saved := db.PersistRun(run, state);
      if saved {
        run := run.(version := run.version + 1);
        state := run.status;
      }
    }

    method Finish(status: Status, error: Option<string>, now: int)
      modifies this`run
      ensures run == old(run).(status := status, finishedAt := Some(now),
                               error := if error.Some? then error else old(run).error)
    {
      run := run.(status := status);
      run := run.(finishedAt := Some(now));
      if error.Some? {
        run := run.(error := error);
      }
    }

    method StartResolving(now: int, db: Connection) returns (saved: bool)
      requires run.status == state && Enabled(state, Transition.StartResolving)
      modifies this, db
      ensures Stepped(old(run), Transition.StartResolving, now, old(db.row), old(db.outbox),
                      saved, run, db.row, db.outbox)
      ensures saved ==> run.status.Resolving? && run.startedResolvingAt == Some(now) && run.updatedAt == now
    {
      run := run.(status := Status.Resolving);
      run := run.(startedResolvingAt := Some(now));
      saved := Save(now, db);
    }

    method BecomePending(now: int, db: Connection) returns (saved: bool)
      requires run.status == state && Enabled(state, Resolved)
      modifies this, db
      ensures Stepped(old(run), Resolved, now, old(db.row), old(db.outbox), saved, run, db.row, db.outbox)
      ensures saved ==> run.status.StartPending? && run.updatedAt == now && run.finishedAt == old(run).finishedAt
    {
      run := run.(status := Status.StartPending);
      saved := Save(now, db);
    }

    method Start(now: int, db: Connection) returns (saved: bool)
      requires run.status == state && Enabled(state, Transition.Start)
      modifies this, db
      ensures Stepped(old(run), Transition.Start, now, old(db.row), old(db.outbox), saved, run, db.row, db.outbox)
      ensures saved ==> run.status.Running? && run.startedAt == Some(now) && run.updatedAt == now
    {
      run := run.(status := Status.Running);
      run := run.(startedAt := Some(now));
      saved := Save(now, db);
    }

    method Succeed(now: int, db: Connection) returns (saved: bool)
      requires run.status == state && Enabled(state, Transition.Succeed)
      modifies this, db
      ensures Stepped(old(run), Transition.Succeed, now, old(db.row), old(db.outbox), saved, run, db.row, db.outbox)
      ensures saved ==> run.status.Succeeded? && run.finishedAt == Some(now) && run.error == old(run).error
    {
      Finish(Succeeded, None, now);
      saved := Save(now, db);
    }

    method Fail(reason: string, now: int, db: Connection) returns (saved: bool)
      requires run.status == state && Enabled(state, Transition.Fail(reason))
      modifies this, db
      ensures Stepped(old(run), Transition.Fail(reason), now, old(db.row), old(db.outbox),
                      saved, run, db.row, db.outbox)
      ensures saved ==> run.status.Failed? && run.finishedAt == Some(now) && run.error == Some(reason)
    {
      var wasRunning := state.Running?;
      Finish(Failed, Some(reason), now);
      saved := Save(now, db);
      if saved && wasRunning {
        db.Insert(CancelSteps);
      }
    }

    method Abort(now: int, db: Connection) returns (saved: bool)
      requires run.status == state && Enabled(state, Transition.Abort)
      modifies this, db
      ensures Stepped(old(run), Transition.Abort, now, old(db.row), old(db.outbox), saved, run, db.row, db.outbox)
      ensures saved ==> run.status.Aborted? && run.finishedAt == Some(now) && run.error == old(run).error
    {
      var wasRunning := state.Running?;
      Finish(Aborted, None, now);
      saved := Save(now, db);
      if saved && wasRunning {
        db.Insert(CancelSteps);
      }
    }
  }

  /** Every transition is a move of the diagram. */
  lemma TransitionsFollowTheDiagram(from: Status, t: Transition)
    ensures Enabled(from, t) ==> Allowed(from, Target(t))
  {
  }

  /** The database lets a status change exactly where some state's machine has the transition. */
  lemma GuardIsTheTransitions(from: Status, to: Status)
    ensures PassesGuard(from, to) <==> from == to || exists t :: Enabled(from, t) && Target(t) == to
  {
    var t := match to
             case Resolving => Transition.StartResolving
             case StartPending => Resolved
             case Running => Transition.Start
             case Succeeded => Transition.Succeed
             case Failed => Transition.Fail("")
             case _ => Transition.Abort;
    assert Allowed(from, to) ==> Enabled(from, t) && Target(t) == to;
  }
}

// Any number of engines racing to move one run, each holding a copy of some earlier row,
// with the save and the messages it queues in one transaction that can be rolled back.
module RunConcurrency {
  import opened Wrappers
  import opened RunLifecycle

  /** A transaction whose update holds the row's lock: the row it wrote, what it still has to insert. */
  datatype Tx = Tx(machine: nat, from: Run, row: Run, recovery: bool, todo: seq<Message>, inserted: seq<Message>)

  /** A committed save: who made it, from which row, and whether it was crash recovery's. */
  datatype Save = Save(machine: nat, from: Run, to: Run, recovery: bool)

  datatype State = State(row: Run, outbox: seq<Message>, tx: Option<Tx>, machines: map<nat, Run>,
                         history: seq<Run>, saves: seq<Save>)

  datatype Step =
    | LoadRow(id: nat, k: nat)
    | Update(id: nat, t: Transition, extra: seq<Message>, now: int)
    | Recover(id: nat, now: int)
    | Insert
    | Commit
    | Rollback
    | Crash(id: nat)

  const RECOVERY := Transition.Fail("Engine crashed during resolution")

  predicate OrdinaryEvents(extra: seq<Message>) {
    forall i :: 0 <= i < |extra| ==> extra[i].OtherEvent?
  }

  /** The compare-and-set: it takes the lock and writes, or the machine's error ends it. */
  function Updated(s: State, id: nat, t: Transition, extra: seq<Message>, recovery: bool, now: int): State
    requires id in s.machines
  {
    var held := s.machines[id];
    if CanSave(s.row, held)
    then s.(tx := Some(Tx(id, held, Moved(held, t, now), recovery, Queues(held.status, t) + extra, [])))
    else s.(machines := s.machines - {id})
  }

  predicate Init(s: State) {
    (s.row.status.Queued? || s.row.status.StartPending?)
    && s == State(s.row, [], None, map[], [s.row], [])
  }

  predicate Next(s: State, s': State, step: Step) {
    match step
    case LoadRow(id, k) =>
      id !in s.machines && k < |s.history| && s' == s.(machines := s.machines[id := s.history[k]])
    case Update(id, t, extra, now) =>
      s.tx.None? && id in s.machines && Enabled(s.machines[id].status, t) && OrdinaryEvents(extra)
      && s' == Updated(s, id, t, extra, false, now)
    case Recover(id, now) =>
      s.tx.None? && id in s.machines && s.machines[id].status.Resolving?
      && s' == Updated(s, id, RECOVERY, [RecoveryFailed], true, now)
    case Insert =>
      s.tx.Some? && s.tx.value.todo != []
      && (var tx := s.tx.value;
          s' == s.(tx := Some(tx.(todo := tx.todo[1..], inserted := tx.inserted + [tx.todo[0]]))))
    case Commit =>
      s.tx.Some? && s.tx.value.todo == []
      && (var tx := s.tx.value;
          s' == State(tx.row, s.outbox + tx.inserted, None, s.machines[tx.machine := tx.row],
                      s.history + [tx.row], s.saves + [Save(tx.machine, tx.from, tx.row, tx.recovery)]))
    case Rollback =>
      s.tx.Some? && s' == s.(tx := None, machines := s.machines - {s.tx.value.machine})
    case Crash(id) =>
      id in s.machines
      && s' == s.(machines := s.machines - {id},
                  tx := if s.tx.Some? && s.tx.value.machine == id then None else s.tx)
  }

  ghost predicate Linked(s: State, s': State) { exists step :: Next(s, s', step) }

  ghost predicate IsRun(run: seq<State>) {
    run != [] && Init(run[0]) && forall i :: 0 < i < |run| ==> Linked(run[i - 1], run[i])
  }

  // ---------------------------------------------------------------- the invariant

  /** The committed rows form a path of the diagram, one version apart. */
  predicate IsPath(history: seq<Run>) {
    history != []
    && forall i :: 0 < i < |history| ==>
         history[i].version == history[0].version + i && Allowed(history[i - 1].status, history[i].status)
  }

  /** Each save moved the row it had loaded, field for field. */
  predicate SavesMakeHistory(history: seq<Run>, saves: seq<Save>) {
    |history| == |saves| + 1
    && forall i :: 0 <= i < |saves| ==>
         saves[i].from == history[i] && saves[i].to == history[i + 1]
         && (saves[i].recovery ==> saves[i].from.status.Resolving?)
  }

  function Count(outbox: seq<Message>, m: Message): nat { multiset(outbox)[m] }

  predicate EndsRunning(save: Save) {
    save.from.status.Running? && (save.to.status.Failed? || save.to.status.Aborted?)
  }

  function EndingsOfRunning(saves: seq<Save>): nat {
    if saves == [] then 0
    else EndingsOfRunning(saves[..|saves| - 1]) + (if EndsRunning(saves[|saves| - 1]) then 1 else 0)
  }

  function Recoveries(saves: seq<Save>): nat {
    if saves == [] then 0
    else Recoveries(saves[..|saves| - 1]) + (if saves[|saves| - 1].recovery then 1 else 0)
  }

  /** The open transaction writes the move it was opened for, with all its messages. */
  predicate TxInv(s: State) {
    s.tx.Some? ==>
      var tx := s.tx.value;
      var all := tx.inserted + tx.todo;
      tx.from == s.row && tx.row.version == s.row.version + 1
      && Allowed(s.row.status, tx.row.status)
      && (tx.recovery ==> s.row.status.Resolving?)
      && Count(all, CancelSteps) == (if EndsRunning(Save(tx.machine, tx.from, tx.row, tx.recovery)) then 1 else 0)
      && Count(all, RecoveryFailed) == (if tx.recovery then 1 else 0)
  }

  predicate Inv(s: State) {
    && IsPath(s.history)
    && s.row == s.history[|s.history| - 1]
    && SavesMakeHistory(s.history, s.saves)
    && (forall id :: id in s.machines ==> s.machines[id] in s.history)
    && Count(s.outbox, CancelSteps) == EndingsOfRunning(s.saves)
    && Count(s.outbox, RecoveryFailed) == Recoveries(s.saves)
    && TxInv(s)
  }

  /** A copy at the stored version is the stored row: nothing a save overwrites was unseen. */
  lemma CopyAtVersionIsRow(history: seq<Run>, held: Run)
    requires IsPath(history) && held in history
    requires held.version == history[|history| - 1].version
    ensures held == history[|history| - 1]
  {
    var k :| 0 <= k < |history| && history[k] == held;
    assert k == 0 || history[k].version == history[0].version + k;
    assert |history| == 1 || history[|history| - 1].version == history[0].version + |history| - 1;
  }

  lemma UpdateKeepsInv(s: State, id: nat, t: Transition, extra: seq<Message>, recovery: bool, now: int)
    requires Inv(s) && s.tx.None? && id in s.machines && Enabled(s.machines[id].status, t)
    requires if recovery then extra == [RecoveryFailed] && s.machines[id].status.Resolving? else OrdinaryEvents(extra)
    ensures Inv(Updated(s, id, t, extra, recovery, now))
  {
    var held := s.machines[id];
    if CanSave(s.row, held) {
      CopyAtVersionIsRow(s.history, held);
      TransitionsFollowTheDiagram(held.status, t);
      QueuedCounts(held.status, t, extra, recovery);
      assert [] + (Queues(held.status, t) + extra) == Queues(held.status, t) + extra;
      hide Count, Queues, IsPath, SavesMakeHistory, EndingsOfRunning, Recoveries;
    }
  }

  /** What a transition's transaction will have inserted, counted. */
  lemma QueuedCounts(from: Status, t: Transition, extra: seq<Message>, recovery: bool)
    requires Enabled(from, t)
    requires if recovery then extra == [RecoveryFailed] && from.Resolving? else OrdinaryEvents(extra)
    ensures Count(Queues(from, t) + extra, CancelSteps) == if from.Running? && (t.Fail? || t.Abort?) then 1 else 0
    ensures Count(Queues(from, t) + extra, RecoveryFailed) == if recovery then 1 else 0
  {
    if !recovery { OrdinaryCounts(extra); }
  }

  lemma OrdinaryCounts(extra: seq<Message>)
    requires OrdinaryEvents(extra)
    ensures Count(extra, CancelSteps) == 0 && Count(extra, RecoveryFailed) == 0
  {
    assert CancelSteps !in extra && RecoveryFailed !in extra;
  }

  lemma InsertKeepsInv(s: State, s': State)
    requires Inv(s) && Next(s, s', Insert)
    ensures Inv(s')
  {
    var tx := s.tx.value;
    assert tx.inserted + tx.todo == tx.inserted + [tx.todo[0]] + tx.todo[1..];
  }

  lemma PathGrows(history: seq<Run>, row: Run)
    requires IsPath(history)
    requires row.version == history[|history| - 1].version + 1 && Allowed(history[|history| - 1].status, row.status)
    ensures IsPath(history + [row])
  {
    var longer := history + [row];
    forall i | 0 < i < |longer|
      ensures longer[i].version == longer[0].version + i && Allowed(longer[i - 1].status, longer[i].status)
    {
      if i < |history| { assert longer[i] == history[i] && longer[i - 1] == history[i - 1]; }
    }
  }

  lemma CommitKeepsInv(s: State, s': State)
    requires Inv(s) && Next(s, s', Commit)
    ensures Inv(s')
  {
    var tx := s.tx.value;
    assert tx.inserted + tx.todo == tx.inserted;
    assert s'.saves[..|s'.saves| - 1] == s.saves;
    PathGrows(s.history, tx.row);
    hide IsPath, Allowed;
    forall id | id in s'.machines ensures s'.machines[id] in s'.history {
      if id == tx.machine { assert s'.history[|s.history|] == tx.row; }
    }
  }

  lemma NextKeepsInv(s: State, s': State, step: Step)
    requires Inv(s) && Next(s, s', step)
    ensures Inv(s')
  {
    hide EndingsOfRunning, Recoveries, Count, IsPath, SavesMakeHistory, TxInv, Updated;
    match step
    case Update(id, t, extra, now) => UpdateKeepsInv(s, id, t, extra, false, now);
    case Recover(id, now) => UpdateKeepsInv(s, id, RECOVERY, [RecoveryFailed], true, now);
    case Insert => InsertKeepsInv(s, s');
    case Commit => CommitKeepsInv(s, s');
    case LoadRow(id, k) => TxInvCarries(s, s');
    case Rollback => TxInvCarries(s, s');
    case Crash(id) => TxInvCarries(s, s');
  }

  lemma TxInvCarries(s: State, s': State)
    requires TxInv(s) && s'.row == s.row && (s'.tx == s.tx || s'.tx.None?)
    ensures TxInv(s')
  {
  }

  lemma {:induction false} RunsKeepInv(run: seq<State>, i: nat)
    requires IsRun(run) && i < |run|
    ensures Inv(run[i])
  {
    if i == 0 {
    } else {
      RunsKeepInv(run, i - 1);
      assert Linked(run[i - 1], run[i]);
      var step :| Next(run[i - 1], run[i], step);
      NextKeepsInv(run[i - 1], run[i], step);
    }
  }

  // ---------------------------------------------------------------- what every run keeps

  /** How far along a status is. */
  function Rank(s: Status): nat {
    match s case Queued => 0 case Resolving => 1 case StartPending => 2 case Running => 3 case _ => 4
  }

  lemma {:induction false} RankGrows(history: seq<Run>, i: nat, j: nat)
    requires IsPath(history) && i <= j < |history|
    ensures Rank(history[j].status) >= Rank(history[i].status) + (j - i)
  {
    if i < j {
      RankGrows(history, i, j - 1);
      assert Allowed(history[j - 1].status, history[j].status);
    }
  }

  /** The stored statuses are a path of the diagram, and nothing follows a finished one. */
  lemma StatusesFollowTheDiagram(run: seq<State>, i: nat, k: nat)
    requires IsRun(run) && i < |run| && k < |run[i].history|
    ensures k + 1 < |run[i].history| ==> Allowed(run[i].history[k].status, run[i].history[k + 1].status)
    ensures Finished(run[i].history[k].status) ==> k + 1 == |run[i].history|
  {
    RunsKeepInv(run, i);
    if k + 1 < |run[i].history| {
      assert Allowed(run[i].history[k].status, run[i].history[k + 1].status);
    }
  }

  /** What was committed stays committed: history, saves and outbox only grow. */
  lemma {:induction false} CommittedStays(run: seq<State>, i: nat, j: nat)
    requires IsRun(run) && i <= j < |run|
    ensures run[i].history <= run[j].history && run[i].saves <= run[j].saves && run[i].outbox <= run[j].outbox
  {
    if i < j {
      CommittedStays(run, i, j - 1);
      assert Linked(run[j - 1], run[j]);
      var step :| Next(run[j - 1], run[j], step);
      assert run[j - 1].history <= run[j].history && run[j - 1].saves <= run[j].saves
          && run[j - 1].outbox <= run[j].outbox;
    }
  }

  /** A finished run is never moved again. */
  lemma FinishedIsFinal(run: seq<State>, i: nat, j: nat)
    requires IsRun(run) && i <= j < |run| && Finished(run[i].row.status)
    ensures run[j].row == run[i].row && run[j].saves == run[i].saves
  {
    RunsKeepInv(run, i);
    RunsKeepInv(run, j);
    CommittedStays(run, i, j);
    var k := |run[i].history| - 1;
    assert run[j].history[k] == run[i].history[k];
    StatusesFollowTheDiagram(run, j, k);
  }

  /** The stored version is the first one and the number of committed saves. */
  lemma VersionCountsSaves(run: seq<State>, i: nat)
    requires IsRun(run) && i < |run|
    ensures run[i].row.version == run[0].row.version + |run[i].saves|
  {
    RunsKeepInv(run, i);
    CommittedStays(run, 0, i);
    assert run[i].history[0] == run[0].history[0];
    assert |run[i].saves| == 0 || run[i].history[|run[i].saves|].version == run[i].history[0].version + |run[i].saves|;
  }

  /** Of all machines loaded at one version, at most one saves. */
  lemma OneSavePerVersion(run: seq<State>, i: nat, a: nat, b: nat)
    requires IsRun(run) && i < |run| && a < |run[i].saves| && b < |run[i].saves|
    requires run[i].saves[a].from.version == run[i].saves[b].from.version
    ensures a == b
  {
    RunsKeepInv(run, i);
    var history := run[i].history;
    assert history[a] == run[i].saves[a].from && history[b] == run[i].saves[b].from;
    assert a == 0 || history[a].version == history[0].version + a;
    assert b == 0 || history[b].version == history[0].version + b;
  }

  /** A run takes at most four saves, and a direct run, which starts later, at most two. */
  lemma AtMostFourSaves(run: seq<State>, i: nat)
    requires IsRun(run) && i < |run|
    ensures |run[i].saves| <= if run[0].row.status.StartPending? then 2 else 4
  {
    RunsKeepInv(run, i);
    CommittedStays(run, 0, i);
    var history := run[i].history;
    assert history[0] == run[0].history[0] == run[0].row;
    RankGrows(history, 0, |history| - 1);
  }

  lemma {:induction false} AtMostOneEnding(history: seq<Run>, saves: seq<Save>, n: nat)
    requires IsPath(history) && SavesMakeHistory(history, saves) && n <= |saves|
    ensures EndingsOfRunning(saves[..n]) == if exists k :: 0 <= k < n && EndsRunning(saves[k]) then 1 else 0
    ensures Recoveries(saves[..n]) == if exists k :: 0 <= k < n && saves[k].recovery then 1 else 0
  {
    if n > 0 {
      AtMostOneEnding(history, saves, n - 1);
      assert saves[..n][..n - 1] == saves[..n - 1];
      forall k | 0 <= k < n - 1 && (EndsRunning(saves[k]) || saves[k].recovery)
        ensures !EndsRunning(saves[n - 1]) || saves[k].recovery
        ensures !(saves[k].recovery && saves[n - 1].recovery)
      {
        RankGrows(history, k + 1, n - 1);
      }
    }
  }

  /**
    One cancel message if the run went from running to failed or aborted, none otherwise, in
    every reachable state: rolled back saves leave none, and no save is without its own.
   */
  lemma CancelledExactlyOnce(run: seq<State>, i: nat)
    requires IsRun(run) && i < |run|
    ensures var s := run[i];
            Count(s.outbox, CancelSteps)
            == if exists k :: 0 <= k < |s.saves| && EndsRunning(s.saves[k]) then 1 else 0
  {
    RunsKeepInv(run, i);
    var s := run[i];
    AtMostOneEnding(s.history, s.saves, |s.saves|);
    assert s.saves[..|s.saves|] == s.saves;
  }

  /** Recovery and a live resolver cannot both move the run on from resolving. */
  lemma OneWayOutOfResolving(run: seq<State>, i: nat, a: nat, b: nat)
    requires IsRun(run) && i < |run| && a < |run[i].saves| && b < |run[i].saves|
    requires run[i].saves[a].from.status.Resolving? && run[i].saves[b].from.status.Resolving?
    ensures a == b
  {
    RunsKeepInv(run, i);
    var history := run[i].history;
    assert history[a] == run[i].saves[a].from && history[b] == run[i].saves[b].from;
    if a < b { RankGrows(history, a, b); }
    if b < a { RankGrows(history, b, a); }
  }

  /** The event that reports the recovery is there exactly when the recovery's save was committed. */
  lemma RecoveryReportedExactly(run: seq<State>, i: nat)
    requires IsRun(run) && i < |run|
    ensures var s := run[i];
            Count(s.outbox, RecoveryFailed)
            == if exists k :: 0 <= k < |s.saves| && s.saves[k].recovery then 1 else 0
  {
    RunsKeepInv(run, i);
    var s := run[i];
    AtMostOneEnding(s.history, s.saves, |s.saves|);
    assert s.saves[..|s.saves|] == s.saves;
  }

  /** The machine whose save was committed holds the new row, and so can go on from it. */
  lemma SaverCanGoOn(s: State, s': State)
    requires Next(s, s', Commit)
    ensures var id := s.tx.value.machine;
            id in s'.machines && s'.machines[id] == s'.row && CanSave(s'.row, s'.machines[id])
            && forall other :: other in s.machines && other != id ==>
                 other in s'.machines && s'.machines[other] == s.machines[other]
  {
  }

  // ---------------------------------------------------------------- what the row tells

  /** A save writes the time of the state it enters, the end of a run and its error, and leaves the rest. */
  predicate TimesWritten(from: Run, to: Run) {
    && to.startedResolvingAt == (if to.status.Resolving? then Some(to.updatedAt) else from.startedResolvingAt)
    && to.startedAt == (if to.status.Running? then Some(to.updatedAt) else from.startedAt)
    && to.finishedAt == (if to.status.Succeeded? || to.status.Failed? || to.status.Aborted? then Some(to.updatedAt)
                         else from.finishedAt)
    && (if to.status.Failed? then to.error.Some? else to.error == from.error)
  }

  predicate SaveTells(save: Save) {
    TimesWritten(save.from, save.to)
    && (save.recovery ==> save.to.status.Failed? && save.to.error == Some("Engine crashed during resolution"))
  }

  predicate AllTell(s: State) {
    (forall k :: 0 <= k < |s.saves| ==> SaveTells(s.saves[k]))
    && (s.tx.Some? ==> SaveTells(Save(s.tx.value.machine, s.tx.value.from, s.tx.value.row, s.tx.value.recovery)))
  }

  lemma MovedTells(held: Run, t: Transition, now: int)
    requires Enabled(held.status, t)
    ensures TimesWritten(held, Moved(held, t, now))
  {
  }

  lemma StepTells(s: State, s': State, step: Step)
    requires AllTell(s) && Next(s, s', step)
    ensures AllTell(s')
  {
    hide TimesWritten;
    match step
    case Update(id, t, extra, now) => MovedTells(s.machines[id], t, now);
    case Recover(id, now) => MovedTells(s.machines[id], RECOVERY, now);
    case _ =>
  }

  lemma {:induction false} SavesTell(run: seq<State>, i: nat)
    requires IsRun(run) && i < |run|
    ensures AllTell(run[i])
  {
    if i > 0 {
      hide Next, AllTell;
      SavesTell(run, i - 1);
      assert Linked(run[i - 1], run[i]);
      var step :| Next(run[i - 1], run[i], step);
      StepTells(run[i - 1], run[i], step);
    }
  }

  lemma {:induction false} TimesStay(history: seq<Run>, j: nat, k: nat)
    requires IsPath(history) && j <= k < |history|
    requires forall m :: 0 < m < |history| ==> TimesWritten(history[m - 1], history[m])
    ensures Rank(history[j].status) >= 1 ==> history[k].startedResolvingAt == history[j].startedResolvingAt
    ensures Rank(history[j].status) >= 3 ==> history[k].startedAt == history[j].startedAt
    ensures !Finished(history[k].status) ==> history[k].finishedAt == history[j].finishedAt
                                             && history[k].error == history[j].error
  {
    if j < k {
      TimesStay(history, j, k - 1);
      RankGrows(history, j, k);
      assert TimesWritten(history[k - 1], history[k]);
      assert Allowed(history[k - 1].status, history[k].status);
    }
  }

  /**
    The stored row tells when resolving began, when the run started and when it ended: each is the
    time of the save that brought it there. It has an end if and only if it is finished, and the
    error of its failure, which after a recovery says so.
   */
  lemma RowTellsTheRun(run: seq<State>, i: nat, j: nat)
    requires IsRun(run) && i < |run| && 0 < j < |run[i].history|
    ensures var h, row := run[i].history, run[i].row;
            && (h[j].status.Resolving? ==> row.startedResolvingAt == Some(h[j].updatedAt))
            && (h[j].status.Running? ==> row.startedAt == Some(h[j].updatedAt))
            && row.finishedAt == (if Finished(row.status) then Some(row.updatedAt) else h[0].finishedAt)
            && (if row.status.Failed? then row.error.Some? else row.error == h[0].error)
    ensures |run[i].saves| == |run[i].history| - 1
    ensures run[i].saves[j - 1].recovery ==> run[i].row.error == Some("Engine crashed during resolution")
  {
    RunsKeepInv(run, i);
    SavesTell(run, i);
    var h, last := run[i].history, |run[i].history| - 1;
    forall m | 0 < m < |h| ensures TimesWritten(h[m - 1], h[m]) {
      assert SaveTells(run[i].saves[m - 1]);
      assert run[i].saves[m - 1].from == h[m - 1] && run[i].saves[m - 1].to == h[m];
    }
    hide Next, Inv, AllTell;
    TimesStay(h, j, last);
    TimesStay(h, 0, last - 1);
    RankGrows(h, 0, last - 1);
    assert TimesWritten(h[j - 1], h[j]) && TimesWritten(h[last - 1], h[last]);
    assert Allowed(h[last - 1].status, h[last].status);
    assert SaveTells(run[i].saves[j - 1]) && run[i].saves[j - 1].to == h[j];
    if run[i].saves[j - 1].recovery { StatusesFollowTheDiagram(run, i, j); }
  }

  /** A time that no save of the run has written is what the row began with. */
  lemma {:induction false} TimesNotReached(run: seq<State>, i: nat, k: nat)
    requires IsRun(run) && i < |run| && k < |run[i].history|
    ensures var h := run[i].history;
            && ((forall j :: 0 < j <= k ==> !h[j].status.Resolving?) ==>
                  h[k].startedResolvingAt == h[0].startedResolvingAt)
            && ((forall j :: 0 < j <= k ==> !h[j].status.Running?) ==> h[k].startedAt == h[0].startedAt)
    decreases k
  {
    if k > 0 {
      TimesNotReached(run, i, k - 1);
      RunsKeepInv(run, i);
      SavesTell(run, i);
      var save := run[i].saves[k - 1];
      assert SaveTells(save) && save.from == run[i].history[k - 1] && save.to == run[i].history[k];
    }
  }
}
