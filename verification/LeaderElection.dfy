// Leader election in time: replicas compete for an advisory lock held by a database session,
// and the one that has it runs the background workers for as long as the session answers.
// Times are in milliseconds; timers fire when they are due.
module LeaderElection {
  import opened Wrappers

  const CHECK_INTERVAL := 5000
  const HOLD_CHECK_TIMEOUT := 5000
  const IDLE_SESSION_TIMEOUT := 30000

  /** A session of the lock's: when it last served a query, and when it ended. */
  datatype Session = Session(lastServed: int, endedAt: Option<int>)

  datatype Phase = Sleeping | Checking(served: bool)

  /**
    A replica. `Granted`: it has the lock and is about to start the workers. `Leading`: its
    workers run; `good` is when they started or the last check came back, and the next check
    begins `CHECK_INTERVAL` after that.
   */
  datatype Replica =
    | Waiting
    | Granted(session: nat)
    | Leading(session: nat, startedAt: int, aliveAtStart: bool, good: int, checked: bool, phase: Phase)

  datatype State = State(now: int, holder: Option<nat>, sessions: map<nat, Session>, replicas: map<nat, Replica>)

  /**
    What the surroundings may do. `abrupt`: a leader's session may end for any reason, not only
    the idle timeout. `maxLag`: the longest it takes from the last query served for the lock to
    the workers' start.
   */
  datatype World = World(abrupt: bool, maxLag: nat)

  datatype Step =
    | Pass(until: int)
    | Lock(r: nat, session: nat)
    | ServeSetting(r: nat)
    | StartWorkers(r: nat)
    | BeginCheck(r: nat)
    | ServeCheck(r: nat)
    | CheckAnswered(r: nat)
    | StopWorkers(r: nat)
    | EndSession(session: nat)

  predicate Alive(s: State, session: nat) {
    session in s.sessions && s.sessions[session].endedAt.None?
  }

  /** The latest a leading replica can be in the phase it is in. */
  function Deadline(r: Replica): int
    requires r.Leading?
  {
    if r.phase.Sleeping? then r.good + CHECK_INTERVAL else r.good + CHECK_INTERVAL + HOLD_CHECK_TIMEOUT
  }

  predicate Leads(s: State, r: nat) { r in s.replicas && s.replicas[r].Leading? }

  predicate Connected(s: State, r: nat) { r in s.replicas && !s.replicas[r].Waiting? }

  /** Some replica still holds the connection. */
  ghost predicate InUse(s: State, session: nat) {
    exists r :: Connected(s, r) && s.replicas[r].session == session
  }

  function Become(s: State, r: nat, replica: Replica): State { s.(replicas := s.replicas[r := replica]) }

  function Served(s: State, session: nat): State
    requires session in s.sessions
  {
    s.(sessions := s.sessions[session := s.sessions[session].(lastServed := s.now)])
  }

  ghost predicate Init(s: State) {
    s.holder.None? && s.sessions == map[] && forall r :: r in s.replicas ==> s.replicas[r].Waiting?
  }

  ghost predicate Next(s: State, s': State, step: Step, w: World) {
    match step
    case Pass(until) =>
      s.now <= until && (forall r :: Leads(s, r) ==> until <= Deadline(s.replicas[r]))
      && s' == s.(now := until)
    case Lock(r, session) =>
      r in s.replicas && s.replicas[r].Waiting? && s.holder.None? && session !in s.sessions
      && s' == Become(s, r, Granted(session)).(holder := Some(session),
                 sessions := s.sessions[session := Session(s.now, None)])
    case ServeSetting(r) =>
      r in s.replicas && s.replicas[r].Granted? && Alive(s, s.replicas[r].session)
      && s' == Served(s, s.replicas[r].session)
    case StartWorkers(r) =>
      r in s.replicas && s.replicas[r].Granted? && s.replicas[r].session in s.sessions
      && (var x := s.replicas[r].session;
          s.now - s.sessions[x].lastServed <= w.maxLag
          && s' == Become(s, r, Leading(x, s.now, Alive(s, x), s.now, false, Sleeping)))
    case BeginCheck(r) =>
      Leads(s, r) && s.replicas[r].phase.Sleeping? && s.now == Deadline(s.replicas[r])
      && s' == Become(s, r, s.replicas[r].(phase := Checking(false)))
    case ServeCheck(r) =>
      Leads(s, r) && s.replicas[r].phase == Checking(false) && Alive(s, s.replicas[r].session)
      && s' == Served(Become(s, r, s.replicas[r].(phase := Checking(true))), s.replicas[r].session)
    case CheckAnswered(r) =>
      Leads(s, r) && s.replicas[r].phase == Checking(true)
      && s' == Become(s, r, s.replicas[r].(good := s.now, checked := true, phase := Sleeping))
    case StopWorkers(r) =>
      r in s.replicas && !s.replicas[r].Waiting? && s' == Become(s, r, Waiting)
    case EndSession(session) =>
      Alive(s, session)
      && (w.abrupt || !InUse(s, session) || s.now - s.sessions[session].lastServed >= IDLE_SESSION_TIMEOUT)
      && s' == s.(sessions := s.sessions[session := s.sessions[session].(endedAt := Some(s.now))],
                  holder := if s.holder == Some(session) then None else s.holder)
  }

  ghost predicate Linked(s: State, s': State, w: World) { exists step :: Next(s, s', step, w) }

  ghost predicate IsRun(run: seq<State>, w: World) {
    run != [] && Init(run[0]) && forall i :: 0 < i < |run| ==> Linked(run[i - 1], run[i], w)
  }

  // ---------------------------------------------------------------- the invariant

  predicate SessionInv(s: State, x: Session) {
    x.lastServed <= s.now && (x.endedAt.Some? ==> x.lastServed <= x.endedAt.value <= s.now)
  }

  /** How far a leader can be from the last sign of life of its session. */
  predicate LeadingInv(s: State, r: Replica, w: World) {
    r.Leading? ==>
      r.session in s.sessions
      && (var x := s.sessions[r.session];
          r.good <= s.now <= Deadline(r)
          && r.startedAt <= r.good
          && (r.phase.Checking? ==> r.good + CHECK_INTERVAL <= s.now)
          && (r.checked ==> r.good <= x.lastServed + HOLD_CHECK_TIMEOUT)
          && (!r.checked ==> r.good == r.startedAt <= x.lastServed + w.maxLag)
          && (r.aliveAtStart && x.endedAt.Some? ==> r.startedAt <= x.endedAt.value)
          && (r.phase == Checking(true) ==> r.good + CHECK_INTERVAL <= x.lastServed))
  }

  ghost predicate Inv(s: State, w: World) {
    && (forall x :: x in s.sessions ==> SessionInv(s, s.sessions[x]))
    && (forall x: nat :: Alive(s, x) ==> s.holder == Some(x))
    && (s.holder.Some? ==> Alive(s, s.holder.value))
    && (forall r :: r in s.replicas ==> LeadingInv(s, s.replicas[r], w))
    && (forall r :: Connected(s, r) ==> s.replicas[r].session in s.sessions)
    && (forall a, b :: Connected(s, a) && Connected(s, b) && s.replicas[a].session == s.replicas[b].session ==> a == b)
  }

  lemma NextKeepsInv(s: State, s': State, step: Step, w: World)
    requires Inv(s, w) && Next(s, s', step, w)
    ensures Inv(s', w)
  {
    match step
    case Pass(until) => PassKeepsInv(s, s', until, w);
    case Lock(r, session) => LockKeepsInv(s, s', r, session, w);
    case EndSession(session) => EndKeepsInv(s, s', session, w);
    case ServeCheck(r) => ServeKeepsInv(s, s', step, w);
    case ServeSetting(r) => ServeKeepsInv(s, s', step, w);
    case _ => ReplicaKeepsInv(s, s', step, w);
  }

  lemma PassKeepsInv(s: State, s': State, until: int, w: World)
    requires Inv(s, w) && Next(s, s', Pass(until), w)
    ensures Inv(s', w)
  {
    forall r | r in s'.replicas ensures LeadingInv(s', s'.replicas[r], w) {
      assert LeadingInv(s, s.replicas[r], w);
      assert s.replicas[r].Leading? ==> Leads(s, r);
    }
    assert forall x: nat :: Alive(s', x) == Alive(s, x);
  }

  lemma LockKeepsInv(s: State, s': State, r: nat, session: nat, w: World)
    requires Inv(s, w) && Next(s, s', Lock(r, session), w)
    ensures Inv(s', w)
  {
    assert forall x: nat :: !Alive(s, x);
    forall q | q in s'.replicas ensures LeadingInv(s', s'.replicas[q], w) {
      if q != r { assert LeadingInv(s, s.replicas[q], w); }
    }
  }

  lemma EndKeepsInv(s: State, s': State, session: nat, w: World)
    requires Inv(s, w) && Next(s, s', EndSession(session), w)
    ensures Inv(s', w)
  {
    assert forall x: nat :: Alive(s', x) ==> Alive(s, x) && x != session;
    forall q | q in s'.replicas ensures LeadingInv(s', s'.replicas[q], w) {
      assert LeadingInv(s, s.replicas[q], w);
    }
  }

  lemma ServeKeepsInv(s: State, s': State, step: Step, w: World)
    requires Inv(s, w) && Next(s, s', step, w) && (step.ServeCheck? || step.ServeSetting?)
    ensures Inv(s', w)
  {
    assert Connected(s, step.r);
    assert forall x: nat :: Alive(s', x) == Alive(s, x);
    forall q | q in s'.replicas ensures LeadingInv(s', s'.replicas[q], w) {
      assert s.replicas[q].Leading? ==> Connected(s, q);
      assert LeadingInv(s, s.replicas[q], w);
    }
  }

  /** A step of one replica that keeps its connection or drops it. */
  lemma BecomeKeepsInv(s: State, r: nat, replica: Replica, w: World)
    requires Inv(s, w) && Connected(s, r)
    requires replica.Waiting? || (replica.session == s.replicas[r].session && LeadingInv(s, replica, w))
    ensures Inv(Become(s, r, replica), w)
  {
    var s' := Become(s, r, replica);
    assert forall x: nat :: Alive(s', x) == Alive(s, x);
    forall q | q in s'.replicas ensures LeadingInv(s', s'.replicas[q], w) {
      if q != r { assert LeadingInv(s, s.replicas[q], w); }
    }
    assert forall q: nat :: Connected(s', q) ==> Connected(s, q) && s'.replicas[q].session == s.replicas[q].session;
  }

  lemma ReplicaKeepsInv(s: State, s': State, step: Step, w: World)
    requires Inv(s, w) && Next(s, s', step, w)
    requires step.StartWorkers? || step.BeginCheck? || step.CheckAnswered? || step.StopWorkers?
    ensures Inv(s', w)
  {
    var r := step.r;
    assert LeadingInv(s, s.replicas[r], w);
    assert s.replicas[r].session in s.sessions ==> SessionInv(s, s.sessions[s.replicas[r].session]);
    BecomeKeepsInv(s, r, s'.replicas[r], w);
  }

  lemma {:induction false} RunsKeepInv(run: seq<State>, w: World, i: nat)
    requires IsRun(run, w) && i < |run|
    ensures Inv(run[i], w)
  {
    if i > 0 {
      RunsKeepInv(run, w, i - 1);
      assert Linked(run[i - 1], run[i], w);
      var step :| Next(run[i - 1], run[i], step, w);
      NextKeepsInv(run[i - 1], run[i], step, w);
    }
  }

  // ---------------------------------------------------------------- how long a leader outlives its lock

  /**
    A leader whose session was alive when its workers started has stopped them within fifteen
    seconds of the session's end, whatever ended it.
   */
  lemma StopsWithinFifteenSeconds(run: seq<State>, w: World, i: nat, r: nat)
    requires IsRun(run, w) && i < |run| && Leads(run[i], r) && run[i].replicas[r].aliveAtStart
    ensures var session := run[i].replicas[r].session;
            session in run[i].sessions
            && (!Alive(run[i], session) ==> run[i].now <= run[i].sessions[session].endedAt.value + 15000)
  {
    RunsKeepInv(run, w, i);
    assert LeadingInv(run[i], run[i].replicas[r], w);
    assert SessionInv(run[i], run[i].sessions[run[i].replicas[r].session]);
  }

  ghost predicate AtMostOneLeader(s: State) {
    forall a, b :: Leads(s, a) && Leads(s, b) ==> a == b
  }

  /** In a steady world a leader still has its lock. */
  ghost predicate LeadersHold(s: State) {
    forall r :: Leads(s, r) && s.replicas[r].aliveAtStart ==> Alive(s, s.replicas[r].session)
  }

  ghost predicate GrantedHold(s: State) {
    forall r :: r in s.replicas && s.replicas[r].Granted? && !Alive(s, s.replicas[r].session) ==>
      s.replicas[r].session in s.sessions
      && s.now - s.sessions[s.replicas[r].session].lastServed >= IDLE_SESSION_TIMEOUT
  }

  /** Where sessions in use end by the idle timeout only, and workers start in under twenty seconds. */
  predicate Steady(w: World) { !w.abrupt && w.maxLag < 20000 }

  ghost predicate SteadyInv(s: State) {
    (forall r :: Leads(s, r) ==> s.replicas[r].aliveAtStart) && LeadersHold(s) && GrantedHold(s)
  }

  /** A leader's session served it too recently to have idled out. */
  lemma LeaderIsRecent(s: State, r: nat, w: World)
    requires Steady(w) && Inv(s, w) && Leads(s, r)
    ensures s.replicas[r].session in s.sessions
    ensures s.now - s.sessions[s.replicas[r].session].lastServed < IDLE_SESSION_TIMEOUT
  {
    assert LeadingInv(s, s.replicas[r], w);
  }

  lemma SteadyEnd(s: State, s': State, session: nat, w: World)
    requires Steady(w) && Inv(s, w) && SteadyInv(s) && Next(s, s', EndSession(session), w)
    ensures SteadyInv(s')
  {
    // A leader's session would be the one alive, in use, and recently served
    forall r: nat ensures Leads(s, r) ==> Connected(s, r) && s.replicas[r].session == session {}
    forall r: nat ensures !Leads(s', r) {
      if Leads(s, r) { LeaderIsRecent(s, r, w); }
    }
    forall r | r in s'.replicas && s'.replicas[r].Granted? && !Alive(s', s'.replicas[r].session)
      ensures s'.replicas[r].session in s'.sessions
      ensures s'.now - s'.sessions[s'.replicas[r].session].lastServed >= IDLE_SESSION_TIMEOUT
    {
      assert Connected(s, r);
    }
  }

  lemma SteadyStart(s: State, s': State, r: nat, w: World)
    requires Steady(w) && Inv(s, w) && SteadyInv(s) && Next(s, s', StartWorkers(r), w)
    ensures SteadyInv(s')
  {
    assert Alive(s, s.replicas[r].session);
    assert forall x: nat :: Alive(s', x) == Alive(s, x);
    assert forall q: nat :: q != r ==> Leads(s', q) == Leads(s, q);
  }

  lemma SteadyOther(s: State, s': State, step: Step, w: World)
    requires Steady(w) && Inv(s, w) && SteadyInv(s) && Next(s, s', step, w)
    requires !step.EndSession? && !step.StartWorkers?
    ensures SteadyInv(s')
  {
    forall q: nat | Leads(s', q)
      ensures Leads(s, q) && s'.replicas[q].session == s.replicas[q].session
              && s'.replicas[q].aliveAtStart == s.replicas[q].aliveAtStart
    {
    }
    assert forall x: nat :: Alive(s, x) ==> Alive(s', x);
    forall r | r in s'.replicas && s'.replicas[r].Granted? && !Alive(s', s'.replicas[r].session)
      ensures s'.replicas[r].session in s'.sessions
      ensures s'.now - s'.sessions[s'.replicas[r].session].lastServed >= IDLE_SESSION_TIMEOUT
    {
      assert r in s.replicas && s.replicas[r] == s'.replicas[r];
      assert !Alive(s, s.replicas[r].session);
    }
  }

  lemma SteadyStep(s: State, s': State, step: Step, w: World)
    requires Steady(w) && Inv(s, w) && SteadyInv(s) && Next(s, s', step, w)
    ensures SteadyInv(s')
  {
    hide SteadyInv, Inv, Steady;
    match step
    case EndSession(session) => SteadyEnd(s, s', session, w);
    case StartWorkers(r) => SteadyStart(s, s', r, w);
    case _ => SteadyOther(s, s', step, w);
  }

  lemma {:induction false} SteadyRuns(run: seq<State>, w: World, i: nat)
    requires Steady(w) && IsRun(run, w) && i < |run|
    ensures SteadyInv(run[i])
  {
    if i > 0 {
      SteadyRuns(run, w, i - 1);
      RunsKeepInv(run, w, i - 1);
      assert Linked(run[i - 1], run[i], w);
      var step :| Next(run[i - 1], run[i], step, w);
      SteadyStep(run[i - 1], run[i], step, w);
    }
  }

  /** In a steady world the workers of two replicas never run together. */
  lemma OneLeaderWhenSteady(run: seq<State>, w: World, i: nat)
    requires Steady(w) && IsRun(run, w) && i < |run|
    ensures AtMostOneLeader(run[i])
  {
    RunsKeepInv(run, w, i);
    SteadyRuns(run, w, i);
    var s := run[i];
    forall a, b | Leads(s, a) && Leads(s, b) ensures a == b {
      assert Alive(s, s.replicas[a].session) && Alive(s, s.replicas[b].session);
    }
  }

  // ---------------------------------------------------------------- and no less will do

  lemma Extend(run: seq<State>, s': State, step: Step, w: World)
    requires IsRun(run, w) && Next(run[|run| - 1], s', step, w)
    ensures IsRun(run + [s'], w)
  {
    var longer := run + [s'];
    forall i | 0 < i < |longer| ensures Linked(longer[i - 1], longer[i], w) {
      if i < |run| {
        assert longer[i - 1] == run[i - 1] && longer[i] == run[i];
      } else {
        assert longer[i - 1] == run[|run| - 1];
      }
    }
  }

  /** A waiting replica that takes the lock and starts its workers at once. */
  lemma TakeOver(run: seq<State>, r: nat, session: nat, w: World) returns (longer: seq<State>)
    requires IsRun(run, w)
    requires var s := run[|run| - 1];
             r in s.replicas && s.replicas[r].Waiting? && s.holder.None? && session !in s.sessions
    ensures IsRun(longer, w)
    ensures var s, s' := run[|run| - 1], longer[|longer| - 1];
            s' == s.(holder := Some(session), sessions := s.sessions[session := Session(s.now, None)],
                     replicas := s.replicas[r := Leading(session, s.now, true, s.now, false, Sleeping)])
  {
    var s := run[|run| - 1];
    var s1 := Become(s, r, Granted(session)).(holder := Some(session),
                sessions := s.sessions[session := Session(s.now, None)]);
    Extend(run, s1, Lock(r, session), w);
    var s2 := Become(s1, r, Leading(session, s1.now, Alive(s1, session), s1.now, false, Sleeping));
    Extend(run + [s1], s2, StartWorkers(r), w);
    longer := run + [s1] + [s2];
    assert s2.replicas == s.replicas[r := Leading(session, s.now, true, s.now, false, Sleeping)];
  }

  /** A session that ends under its leader lets a second one start while the first still runs. */
  lemma AbruptEndGivesTwoLeaders(w: World) returns (run: seq<State>)
    requires w.abrupt
    ensures IsRun(run, w) && !AtMostOneLeader(run[|run| - 1])
  {
    var s0 := State(0, None, map[], map[1 := Waiting, 2 := Waiting]);
    run := TakeOver([s0], 1, 10, w);
    var s := run[|run| - 1];
    var s' := s.(sessions := s.sessions[10 := s.sessions[10].(endedAt := Some(s.now))], holder := None);
    Extend(run, s', EndSession(10), w);
    run := TakeOver(run + [s'], 2, 20, w);
    assert Leads(run[|run| - 1], 1) && Leads(run[|run| - 1], 2);
  }

  /** And so does a start so slow that the session idles out before the first check is given up. */
  lemma SlowStartGivesTwoLeaders(w: World) returns (run: seq<State>)
    requires w.maxLag >= 20000
    ensures IsRun(run, w) && !AtMostOneLeader(run[|run| - 1])
  {
    var s0 := State(0, None, map[], map[1 := Waiting, 2 := Waiting]);
    var s1 := Become(s0, 1, Granted(10)).(holder := Some(10), sessions := map[10 := Session(0, None)]);
    Extend([s0], s1, Lock(1, 10), w);
    var s2 := s1.(now := 20000);
    Extend([s0] + [s1], s2, Pass(20000), w);
    var leader := Leading(10, 20000, true, 20000, false, Sleeping);
    var s3 := Become(s2, 1, leader);
    Extend([s0] + [s1] + [s2], s3, StartWorkers(1), w);
    run := SlowCheck([s0] + [s1] + [s2] + [s3], leader, w);
    run := TakeOver(run, 2, 20, w);
    assert Leads(run[|run| - 1], 1) && Leads(run[|run| - 1], 2);
  }

  lemma SlowCheck(run: seq<State>, leader: Replica, w: World) returns (longer: seq<State>)
    requires IsRun(run, w) && leader == Leading(10, 20000, true, 20000, false, Sleeping)
    requires run[|run| - 1] == State(20000, Some(10), map[10 := Session(0, None)], map[1 := leader, 2 := Waiting])
    ensures IsRun(longer, w)
    ensures longer[|longer| - 1]
         == State(30000, None, map[10 := Session(0, Some(30000))],
                  map[1 := leader.(phase := Checking(false)), 2 := Waiting])
  {
    var s3 := run[|run| - 1];
    var s4 := s3.(now := 25000);
    Extend(run, s4, Pass(25000), w);
    var s5 := Become(s4, 1, leader.(phase := Checking(false)));
    Extend(run + [s4], s5, BeginCheck(1), w);
    var s6 := s5.(now := 30000);
    Extend(run + [s4] + [s5], s6, Pass(30000), w);
    var s7 := s6.(sessions := map[10 := Session(0, Some(30000))], holder := None);
    Extend(run + [s4] + [s5] + [s6], s7, EndSession(10), w);
    longer := run + [s4] + [s5] + [s6] + [s7];
  }

  /** One leader at a time, over every run, exactly in a steady world. */
  lemma OneLeaderExactlyWhenSteady(w: World)
    ensures Steady(w) <==> forall run, i | IsRun(run, w) && 0 <= i < |run| :: AtMostOneLeader(run[i])
  {
    if Steady(w) {
      forall run, i | IsRun(run, w) && 0 <= i < |run| ensures AtMostOneLeader(run[i]) {
        OneLeaderWhenSteady(run, w, i);
      }
    } else {
      var run;
      if w.abrupt { run := AbruptEndGivesTwoLeaders(w); } else { run := SlowStartGivesTwoLeaders(w); }
      assert !AtMostOneLeader(run[|run| - 1]);
    }
  }
}
