// The git cache: any number of calls, in any number of processes that may crash, share one
// directory of clones. A clone is made in a staging directory of its own and renamed into place;
// an entry filed under a branch or a tag is fetched again from time to time.
module GitCache {
  import opened Wrappers

  type Url = string
  type Oid = string

  datatype Key = Key(url: Url, rev: string)

  /** What a reference points at: a commit, an annotated tag of something, or no commit at all. */
  datatype Target = CommitObject(id: Oid) | TagObject(target: Target) | OtherObject

  /** A branch of the remote (in a clone, its `refs/remotes/origin/` copy) or a tag. */
  datatype Ref = Branch(name: string) | Tag(name: string)

  type Refs = map<Ref, Target>

  datatype Repo = Repo(refs: Refs, head: Option<Oid>)

  /** A directory still being cloned into, or a complete clone. */
  datatype Content = Partial | Whole(repo: Repo)

  datatype Dir = Entry(key: Key) | Staging(call: nat)

  datatype Phase =
    | Looking
    | Found
    | Absent
    | Cloning
    | Cloned
    | Resolved(commit: Oid)
    | HeadSet
    | CloneFailed
    | RenameFailed
    | Removed
    | InPlace
    | Fetching
    | Fetched
    | Repointing(commit: Oid)
    | Returned(ok: bool)
    | Crashed

  /** A call of `prepare` in the process `owner`. */
  datatype Call = Call(owner: nat, key: Key, phase: Phase)

  /**
    `refreshed` is each process's own record of when it last cloned or claimed a refresh of an
    entry; `makers` tells, for every entry, the call that moved it into place.
   */
  datatype State = State(
    now: int,
    remotes: map<Url, Refs>,
    fs: map<Dir, Content>,
    calls: map<nat, Call>,
    refreshed: map<nat, map<Key, int>>,
    dead: set<nat>,
    makers: map<Key, nat>)

  /** `parse` is how git reads a revision that is not the name of a remote branch or tag. */
  datatype World = World(refreshAfter: nat, parse: (Repo, string) -> Option<Target>)

  // ---------------------------------------------------------------- revisions

  predicate IsHexDigit(c: char) { '0' <= c <= '9' || 'a' <= c <= 'f' || 'A' <= c <= 'F' }

  predicate IsCommitId(rev: string) {
    |rev| in {40, 64} && forall i :: 0 <= i < |rev| ==> IsHexDigit(rev[i])
  }

  function Peel(target: Target): Option<Oid> {
    match target
    case CommitObject(id) => Some(id)
    case TagObject(inner) => Peel(inner)
    case OtherObject => None
  }

  /** The first of the remote's branch, the tag and git's own reading that exists. */
  function Lookup(repo: Repo, rev: string, w: World): Option<Target> {
    if Branch(rev) in repo.refs then Some(repo.refs[Branch(rev)])
    else if Tag(rev) in repo.refs then Some(repo.refs[Tag(rev)])
    else w.parse(repo, rev)
  }

  function Resolve(repo: Repo, rev: string, w: World): Option<Oid> {
    var target := Lookup(repo, rev, w);
    if target.Some? then Peel(target.value) else None
  }

  /** A tag of a tag of a tag, so many deep. */
  function Tagged(depth: nat, target: Target): Target {
    if depth == 0 then target else TagObject(Tagged(depth - 1, target))
  }

  /** However deep a tag is annotated, it comes down to the commit; what is no commit comes down to none. */
  lemma {:induction false} TagsArePeeled(depth: nat, id: Oid)
    ensures Peel(Tagged(depth, CommitObject(id))) == Some(id)
    ensures Peel(Tagged(depth, OtherObject)) == None
  {
    if depth > 0 { TagsArePeeled(depth - 1, id); }
  }

  /** The branch goes first, then the tag, then git's own reading; one that leads to no commit is not passed over. */
  lemma ResolveOrder(repo: Repo, rev: string, w: World)
    ensures Branch(rev) in repo.refs ==> Resolve(repo, rev, w) == Peel(repo.refs[Branch(rev)])
    ensures Branch(rev) !in repo.refs && Tag(rev) in repo.refs ==> Resolve(repo, rev, w) == Peel(repo.refs[Tag(rev)])
    ensures Branch(rev) !in repo.refs && Tag(rev) !in repo.refs && w.parse(repo, rev).Some? ==>
              Resolve(repo, rev, w) == Peel(w.parse(repo, rev).value)
  {
  }

  // ---------------------------------------------------------------- the refresh record

  predicate Due(record: map<Key, int>, key: Key, now: int, refreshAfter: nat) {
    key !in record || now - record[key] >= refreshAfter
  }

  /** One process's record, kept under a mutex: each call reads the clock once it has the lock. */
  class RefreshRecord {
    const refreshAfter: nat
    var refreshed: map<Key, int>

    constructor (refreshAfter: nat)
      ensures this.refreshAfter == refreshAfter && refreshed == map[]
    {
      this.refreshAfter := refreshAfter;
      refreshed := map[];
    }

    method RefreshIsDue(key: Key, now: int) returns (due: bool)
      modifies this
      ensures due == Due(old(refreshed), key, now, refreshAfter)
      ensures refreshed == if due then old(refreshed)[key := now] else old(refreshed)
      ensures !due ==> key in refreshed && now - refreshed[key] < refreshAfter
    {
      due := true;
      if key in refreshed { due := now - refreshed[key] >= refreshAfter; }
      if due { refreshed := refreshed[key := now]; }
    }

    method MarkRefreshed(key: Key, now: int)
      modifies this
      ensures refreshed == old(refreshed)[key := now]
    {
      refreshed := refreshed[key := now];
    }
  }

  // ---------------------------------------------------------------- steps

  datatype Step =
    | Tick(until: int)
    | MoveRef(url: Url, ref: Ref, target: Target)
    | DropRef(url: Url, ref: Ref)
    | Begin(c: nat, owner: nat, key: Key)
    | Look(c: nat)
    | Decide(c: nat)
    | Refuse(c: nat)
    | Stage(c: nat)
    | Clone(c: nat, head: Option<Oid>)
    | FailClone(c: nat)
    | ResolveRev(c: nat)
    | SetHead(c: nat)
    | Rename(c: nat)
    | FailRename(c: nat)
    | Remove(c: nat)
    | LookAgain(c: nat)
    | Mark(c: nat)
    | Fetch(c: nat)
    | FailRefresh(c: nat, fetched: Refs)
    | Crash(owner: nat)

  predicate In(s: State, c: nat, phase: Phase) { c in s.calls && s.calls[c].phase == phase }

  function Go(s: State, c: nat, phase: Phase): State
    requires c in s.calls
  {
    s.(calls := s.calls[c := s.calls[c].(phase := phase)])
  }

  function Put(s: State, dir: Dir, content: Content): State { s.(fs := s.fs[dir := content]) }

  function Record(s: State, owner: nat): map<Key, int> {
    if owner in s.refreshed then s.refreshed[owner] else map[]
  }

  function Claim(s: State, call: Call): State {
    s.(refreshed := s.refreshed[call.owner := Record(s, call.owner)[call.key := s.now]])
  }

  /** Where a call's clone is while it works on it. */
  function WorkDir(s: State, c: nat): Dir
    requires c in s.calls
  {
    var p := s.calls[c].phase;
    if p.Fetching? || p.Fetched? || p.Repointing? then Entry(s.calls[c].key) else Staging(c)
  }

  predicate HasClone(s: State, dir: Dir) { dir in s.fs && s.fs[dir].Whole? }

  function KillCalls(s: State, owner: nat): map<nat, Call> {
    map c | c in s.calls :: if s.calls[c].owner == owner && !s.calls[c].phase.Returned?
                            then s.calls[c].(phase := Crashed) else s.calls[c]
  }

  predicate Next(s: State, s': State, step: Step, w: World) {
    match step
    case Tick(until) => s.now <= until && s' == s.(now := until)
    case MoveRef(url, ref, target) =>
      s' == s.(remotes := s.remotes[url := (if url in s.remotes then s.remotes[url] else map[])[ref := target]])
    case DropRef(url, ref) =>
      url in s.remotes && s' == s.(remotes := s.remotes[url := s.remotes[url] - {ref}])
    case Begin(c, owner, key) =>
      c !in s.calls && owner !in s.dead && s' == s.(calls := s.calls[c := Call(owner, key, Looking)])
    case Crash(owner) => s' == s.(dead := s.dead + {owner}, calls := KillCalls(s, owner))
    case Look(c) =>
      In(s, c, Looking) && s' == Go(s, c, if Entry(s.calls[c].key) in s.fs then Found else Absent)
    case Decide(c) => In(s, c, Found) && NextDecide(s, s', c, w)
    case Refuse(c) => In(s, c, Absent) && s' == Go(s, c, Returned(false))
    case Stage(c) => In(s, c, Absent) && s' == Put(Go(s, c, Cloning), Staging(c), Partial)
    case Clone(c, head) =>
      In(s, c, Cloning) && s.calls[c].key.url in s.remotes
      && s' == Put(Go(s, c, Cloned), Staging(c), Whole(Repo(s.remotes[s.calls[c].key.url], head)))
    case FailClone(c) =>
      c in s.calls && (s.calls[c].phase.Cloning? || s.calls[c].phase.Cloned? || s.calls[c].phase.Resolved?)
      && s' == Go(s, c, CloneFailed)
    case ResolveRev(c) => c in s.calls && NextResolve(s, s', c, w)
    case SetHead(c) => c in s.calls && NextSetHead(s, s', c)
    case Rename(c) => In(s, c, HeadSet) && NextRename(s, s', c)
    case FailRename(c) => In(s, c, HeadSet) && s' == Go(s, c, RenameFailed)
    case Remove(c) =>
      (In(s, c, CloneFailed) || In(s, c, RenameFailed))
      && s' == Go(s, c, if In(s, c, CloneFailed) then Returned(false) else Removed).(fs := s.fs - {Staging(c)})
    case LookAgain(c) =>
      In(s, c, Removed) && s' == Go(s, c, if Entry(s.calls[c].key) in s.fs then InPlace else Returned(false))
    case Mark(c) => In(s, c, InPlace) && s' == Claim(Go(s, c, Returned(true)), s.calls[c])
    case Fetch(c) => In(s, c, Fetching) && NextFetch(s, s', c)
    case FailRefresh(c, fetched) => c in s.calls && NextFailRefresh(s, s', c, fetched)
  }

  predicate NextDecide(s: State, s': State, c: nat, w: World)
    requires c in s.calls
  {
    var call := s.calls[c];
    if !IsCommitId(call.key.rev) && Due(Record(s, call.owner), call.key, s.now, w.refreshAfter)
    then s' == Claim(Go(s, c, Fetching), call)
    else s' == Go(s, c, Returned(true))
  }

  predicate NextResolve(s: State, s': State, c: nat, w: World)
    requires c in s.calls
  {
    var dir, phase := WorkDir(s, c), s.calls[c].phase;
    (phase.Cloned? || phase.Fetched?) && HasClone(s, dir)
    && (var commit := Resolve(s.fs[dir].repo, s.calls[c].key.rev, w);
        commit.Some?
        && s' == Go(s, c, if phase.Cloned? then Resolved(commit.value) else Repointing(commit.value)))
  }

  predicate NextSetHead(s: State, s': State, c: nat)
    requires c in s.calls
  {
    var dir, phase := WorkDir(s, c), s.calls[c].phase;
    (phase.Resolved? || phase.Repointing?) && HasClone(s, dir)
    && s' == Put(Go(s, c, if phase.Resolved? then HeadSet else Returned(true)), dir,
                 Whole(s.fs[dir].repo.(head := Some(phase.commit))))
  }

  /** A directory cannot be renamed onto one that holds files. */
  predicate NextRename(s: State, s': State, c: nat)
    requires c in s.calls
  {
    var key := s.calls[c].key;
    Entry(key) !in s.fs && Staging(c) in s.fs
    && s' == Go(s, c, InPlace).(fs := (s.fs - {Staging(c)})[Entry(key) := s.fs[Staging(c)]],
                                makers := s.makers[key := c])
  }

  /** The fetch updates what the remote has and prunes nothing. */
  predicate NextFetch(s: State, s': State, c: nat)
    requires c in s.calls
  {
    var key := s.calls[c].key;
    key.url in s.remotes && HasClone(s, Entry(key))
    && s' == Put(Go(s, c, Fetched), Entry(key), FetchedClone(s.fs[Entry(key)], s.remotes[key.url]))
  }

  function FetchedClone(content: Content, refs: Refs): Content
    requires content.Whole?
  {
    Whole(content.repo.(refs := content.repo.refs + refs))
  }

  predicate PartOf(part: Refs, refs: Refs) {
    forall ref :: ref in part ==> ref in refs && refs[ref] == part[ref]
  }

  /** A refresh that fails, maybe after some references were updated, is only logged. */
  predicate NextFailRefresh(s: State, s': State, c: nat, fetched: Refs)
    requires c in s.calls
  {
    var key, phase := s.calls[c].key, s.calls[c].phase;
    if fetched == map[] then
      (phase.Fetching? || phase.Fetched? || phase.Repointing?) && s' == Go(s, c, Returned(true))
    else
      phase.Fetching? && key.url in s.remotes && PartOf(fetched, s.remotes[key.url]) && HasClone(s, Entry(key))
      && s' == Put(Go(s, c, Returned(true)), Entry(key), FetchedClone(s.fs[Entry(key)], fetched))
  }

  ghost predicate Linked(s: State, s': State, w: World) { exists step :: Next(s, s', step, w) }

  predicate Init(s: State) {
    s.fs == map[] && s.calls == map[] && s.refreshed == map[] && s.dead == {} && s.makers == map[]
  }

  ghost predicate IsRun(run: seq<State>, w: World) {
    run != [] && Init(run[0]) && forall i :: 0 < i < |run| ==> Linked(run[i - 1], run[i], w)
  }

  // ---------------------------------------------------------------- the invariant

  /** The commits each revision has named in a clone of its own. */
  type Names = iset<(Key, Oid)>

  /** The clone in `dir` is one made or kept for `key`. */
  predicate CloneOf(s: State, dir: Dir, key: Key) {
    HasClone(s, dir)
    && match dir
       case Entry(k) => k == key
       case Staging(c) => c in s.calls && s.calls[c].key == key
  }

  ghost predicate NamesNow(s: State, key: Key, commit: Oid, w: World) {
    exists dir :: CloneOf(s, dir, key) && Resolve(s.fs[dir].repo, key.rev, w) == Some(commit)
  }

  ghost predicate HeadNamed(s: State, dir: Dir, key: Key, names: Names) {
    HasClone(s, dir) && s.fs[dir].repo.head.Some? && (key, s.fs[dir].repo.head.value) in names
  }

  predicate UsesStaging(phase: Phase) {
    phase.Cloning? || phase.Cloned? || phase.Resolved? || phase.HeadSet? || phase.CloneFailed? || phase.RenameFailed?
  }

  predicate UsesEntry(phase: Phase) {
    phase.Found? || phase.InPlace? || phase.Fetching? || phase.Fetched? || phase.Repointing? || phase == Returned(true)
  }

  predicate Refreshes(phase: Phase) { phase.Fetching? || phase.Fetched? || phase.Repointing? }

  ghost predicate CallInv(s: State, c: nat, names: Names)
    requires c in s.calls
  {
    var Call(_, key, phase) := s.calls[c];
    && (Staging(c) in s.fs ==> UsesStaging(phase) || phase.Crashed?)
    && (UsesEntry(phase) ==> Entry(key) in s.fs)
    && (Refreshes(phase) ==> !IsCommitId(key.rev))
    && (phase.Cloned? || phase.Resolved? ==> HasClone(s, Staging(c)))
    && (phase.Resolved? || phase.Repointing? ==> (key, phase.commit) in names)
    && (phase.HeadSet? ==> HeadNamed(s, Staging(c), key, names))
  }

  predicate MakerInv(s: State, key: Key)
    requires key in s.makers
  {
    var c := s.makers[key];
    Entry(key) in s.fs && c in s.calls && s.calls[c].key == key
    && (s.calls[c].phase.InPlace? || s.calls[c].phase == Returned(true) || s.calls[c].phase.Crashed?)
  }

  ghost predicate Inv(s: State, names: Names) {
    && (forall c :: c in s.calls ==> CallInv(s, c, names))
    && (forall c :: Staging(c) in s.fs ==> c in s.calls)
    && (forall key :: Entry(key) in s.fs ==> HeadNamed(s, Entry(key), key, names) && key in s.makers)
    && (forall key :: key in s.makers ==> MakerInv(s, key))
  }

  /** A step of call `c` leaves every other call and its staging directory alone, and no entry disappears. */
  ghost predicate Local(s: State, s': State, c: nat) {
    && c in s.calls && c in s'.calls && s'.calls[c].key == s.calls[c].key && s'.calls[c].owner == s.calls[c].owner
    && s'.calls.Keys == s.calls.Keys && (forall q :: q in s.calls && q != c ==> s'.calls[q] == s.calls[q])
    && (forall q: nat :: q != c ==> (Staging(q) in s'.fs <==> Staging(q) in s.fs))
    && (forall q: nat :: q != c && Staging(q) in s.fs ==> s'.fs[Staging(q)] == s.fs[Staging(q)])
    && (forall key :: Entry(key) in s.fs ==> Entry(key) in s'.fs)
  }

  predicate IsCallStep(step: Step) {
    !step.Tick? && !step.MoveRef? && !step.DropRef? && !step.Begin? && !step.Crash?
  }

  predicate WritesFiles(step: Step) {
    step.Stage? || step.Clone? || step.Remove? || step.SetHead? || step.Rename? || step.Fetch? || step.FailRefresh?
  }

  lemma CallStepsAreLocal(s: State, s': State, step: Step, w: World)
    requires IsCallStep(step) && Next(s, s', step, w)
    ensures Local(s, s', step.c)
  {
    hide Next, Local;
    if WritesStaging(step) {
      StagingWritesAreLocal(s, s', step, w);
    } else if WritesFiles(step) {
      WritesAreLocal(s, s', step, w);
    } else {
      OtherStepsAreLocal(s, s', step, w);
    }
  }

  predicate WritesStaging(step: Step) { step.Stage? || step.Clone? || step.Remove? }

  lemma StagingWritesAreLocal(s: State, s': State, step: Step, w: World)
    requires WritesStaging(step) && Next(s, s', step, w)
    ensures Local(s, s', step.c)
  {
  }

  lemma WritesAreLocal(s: State, s': State, step: Step, w: World)
    requires WritesFiles(step) && !WritesStaging(step) && Next(s, s', step, w)
    ensures Local(s, s', step.c)
  {
    if step.Fetch? || step.FailRefresh? { RefreshIsLocal(s, s', step, w); }
  }

  lemma RefreshIsLocal(s: State, s': State, step: Step, w: World)
    requires (step.Fetch? || step.FailRefresh?) && Next(s, s', step, w)
    ensures Local(s, s', step.c)
  {
    hide FetchedClone, PartOf;
    if step.Fetch? {
      PutIsLocal(s, step.c, Fetched, s'.fs[Entry(s.calls[step.c].key)]);
    } else if step.fetched == map[] {
      GoIsLocal(s, step.c, Returned(true));
    } else {
      PutIsLocal(s, step.c, Returned(true), s'.fs[Entry(s.calls[step.c].key)]);
    }
    hide Local;
  }

  lemma PutIsLocal(s: State, c: nat, phase: Phase, content: Content)
    requires c in s.calls
    ensures Local(s, Put(Go(s, c, phase), Entry(s.calls[c].key), content), c)
  {
  }

  /** A call that goes to another phase and touches no file. */
  lemma GoIsLocal(s: State, c: nat, phase: Phase)
    requires c in s.calls
    ensures Local(s, Go(s, c, phase), c)
  {
  }

  lemma OtherStepsAreLocal(s: State, s': State, step: Step, w: World)
    requires IsCallStep(step) && !WritesFiles(step) && Next(s, s', step, w)
    ensures Local(s, s', step.c) && s'.fs == s.fs && s'.makers == s.makers
  {
    OtherStepsGo(s, s', step, w);
    GoIsLocal(s, step.c, s'.calls[step.c].phase);
    hide Next;
  }

  lemma OtherStepsGo(s: State, s': State, step: Step, w: World)
    requires IsCallStep(step) && !WritesFiles(step) && Next(s, s', step, w)
    ensures step.c in s.calls && step.c in s'.calls
    ensures Go(s, step.c, s'.calls[step.c].phase) == s'.(refreshed := s.refreshed)
    ensures !step.Decide? && !step.Mark? ==> s'.refreshed == s.refreshed
  {
    hide IsCommitId, Due, Resolve;
  }

  lemma OthersKeepInv(s: State, s': State, c: nat, q: nat, names: Names, names': Names)
    requires Inv(s, names) && Local(s, s', c) && names <= names' && q in s.calls && q != c
    ensures CallInv(s', q, names')
  {
    assert CallInv(s, q, names);
  }

  ghost predicate Learns(s: State, names: Names, names': Names, w: World) {
    names <= names' && forall key, commit :: NamesNow(s, key, commit, w) ==> (key, commit) in names'
  }

  lemma OwnKeepsInv(s: State, s': State, step: Step, names: Names, names': Names, w: World)
    requires IsCallStep(step) && Next(s, s', step, w) && Inv(s, names) && Learns(s, names, names', w)
    ensures step.c in s'.calls && CallInv(s', step.c, names')
  {
    hide Next;
    CallStepsAreLocal(s, s', step, w);
    assert CallInv(s, step.c, names);
    hide CallInv;
    if WritesFiles(step) {
      hide WritesFiles;
      if WritesStaging(step) {
        OwnStagingKeepsInv(s, s', step, names, names', w);
      } else {
        OwnWriteKeepsInv(s, s', step, names, names', w);
      }
    } else if step.ResolveRev? {
      OwnResolveKeepsInv(s, s', step.c, names, names', w);
    } else {
      OwnMoveKeepsInv(s, s', step, names, names', w);
    }
  }

  lemma OwnStagingKeepsInv(s: State, s': State, step: Step, names: Names, names': Names, w: World)
    requires WritesStaging(step) && Next(s, s', step, w) && names <= names'
    requires step.c in s.calls && CallInv(s, step.c, names)
    ensures step.c in s'.calls && CallInv(s', step.c, names')
  {
    hide IsCommitId;
  }

  lemma OwnWriteKeepsInv(s: State, s': State, step: Step, names: Names, names': Names, w: World)
    requires WritesFiles(step) && !WritesStaging(step) && Next(s, s', step, w) && names <= names'
    requires step.c in s.calls && CallInv(s, step.c, names)
    ensures step.c in s'.calls && CallInv(s', step.c, names')
  {
    hide IsCommitId;
    if step.Fetch? || step.FailRefresh? { OwnRefreshKeepsInv(s, s', step, names, names', w); }
  }

  lemma OwnRefreshKeepsInv(s: State, s': State, step: Step, names: Names, names': Names, w: World)
    requires (step.Fetch? || step.FailRefresh?) && Next(s, s', step, w) && names <= names'
    requires step.c in s.calls && CallInv(s, step.c, names)
    ensures step.c in s'.calls && CallInv(s', step.c, names')
  {
    hide IsCommitId, FetchedClone, PartOf;
  }

  lemma OwnMoveKeepsInv(s: State, s': State, step: Step, names: Names, names': Names, w: World)
    requires IsCallStep(step) && !WritesFiles(step) && !step.ResolveRev? && Next(s, s', step, w) && names <= names'
    requires step.c in s.calls && CallInv(s, step.c, names)
    ensures step.c in s'.calls && CallInv(s', step.c, names')
  {
    OtherStepsGo(s, s', step, w);
    MoveIsSound(s, s', step, w);
    hide Next, IsCommitId;
  }

  /** Where a call that touches no file goes on to. */
  lemma MoveIsSound(s: State, s': State, step: Step, w: World)
    requires IsCallStep(step) && !WritesFiles(step) && !step.ResolveRev? && Next(s, s', step, w)
    requires step.c in s.calls && step.c in s'.calls
    ensures var Call(_, key, before), after := s.calls[step.c], s'.calls[step.c].phase;
            && (UsesStaging(before) ==> after.CloneFailed? || after.RenameFailed?)
            && !after.Cloned? && !after.Resolved? && !after.Repointing? && !after.HeadSet? && !before.Crashed?
            && (UsesEntry(after) ==> UsesEntry(before) || Entry(key) in s.fs)
            && (Refreshes(after) ==> !IsCommitId(key.rev))
  {
    hide IsCommitId, Due, Resolve;
  }

  lemma OwnResolveKeepsInv(s: State, s': State, c: nat, names: Names, names': Names, w: World)
    requires Next(s, s', ResolveRev(c), w) && Learns(s, names, names', w)
    requires c in s.calls && CallInv(s, c, names)
    ensures c in s'.calls && CallInv(s', c, names')
  {
    hide IsCommitId, Resolve;
    assert CloneOf(s, WorkDir(s, c), s.calls[c].key);
    assert NamesNow(s, s.calls[c].key, s'.calls[c].phase.commit, w);
  }

  lemma EntriesKeepInv(s: State, s': State, step: Step, names: Names, names': Names, w: World, key: Key)
    requires IsCallStep(step) && Next(s, s', step, w) && Inv(s, names) && names <= names'
    requires Entry(key) in s'.fs
    ensures HeadNamed(s', Entry(key), key, names') && key in s'.makers
  {
    hide Next;
    if WritesFiles(step) {
      CallStepsAreLocal(s, s', step, w);
      EntryWriteKeepsInv(s, s', step, names, names', w, key);
    } else {
      OtherStepsAreLocal(s, s', step, w);
    }
  }

  lemma EntryWriteKeepsInv(s: State, s': State, step: Step, names: Names, names': Names, w: World, key: Key)
    requires WritesFiles(step) && Next(s, s', step, w) && names <= names'
    requires step.c in s.calls && CallInv(s, step.c, names) && Entry(key) in s'.fs
    requires Entry(key) in s.fs ==> HeadNamed(s, Entry(key), key, names) && key in s.makers
    ensures HeadNamed(s', Entry(key), key, names') && key in s'.makers
  {
    hide IsCommitId;
  }

  lemma MakersKeepInv(s: State, s': State, step: Step, names: Names, w: World, key: Key)
    requires IsCallStep(step) && Next(s, s', step, w) && Inv(s, names) && key in s'.makers
    ensures MakerInv(s', key)
  {
    hide IsCommitId, Due, Resolve;
    CallStepsAreLocal(s, s', step, w);
    if step.Rename? {
      RenameKeepsMakers(s, s', step.c, w, key);
    } else {
      assert s'.makers == s.makers && MakerInv(s, key);
      MakerStays(s, s', step, w, key);
    }
  }

  lemma RenameKeepsMakers(s: State, s': State, c: nat, w: World, key: Key)
    requires Next(s, s', Rename(c), w) && Local(s, s', c) && key in s'.makers && (key in s.makers ==> MakerInv(s, key))
    ensures MakerInv(s', key)
  {
  }

  lemma MakerStays(s: State, s': State, step: Step, w: World, key: Key)
    requires IsCallStep(step) && Next(s, s', step, w) && Local(s, s', step.c) && s'.makers == s.makers
    requires key in s.makers && MakerInv(s, key)
    ensures MakerInv(s', key)
  {
    hide IsCommitId, Due, Resolve;
  }

  lemma CallStepKeepsInv(s: State, s': State, step: Step, names: Names, names': Names, w: World)
    requires IsCallStep(step) && Next(s, s', step, w) && Inv(s, names) && Learns(s, names, names', w)
    ensures Inv(s', names')
  {
    hide Next;
    CallStepsAreLocal(s, s', step, w);
    OwnKeepsInv(s, s', step, names, names', w);
    forall q | q in s'.calls ensures CallInv(s', q, names') {
      if q != step.c { OthersKeepInv(s, s', step.c, q, names, names'); }
    }
    forall key | Entry(key) in s'.fs ensures HeadNamed(s', Entry(key), key, names') && key in s'.makers {
      EntriesKeepInv(s, s', step, names, names', w, key);
    }
    forall key | key in s'.makers ensures MakerInv(s', key) {
      MakersKeepInv(s, s', step, names, w, key);
    }
  }

  /** What is not a call's step touches no file, and leaves a call as it is, new, or crashed. */
  lemma OutsideSteps(s: State, s': State, step: Step, w: World)
    requires !IsCallStep(step) && Next(s, s', step, w)
    ensures s'.fs == s.fs && s'.makers == s.makers && s.calls.Keys <= s'.calls.Keys
    ensures forall q :: q in s.calls ==>
              s'.calls[q] == s.calls[q] || (s'.calls[q] == s.calls[q].(phase := Crashed) && !s.calls[q].phase.Returned?)
    ensures forall q :: q in s'.calls && q !in s.calls ==> s'.calls[q].phase.Looking?
  {
  }

  lemma OutsideStepKeepsInv(s: State, s': State, step: Step, names: Names, names': Names, w: World)
    requires !IsCallStep(step) && Next(s, s', step, w) && Inv(s, names) && names <= names'
    ensures Inv(s', names')
  {
    hide Next, IsCommitId;
    OutsideSteps(s, s', step, w);
    forall q | q in s'.calls ensures CallInv(s', q, names') {
      if q in s.calls { assert CallInv(s, q, names); }
    }
    forall key | key in s'.makers ensures MakerInv(s', key) {
      assert MakerInv(s, key);
    }
  }

  // ---------------------------------------------------------------- runs

  lemma StepAt(run: seq<State>, w: World, i: nat) returns (step: Step)
    requires IsRun(run, w) && 0 < i < |run|
    ensures Next(run[i - 1], run[i], step, w)
  {
    hide Next;
    assert Linked(run[i - 1], run[i], w);
    step :| Next(run[i - 1], run[i], step, w);
  }

  /** The revision named the commit, in a clone of its own, in one of the run's states so far. */
  ghost predicate NamedBy(run: seq<State>, i: nat, key: Key, commit: Oid, w: World) {
    exists j :: 0 <= j <= i && j < |run| && NamesNow(run[j], key, commit, w)
  }

  ghost function NamesBy(run: seq<State>, i: nat, w: World): Names {
    iset key: Key, commit: Oid | NamedBy(run, i, key, commit, w) :: (key, commit)
  }

  lemma {:induction false} RunsKeepInv(run: seq<State>, w: World, i: nat)
    requires IsRun(run, w) && i < |run|
    ensures Inv(run[i], NamesBy(run, i, w))
  {
    hide Inv, Init, Next, Linked, NamesBy;
    assert Init(run[0]);
    hide *;
    if i == 0 {
      InitHoldsInv(run[0], NamesBy(run, 0, w));
    } else {
      var s, s', names, names' := run[i - 1], run[i], NamesBy(run, i - 1, w), NamesBy(run, i, w);
      RunsKeepInv(run, w, i - 1);
      LearnsInOneStep(run, w, i);
      var step := StepAt(run, w, i);
      if IsCallStep(step) {
        CallStepKeepsInv(s, s', step, names, names', w);
      } else {
        OutsideStepKeepsInv(s, s', step, names, names', w);
      }
    }
  }

  lemma InitHoldsInv(s: State, names: Names)
    requires Init(s)
    ensures Inv(s, names)
  {
  }

  lemma LearnsInOneStep(run: seq<State>, w: World, i: nat)
    requires 0 < i < |run|
    ensures Learns(run[i - 1], NamesBy(run, i - 1, w), NamesBy(run, i, w), w)
    ensures NamesBy(run, i - 1, w) <= NamesBy(run, i, w)
  {
    hide NamesNow;
    forall key, commit | NamedBy(run, i - 1, key, commit, w) || NamesNow(run[i - 1], key, commit, w)
      ensures NamedBy(run, i, key, commit, w)
    {
    }
  }

  /** An entry that exists is a complete clone, on a commit its revision named at some clone or refresh. */
  lemma EntriesAreOnTheirRevision(run: seq<State>, w: World, i: nat, key: Key)
    requires IsRun(run, w) && i < |run| && Entry(key) in run[i].fs
    ensures run[i].fs[Entry(key)].Whole?
    ensures var head := run[i].fs[Entry(key)].repo.head;
            head.Some? && NamedBy(run, i, key, head.value, w)
  {
    RunsKeepInv(run, w, i);
  }

  /** What a finished or crashed call leaves behind, and what each result means. */
  lemma CallsCleanUp(run: seq<State>, w: World, i: nat, c: nat)
    requires IsRun(run, w) && i < |run| && c in run[i].calls
    ensures Staging(c) in run[i].fs ==> UsesStaging(run[i].calls[c].phase) || run[i].calls[c].phase.Crashed?
    ensures run[i].calls[c].phase == Returned(true) ==> Entry(run[i].calls[c].key) in run[i].fs
    ensures run[i].calls[c].phase == Returned(false) ==>
              Staging(c) !in run[i].fs && forall key :: key in run[i].makers ==> run[i].makers[key] != c
    ensures forall key :: key in run[i].makers <==> Entry(key) in run[i].fs
  {
    RunsKeepInv(run, w, i);
    assert CallInv(run[i], c, NamesBy(run, i, w));
    forall key | key in run[i].makers ensures run[i].calls[c].phase == Returned(false) ==> run[i].makers[key] != c {
      assert MakerInv(run[i], key);
    }
  }

  lemma EntryOverOneStep(s: State, s': State, step: Step, names: Names, w: World, key: Key)
    requires Inv(s, names) && Next(s, s', step, w) && Entry(key) in s.fs
    ensures Entry(key) in s'.fs
    ensures IsCommitId(key.rev) ==> s'.fs[Entry(key)] == s.fs[Entry(key)]
  {
    hide IsCommitId, Due, Resolve;
    if !IsCallStep(step) {
      OutsideSteps(s, s', step, w);
      hide Next;
    } else if !WritesFiles(step) {
      OtherStepsAreLocal(s, s', step, w);
      hide Next;
    } else {
      CallStepsAreLocal(s, s', step, w);
      assert CallInv(s, step.c, names);
      EntryOverWrite(s, s', step, w, key);
    }
  }

  /** Only a call that refreshes its entry writes to it, and that is no call for a full commit id. */
  lemma EntryOverWrite(s: State, s': State, step: Step, w: World, key: Key)
    requires WritesFiles(step) && Next(s, s', step, w) && Entry(key) in s.fs && step.c in s.calls
    requires Refreshes(s.calls[step.c].phase) ==> !IsCommitId(s.calls[step.c].key.rev)
    ensures Entry(key) in s'.fs
    ensures IsCommitId(key.rev) ==> s'.fs[Entry(key)] == s.fs[Entry(key)]
  {
    hide IsCommitId;
  }

  /** Entries stay, and one filed under a full commit id stays as it is. */
  lemma {:induction false} CommitEntriesNeverChange(run: seq<State>, w: World, i: nat, j: nat, key: Key)
    requires IsRun(run, w) && i <= j < |run| && Entry(key) in run[i].fs
    ensures Entry(key) in run[j].fs
    ensures IsCommitId(key.rev) ==> run[j].fs[Entry(key)] == run[i].fs[Entry(key)]
  {
    hide Next, Inv, IsCommitId, IsRun;
    if i < j {
      CommitEntriesNeverChange(run, w, i, j - 1, key);
      RunsKeepInv(run, w, j - 1);
      var step := StepAt(run, w, j);
      EntryOverOneStep(run[j - 1], run[j], step, NamesBy(run, j - 1, w), w, key);
    }
  }

  /** The phases of a call that found its entry there. */
  predicate IsServed(phase: Phase) {
    phase.Looking? || phase.Found? || phase.Fetching? || phase.Fetched? || phase.Repointing? || phase == Returned(true)
    || phase.Crashed?
  }

  lemma ServedOverOneStep(s: State, s': State, step: Step, w: World, c: nat)
    requires Next(s, s', step, w) && c in s'.calls
    requires c in s.calls ==> IsServed(s.calls[c].phase) && Entry(s.calls[c].key) in s.fs
    ensures IsServed(s'.calls[c].phase)
  {
    hide IsCommitId, Due, Resolve;
    if !IsCallStep(step) {
      OutsideSteps(s, s', step, w);
      hide Next;
    } else if c != step.c {
      CallStepsAreLocal(s, s', step, w);
      hide Next;
    } else {
      ServedStep(s, s', step, w);
    }
  }

  lemma ServedStep(s: State, s': State, step: Step, w: World)
    requires IsCallStep(step) && Next(s, s', step, w) && step.c in s'.calls
    requires step.c in s.calls && IsServed(s.calls[step.c].phase) && Entry(s.calls[step.c].key) in s.fs
    ensures IsServed(s'.calls[step.c].phase)
  {
    hide IsCommitId, Due, Resolve, FetchedClone, PartOf;
  }

  /**
    Once an entry is there, every call for it that begins later is served from it: it makes no
    staging directory, and whatever becomes of a refresh, it does not fail.
   */
  lemma {:induction false} EntryServesLaterCalls(run: seq<State>, w: World, i: nat, j: nat, c: nat)
    requires IsRun(run, w) && i <= j < |run| && c !in run[i].calls && c in run[j].calls
    requires Entry(run[j].calls[c].key) in run[i].fs
    ensures IsServed(run[j].calls[c].phase)
    decreases j
  {
    hide Next, IsRun, IsServed;
    if i < j {
      var step := StepAt(run, w, j);
      CommitEntriesNeverChange(run, w, i, j - 1, run[j].calls[c].key);
      if c in run[j - 1].calls {
        CallKeepsKey(run[j - 1], run[j], step, w, c);
        EntryServesLaterCalls(run, w, i, j - 1, c);
      }
      ServedOverOneStep(run[j - 1], run[j], step, w, c);
    }
  }

  lemma CallKeepsKey(s: State, s': State, step: Step, w: World, c: nat)
    requires Next(s, s', step, w) && c in s.calls && c in s'.calls
    ensures s'.calls[c].key == s.calls[c].key
  {
    hide IsCommitId, Due, Resolve;
    if IsCallStep(step) {
      CallStepsAreLocal(s, s', step, w);
      hide Next;
    } else {
      OutsideSteps(s, s', step, w);
      hide Next;
    }
  }

  // ---------------------------------------------------------------- where the names come from

  ghost predicate HadRef(run: seq<State>, i: nat, url: Url, ref: Ref, target: Target) {
    exists j :: 0 <= j <= i && j < |run| && RemoteHas(run[j], url, ref, target)
  }

  predicate RemoteHas(s: State, url: Url, ref: Ref, target: Target) {
    url in s.remotes && ref in s.remotes[url] && s.remotes[url][ref] == target
  }

  predicate CloneHas(s: State, dir: Dir, key: Key, ref: Ref, target: Target) {
    CloneOf(s, dir, key) && ref in s.fs[dir].repo.refs && s.fs[dir].repo.refs[ref] == target
  }

  lemma RefOverOneStep(s: State, s': State, step: Step, names: Names, w: World,
      dir: Dir, key: Key, ref: Ref, target: Target)
    returns (before: Dir)
    requires Inv(s, names) && Next(s, s', step, w) && CloneHas(s', dir, key, ref, target)
    ensures RemoteHas(s, key.url, ref, target) || CloneHas(s, before, key, ref, target)
  {
    hide IsCommitId, Due, Resolve;
    if IsCallStep(step) && WritesFiles(step) {
      before := RefOverWrite(s, s', step, w, dir, key, ref, target);
    } else {
      before := dir;
      if IsCallStep(step) { hide Next; OtherStepsAreLocal(s, s', step, w); }
    }
  }

  lemma RefOverWrite(s: State, s': State, step: Step, w: World, dir: Dir, key: Key, ref: Ref, target: Target)
    returns (before: Dir)
    requires WritesFiles(step) && Next(s, s', step, w) && CloneHas(s', dir, key, ref, target)
    ensures RemoteHas(s, key.url, ref, target) || CloneHas(s, before, key, ref, target)
  {
    if step.Rename? {
      before := if dir == Entry(s.calls[step.c].key) then Staging(step.c) else dir;
    } else {
      before := dir;
      RefInPlace(s, s', step, w, dir, key, ref, target);
    }
  }

  lemma RefInPlace(s: State, s': State, step: Step, w: World, dir: Dir, key: Key, ref: Ref, target: Target)
    requires WritesFiles(step) && !step.Rename? && Next(s, s', step, w) && CloneHas(s', dir, key, ref, target)
    ensures RemoteHas(s, key.url, ref, target) || CloneHas(s, dir, key, ref, target)
  {
  }

  /** Every reference a clone holds is one its remote had, at the time or earlier. */
  lemma {:induction false} ClonesHoldRemoteRefs(run: seq<State>, w: World, i: nat,
      dir: Dir, key: Key, ref: Ref, target: Target)
    requires IsRun(run, w) && i < |run| && CloneHas(run[i], dir, key, ref, target)
    ensures HadRef(run, i, key.url, ref, target)
  {
    hide Next, Inv;
    if i > 0 {
      hide IsRun, CloneHas, NamesBy;
      RunsKeepInv(run, w, i - 1);
      var step := StepAt(run, w, i);
      var before := RefOverOneStep(run[i - 1], run[i], step, NamesBy(run, i - 1, w), w, dir, key, ref, target);
      if CloneHas(run[i - 1], before, key, ref, target) {
        ClonesHoldRemoteRefs(run, w, i - 1, before, key, ref, target);
      }
      assert HadRef(run, i, key.url, ref, target);
    }
  }

  ghost predicate NamedAs(run: seq<State>, i: nat, url: Url, ref: Ref, commit: Oid) {
    exists target :: HadRef(run, i, url, ref, target) && Peel(target) == Some(commit)
  }

  /** Git itself read the revision so, in a clone with no such branch or tag. */
  ghost predicate ReadAs(run: seq<State>, i: nat, key: Key, commit: Oid, w: World) {
    exists j, dir ::
      0 <= j <= i && j < |run| && CloneOf(run[j], dir, key) && ParsesTo(run[j].fs[dir].repo, key.rev, commit, w)
  }

  predicate ParsesTo(repo: Repo, rev: string, commit: Oid, w: World) {
    Branch(rev) !in repo.refs && Tag(rev) !in repo.refs && Resolve(repo, rev, w) == Some(commit)
  }

  /**
    The commit an entry is on was, at some point of the run, the remote's branch or tag of that
    name, or what git reads the revision as in a clone that has neither.
   */
  lemma HeadsComeFromTheRemote(run: seq<State>, w: World, i: nat, key: Key)
    requires IsRun(run, w) && i < |run| && Entry(key) in run[i].fs
    ensures run[i].fs[Entry(key)].Whole? && run[i].fs[Entry(key)].repo.head.Some?
    ensures var commit := run[i].fs[Entry(key)].repo.head.value;
            NamedAs(run, i, key.url, Branch(key.rev), commit)
            || NamedAs(run, i, key.url, Tag(key.rev), commit)
            || ReadAs(run, i, key, commit, w)
  {
    EntriesAreOnTheirRevision(run, w, i, key);
    var commit := run[i].fs[Entry(key)].repo.head.value;
    var j :| 0 <= j <= i && j < |run| && NamesNow(run[j], key, commit, w);
    var dir :| CloneOf(run[j], dir, key) && Resolve(run[j].fs[dir].repo, key.rev, w) == Some(commit);
    NamesComeFromRefs(run, w, j, dir, key, commit);
  }

  lemma NamesComeFromRefs(run: seq<State>, w: World, j: nat, dir: Dir, key: Key, commit: Oid)
    requires IsRun(run, w) && j < |run|
    requires CloneOf(run[j], dir, key) && Resolve(run[j].fs[dir].repo, key.rev, w) == Some(commit)
    ensures NamedAs(run, j, key.url, Branch(key.rev), commit)
            || NamedAs(run, j, key.url, Tag(key.rev), commit)
            || ParsesTo(run[j].fs[dir].repo, key.rev, commit, w)
  {
    hide IsRun;
    var refs := run[j].fs[dir].repo.refs;
    forall ref | ref in {Branch(key.rev), Tag(key.rev)} && ref in refs ensures HadRef(run, j, key.url, ref, refs[ref]) {
      ClonesHoldRemoteRefs(run, w, j, dir, key, ref, refs[ref]);
    }
  }

  // ---------------------------------------------------------------- what a refresh does

  /**
    A refresh brings the entry to where the remote's branch of that name was when it fetched, if
    nobody else wrote the entry between the fetch and the reading, and whatever happened otherwise.
   */
  lemma RefreshFollowsTheBranch(s: State, s1: State, s2: State, s3: State, s4: State, s5: State, c: nat, w: World)
    requires Next(s, s1, Fetch(c), w)
    requires c in s2.calls && s2.calls[c] == s1.calls[c]
    requires var entry := Entry(s.calls[c].key); entry in s2.fs && entry in s1.fs && s2.fs[entry] == s1.fs[entry]
    requires Next(s2, s3, ResolveRev(c), w)
    requires c in s4.calls && s4.calls[c] == s3.calls[c] && Next(s4, s5, SetHead(c), w)
    requires Branch(s.calls[c].key.rev) in s.remotes[s.calls[c].key.url]
    ensures var key := s.calls[c].key;
            Entry(key) in s5.fs && s5.fs[Entry(key)].Whole? && s5.calls[c].phase == Returned(true)
            && s5.fs[Entry(key)].repo.head == Peel(s.remotes[key.url][Branch(key.rev)])
  {
    hide IsCommitId, Due;
  }

  /** A fetch brings every branch and tag the remote has up to date, and drops none the clone had. */
  lemma FetchBringsUpToDate(s: State, s': State, c: nat, w: World, ref: Ref)
    requires Next(s, s', Fetch(c), w)
    ensures var key := s.calls[c].key;
            HasClone(s, Entry(key)) && HasClone(s', Entry(key)) && key.url in s.remotes
            && (var before, after := s.fs[Entry(key)].repo, s'.fs[Entry(key)].repo;
                after.head == before.head
                && (ref in s.remotes[key.url] ==> ref in after.refs && after.refs[ref] == s.remotes[key.url][ref])
                && (ref !in s.remotes[key.url] ==>
                      (ref in after.refs <==> ref in before.refs)
                      && (ref in before.refs ==> after.refs[ref] == before.refs[ref])))
  {
    hide IsCommitId, Due, Resolve;
  }

  /** An entry found is fetched again exactly if it is due and its revision is not 40 or 64 hex digits. */
  lemma OnlyCommitIdsAreNotRefreshed(s: State, s': State, c: nat, w: World)
    requires Next(s, s', Decide(c), w)
    ensures var call := s.calls[c];
            s'.calls[c].phase == Fetching <==>
              Due(Record(s, call.owner), call.key, s.now, w.refreshAfter)
              && !((|call.key.rev| == 40 || |call.key.rev| == 64)
                   && forall i :: 0 <= i < |call.key.rev| ==>
                        var d := call.key.rev[i]; '0' <= d <= '9' || 'a' <= d <= 'f' || 'A' <= d <= 'F')
  {
    hide Due, Resolve;
  }

  // ---------------------------------------------------------------- full commit ids

  /** Git reads a full commit id as that commit. */
  ghost predicate ReadsIds(w: World) {
    forall repo, rev :: IsCommitId(rev) && w.parse(repo, rev).Some? ==> w.parse(repo, rev).value == CommitObject(rev)
  }

  /** What a full commit id comes to in a clone: a branch or tag of that name goes first. */
  function IdTarget(refs: Refs, id: string): Option<Oid> {
    if Branch(id) in refs then Peel(refs[Branch(id)])
    else if Tag(id) in refs then Peel(refs[Tag(id)])
    else Some(id)
  }

  predicate OnId(s: State, dir: Dir, id: string) {
    HasClone(s, dir) && s.fs[dir].repo.head.Some? && s.fs[dir].repo.head == IdTarget(s.fs[dir].repo.refs, id)
  }

  predicate IdCallInv(s: State, c: nat)
    requires c in s.calls
  {
    var Call(_, key, phase) := s.calls[c];
    IsCommitId(key.rev) ==>
      (phase.Resolved? ==> HasClone(s, Staging(c))
                           && Some(phase.commit) == IdTarget(s.fs[Staging(c)].repo.refs, key.rev))
      && (phase.HeadSet? ==> OnId(s, Staging(c), key.rev))
  }

  ghost predicate IdInv(s: State) {
    (forall c :: c in s.calls ==> IdCallInv(s, c))
    && forall key :: Entry(key) in s.fs && IsCommitId(key.rev) ==> OnId(s, Entry(key), key.rev)
  }

  lemma ResolvedId(repo: Repo, id: string, w: World)
    requires ReadsIds(w) && IsCommitId(id) && Resolve(repo, id, w).Some?
    ensures Resolve(repo, id, w) == IdTarget(repo.refs, id)
  {
    hide IsCommitId;
  }

  lemma IdCallOverOneStep(s: State, s': State, step: Step, w: World, c: nat)
    requires ReadsIds(w) && IsCallStep(step) && Next(s, s', step, w) && c in s.calls && c in s'.calls && IdCallInv(s, c)
    requires Local(s, s', step.c)
    ensures IdCallInv(s', c)
  {
    hide IsCommitId, Resolve, Due, IdTarget;
    if c == step.c && step.ResolveRev? {
      if IsCommitId(s.calls[c].key.rev) { ResolvedId(s.fs[WorkDir(s, c)].repo, s.calls[c].key.rev, w); }
    } else if c != step.c {
      hide Next;
    }
  }

  lemma IdEntryOverOneStep(s: State, s': State, step: Step, names: Names, w: World, key: Key)
    requires Inv(s, names) && IdInv(s) && Next(s, s', step, w) && Entry(key) in s'.fs && IsCommitId(key.rev)
    ensures OnId(s', Entry(key), key.rev)
  {
    hide IsCommitId, IdTarget;
    if Entry(key) in s.fs {
      hide Next, Inv;
      EntryOverOneStep(s, s', step, names, w, key);
    } else {
      NewEntryIsRenamed(s, s', step, w, key);
      assert IdCallInv(s, step.c);
    }
  }

  lemma NewEntryIsRenamed(s: State, s': State, step: Step, w: World, key: Key)
    requires Next(s, s', step, w) && Entry(key) !in s.fs && Entry(key) in s'.fs
    ensures step.Rename? && In(s, step.c, HeadSet) && s.calls[step.c].key == key
    ensures Staging(step.c) in s.fs && s'.fs[Entry(key)] == s.fs[Staging(step.c)]
  {
    hide IsCommitId, Resolve, Due;
  }

  lemma StepKeepsIds(s: State, s': State, step: Step, names: Names, w: World)
    requires ReadsIds(w) && Next(s, s', step, w) && Inv(s, names) && IdInv(s)
    ensures IdInv(s')
  {
    hide Next, Inv, ReadsIds, OnId, IsCommitId, IdCallInv;
    forall c | c in s'.calls ensures IdCallInv(s', c) { IdCallStep(s, s', step, w, c); }
    forall key | Entry(key) in s'.fs && IsCommitId(key.rev) ensures OnId(s', Entry(key), key.rev) {
      IdEntryOverOneStep(s, s', step, names, w, key);
    }
  }

  lemma {:induction false} IdsKeepInv(run: seq<State>, w: World, i: nat)
    requires ReadsIds(w) && IsRun(run, w) && i < |run|
    ensures IdInv(run[i])
  {
    if i > 0 {
      hide *;
      IdsKeepInv(run, w, i - 1);
      RunsKeepInv(run, w, i - 1);
      var step := StepAt(run, w, i);
      StepKeepsIds(run[i - 1], run[i], step, NamesBy(run, i - 1, w), w);
    }
  }

  lemma IdCallStep(s: State, s': State, step: Step, w: World, c: nat)
    requires ReadsIds(w) && Next(s, s', step, w) && IdInv(s) && c in s'.calls
    ensures IdCallInv(s', c)
  {
    hide IsCommitId, ReadsIds, IdTarget;
    if IsCallStep(step) {
      CallStepsAreLocal(s, s', step, w);
      hide Next;
      assert IdCallInv(s, c);
      IdCallOverOneStep(s, s', step, w, c);
    } else if c in s.calls {
      assert IdCallInv(s, c);
    }
  }

  /**
    An entry for a full commit id is on that commit exactly if the branch of that name in its clone,
    or else the tag, leads there too; so it is where the remote had neither.
   */
  lemma CommitEntriesAreOnTheirId(run: seq<State>, w: World, i: nat, key: Key)
    requires ReadsIds(w) && IsRun(run, w) && i < |run| && Entry(key) in run[i].fs && IsCommitId(key.rev)
    ensures OnId(run[i], Entry(key), key.rev)
    ensures var repo := run[i].fs[Entry(key)].repo;
            repo.head == Some(key.rev) <==>
              if Branch(key.rev) in repo.refs then Peel(repo.refs[Branch(key.rev)]) == Some(key.rev)
              else Tag(key.rev) in repo.refs ==> Peel(repo.refs[Tag(key.rev)]) == Some(key.rev)
    ensures (forall ref, target | ref in {Branch(key.rev), Tag(key.rev)} :: !HadRef(run, i, key.url, ref, target)) ==>
              run[i].fs[Entry(key)].repo.head == Some(key.rev)
  {
    hide IsCommitId, IsRun, ReadsIds, HadRef;
    IdsKeepInv(run, w, i);
    var refs := run[i].fs[Entry(key)].repo.refs;
    forall ref | ref in {Branch(key.rev), Tag(key.rev)} && ref in refs ensures HadRef(run, i, key.url, ref, refs[ref]) {
      ClonesHoldRemoteRefs(run, w, i, Entry(key), key, ref, refs[ref]);
    }
  }

  lemma Extend(run: seq<State>, s': State, step: Step, w: World)
    requires IsRun(run, w) && Next(run[|run| - 1], s', step, w)
    ensures IsRun(run + [s'], w)
  {
    hide Next;
    var longer := run + [s'];
    forall i | 0 < i < |longer| ensures Linked(longer[i - 1], longer[i], w) {
      if i < |run| {
        assert longer[i - 1] == run[i - 1] && longer[i] == run[i];
      } else {
        assert longer[i - 1] == run[|run| - 1] && longer[i] == s';
      }
    }
  }

  /** Of a remote with a branch named by a full commit id, the entry is on the branch's commit. */
  lemma BranchNamedByAnIdGoesFirst(id: string, other: Oid, w: World) returns (run: seq<State>)
    ensures IsRun(run, w)
    ensures var s, entry := run[|run| - 1], Entry(Key("u", id));
            entry in s.fs && s.fs[entry] == Whole(Repo(map[Branch(id) := CommitObject(other)], Some(other)))
  {
    var key, refs := Key("u", id), map[Branch(id) := CommitObject(other)];
    var s0 := State(0, map[], map[], map[], map[], {}, map[]);
    var s1 := s0.(remotes := map["u" := refs]);
    Extend([s0], s1, MoveRef("u", Branch(id), CommitObject(other)), w);
    var s2 := s1.(calls := map[1 := Call(1, key, Looking)]);
    hide IsRun;
    Extend([s0] + [s1], s2, Begin(1, 1, key), w);
    run := StageLoneCall([s0] + [s1] + [s2], key, refs, w);
    run := CloneOfShadowedId(run, key, refs, other, w);
  }

  lemma StageLoneCall(before: seq<State>, key: Key, refs: Refs, w: World) returns (run: seq<State>)
    requires IsRun(before, w)
    requires before[|before| - 1]
          == State(0, map[key.url := refs], map[], map[1 := Call(1, key, Looking)], map[], {}, map[])
    ensures IsRun(run, w) && run[|run| - 1] == LoneCall(key, refs, Partial, Cloning)
  {
    assert before != [];
    hide IsRun, IsCommitId, Due, Resolve;
    var s3 := Go(before[|before| - 1], 1, Absent);
    Extend(before, s3, Look(1), w);
    var s4 := LoneCall(key, refs, Partial, Cloning);
    assert s4.calls == s3.calls[1 := Call(1, key, Cloning)] && s4.fs == s3.fs[Staging(1) := Partial];
    Extend(before + [s3], s4, Stage(1), w);
    run := before + [s3] + [s4];
  }

  /** The state of a lone call whose clone has these contents. */
  function LoneCall(key: Key, refs: Refs, content: Content, phase: Phase): State {
    State(0, map[key.url := refs], map[Staging(1) := content], map[1 := Call(1, key, phase)], map[], {}, map[])
  }

  lemma CloneOfShadowedId(before: seq<State>, key: Key, refs: Refs, other: Oid, w: World) returns (run: seq<State>)
    requires IsRun(before, w) && refs == map[Branch(key.rev) := CommitObject(other)]
    requires before[|before| - 1] == LoneCall(key, refs, Partial, Cloning)
    ensures IsRun(run, w)
    ensures run[|run| - 1].fs == map[Entry(key) := Whole(Repo(refs, Some(other)))]
  {
    assert before != [];
    hide IsRun, IsCommitId, Due;
    var s5 := LoneCall(key, refs, Whole(Repo(refs, None)), Cloned);
    assert s5.fs == before[|before| - 1].fs[Staging(1) := Whole(Repo(refs, None))];
    assert s5.calls == before[|before| - 1].calls[1 := Call(1, key, Cloned)];
    Extend(before, s5, Clone(1, None), w);
    var s6 := Go(s5, 1, Resolved(other));
    assert Resolve(Repo(refs, None), key.rev, w) == Some(other);
    Extend(before + [s5], s6, ResolveRev(1), w);
    assert s6.calls == LoneCall(key, refs, Whole(Repo(refs, None)), Resolved(other)).calls;
    run := PlaceShadowedId(before + [s5] + [s6], key, refs, other, w);
  }

  lemma PlaceShadowedId(before: seq<State>, key: Key, refs: Refs, other: Oid, w: World) returns (run: seq<State>)
    requires IsRun(before, w)
    requires before[|before| - 1] == LoneCall(key, refs, Whole(Repo(refs, None)), Resolved(other))
    ensures IsRun(run, w)
    ensures run[|run| - 1].fs == map[Entry(key) := Whole(Repo(refs, Some(other)))]
  {
    assert before != [];
    hide IsRun, IsCommitId, Due, Resolve;
    var s6 := before[|before| - 1];
    var s7 := Put(Go(s6, 1, HeadSet), Staging(1), Whole(Repo(refs, Some(other))));
    Extend(before, s7, SetHead(1), w);
    run := RenameLoneCall(before + [s7], key, Repo(refs, Some(other)), w);
  }

  lemma RenameLoneCall(before: seq<State>, key: Key, repo: Repo, w: World) returns (run: seq<State>)
    requires IsRun(before, w)
    requires var s := before[|before| - 1];
             In(s, 1, HeadSet) && s.calls[1].key == key && s.fs == map[Staging(1) := Whole(repo)]
    ensures IsRun(run, w) && run[|run| - 1].fs == map[Entry(key) := Whole(repo)]
  {
    assert before != [];
    hide IsRun, IsCommitId, Due, Resolve;
    var s7 := before[|before| - 1];
    var s8 := Go(s7, 1, InPlace).(fs := (s7.fs - {Staging(1)})[Entry(key) := s7.fs[Staging(1)]],
                                  makers := s7.makers[key := 1]);
    Extend(before, s8, Rename(1), w);
    run := before + [s8];
    assert s8.fs == map[Entry(key) := Whole(repo)];
  }

  // ---------------------------------------------------------------- refreshes

  /** The call starts to refresh its entry in going from `s` to `s'`. */
  predicate StartsRefresh(s: State, s': State, c: nat) { In(s, c, Found) && In(s', c, Fetching) }

  predicate RecordedSince(s: State, owner: nat, key: Key, at: int) {
    key in Record(s, owner) && at <= Record(s, owner)[key] <= s.now
  }

  lemma RecordOverOneStep(s: State, s': State, step: Step, w: World, owner: nat, key: Key, at: int)
    requires Next(s, s', step, w) && RecordedSince(s, owner, key, at)
    ensures RecordedSince(s', owner, key, at)
  {
    hide IsCommitId, Due, Resolve;
    if IsCallStep(step) && !step.Decide? && !step.Mark? { CallStepKeepsRecord(s, s', step, w); hide Next; }
  }

  lemma CallStepKeepsRecord(s: State, s': State, step: Step, w: World)
    requires IsCallStep(step) && !step.Decide? && !step.Mark? && Next(s, s', step, w)
    ensures s'.refreshed == s.refreshed && s'.now == s.now
  {
    hide IsCommitId, Due, Resolve;
    if !WritesFiles(step) { OtherStepsGo(s, s', step, w); hide Next; }
  }

  lemma StartIsDecided(s: State, s': State, step: Step, w: World, c: nat)
    requires Next(s, s', step, w) && StartsRefresh(s, s', c)
    ensures step == Decide(c)
  {
    hide IsCommitId, Due, Resolve;
    if IsCallStep(step) { CallStepsAreLocal(s, s', step, w); }
  }

  lemma StartIsDue(s: State, s': State, step: Step, w: World, c: nat)
    requires Next(s, s', step, w) && StartsRefresh(s, s', c) && step == Decide(c)
    ensures s'.calls[c].owner == s.calls[c].owner && s'.calls[c].key == s.calls[c].key && s'.now == s.now
    ensures Due(Record(s, s.calls[c].owner), s.calls[c].key, s.now, w.refreshAfter)
    ensures RecordedSince(s', s.calls[c].owner, s.calls[c].key, s.now)
  {
    hide IsCommitId, Due, Resolve;
  }

  lemma {:induction false} RecordStays(run: seq<State>, w: World, i: nat, j: nat, owner: nat, key: Key, at: int)
    requires IsRun(run, w) && i <= j < |run| && RecordedSince(run[i], owner, key, at)
    ensures RecordedSince(run[j], owner, key, at)
  {
    hide Next, RecordedSince, IsRun;
    if i < j {
      RecordStays(run, w, i, j - 1, owner, key, at);
      var step := StepAt(run, w, j);
      RecordOverOneStep(run[j - 1], run[j], step, w, owner, key, at);
    }
  }

  /** In one process, refreshes of one entry start at least `refreshAfter` apart. */
  lemma RefreshesAreApart(run: seq<State>, w: World, i: nat, j: nat, c: nat, d: nat)
    requires IsRun(run, w) && 0 < i < j < |run|
    requires StartsRefresh(run[i - 1], run[i], c) && StartsRefresh(run[j - 1], run[j], d)
    requires run[i].calls[c].owner == run[j].calls[d].owner && run[i].calls[c].key == run[j].calls[d].key
    ensures run[j].now - run[i].now >= w.refreshAfter
  {
    hide Next;
    var first := StepAt(run, w, i);
    var second := StepAt(run, w, j);
    StartIsDecided(run[i - 1], run[i], first, w, c);
    StartIsDue(run[i - 1], run[i], first, w, c);
    RecordStays(run, w, i, j - 1, run[i].calls[c].owner, run[i].calls[c].key, run[i].now);
    StartIsDecided(run[j - 1], run[j], second, w, d);
    StartIsDue(run[j - 1], run[j], second, w, d);
  }

  /** The call's clone, or one that was there before it, is in place: it records the entry as fresh. */
  predicate RecordsClone(s: State, s': State, c: nat) { In(s, c, InPlace) && In(s', c, Returned(true)) }

  lemma CloneIsRecorded(s: State, s': State, step: Step, w: World, c: nat)
    requires Next(s, s', step, w) && RecordsClone(s, s', c)
    ensures s'.calls[c].owner == s.calls[c].owner && s'.calls[c].key == s.calls[c].key
    ensures RecordedSince(s', s.calls[c].owner, s.calls[c].key, s'.now)
  {
    hide IsCommitId, Due, Resolve;
    if IsCallStep(step) { CallStepsAreLocal(s, s', step, w); }
    assert step == Mark(c);
  }

  /** Nor does a process refresh an entry it has just cloned. */
  lemma RefreshWaitsAfterClone(run: seq<State>, w: World, i: nat, j: nat, c: nat, d: nat)
    requires IsRun(run, w) && 0 < i < j < |run|
    requires RecordsClone(run[i - 1], run[i], c) && StartsRefresh(run[j - 1], run[j], d)
    requires run[i].calls[c].owner == run[j].calls[d].owner && run[i].calls[c].key == run[j].calls[d].key
    ensures run[j].now - run[i].now >= w.refreshAfter
  {
    hide Next;
    var first := StepAt(run, w, i);
    var second := StepAt(run, w, j);
    CloneIsRecorded(run[i - 1], run[i], first, w, c);
    RecordStays(run, w, i, j - 1, run[i].calls[c].owner, run[i].calls[c].key, run[i].now);
    StartIsDecided(run[j - 1], run[j], second, w, d);
    StartIsDue(run[j - 1], run[j], second, w, d);
  }
}
