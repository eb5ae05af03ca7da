/**
  Mission mutations and lock-free listings running side by side on one store file.

  A mutation holds the write lock from before its first load to after its last save. A save
  writes a temporary file under a fixed name and renames it into place. A listing reads
  without the lock, and takes it only when what it read has to be reconciled.
 */
module MissionRuns {
  import opened Options
  import opened Missions

  /** A file whose text does not parse reads as an empty store, like one that cannot be read. */
  datatype Content = Whole(store: Store) | Torn

  datatype Temp = Absent | Partial | Complete(store: Store)

  /** A mutation of one save, the deletion of a mission save by save, or a listing. */
  datatype Job = Change(edit: Edit) | Delete(missionId: string) | List

  /** One save: the edit, what its load gave, and the version it made. */
  datatype Commit = Commit(edit: Edit, candidate: Candidate, readOk: bool, base: Store, result: Store)

  datatype Phase =
    | Reading
    | Wanting
    | Planning
    | Loading(edits: seq<Edit>)
    | Saving(edits: seq<Edit>, commit: Commit)
    | Writing(edits: seq<Edit>, commit: Commit)
    | Renaming(edits: seq<Edit>, commit: Commit)
    | Succeeded(at: nat)
    | Failed
    | Listed(store: Store, readOk: bool, version: nat)

  datatype Thread = Thread(job: Job, phase: Phase)

  datatype State = State(
    registered: set<string>, file: Content, temp: Temp, holder: Option<nat>, threads: map<nat, Thread>,
    initial: Store, log: seq<Commit>)

  datatype Step =
    | Start(t: nat, job: Job)
    | Acquire(t: nat)
    | Read(t: nat, readOk: bool)
    | Plan(t: nat, readOk: bool)
    | Load(t: nat, readOk: bool, proceeds: bool, candidate: Candidate)
    | BeginWrite(t: nat, ok: bool)
    | EndWrite(t: nat, ok: bool)
    | Rename(t: nat, ok: bool)

  function Loaded(file: Content, readOk: bool): Store {
    if readOk && file.Whole? then file.store else []
  }

  /** Version 0 is the store the run starts with, version `i` what commit `i - 1` saved. */
  function Version(initial: Store, log: seq<Commit>, i: nat): Store
    requires i <= |log|
  {
    if i == 0 then initial else log[i - 1].result
  }

  function Current(s: State): Store {
    Version(s.initial, s.log, |s.log|)
  }

  function Moved(s: State, t: nat, phase: Phase): State
    requires t in s.threads
  {
    s.(threads := s.threads[t := s.threads[t].(phase := phase)])
  }

  /** The end of a critical section. */
  function Released(s: State, t: nat, phase: Phase): State
    requires t in s.threads
  {
    Moved(s, t, phase).(holder := None)
  }

  /** The edits a delete goes through after its first load. */
  function DeletePlan(mission: Mission): seq<Edit> {
    seq(|mission.projects|, i requires 0 <= i < |mission.projects| =>
      RemoveProject(mission.id, mission.projects[i].projectId))
    + [DropMission(mission.id)]
  }

  /** A failed save ends the job; a listing shows what it reconciled all the same. */
  function SaveFailed(s: State, t: nat, commit: Commit): State
    requires t in s.threads
  {
    Released(s, t, if s.threads[t].job.List? then Listed(commit.result, commit.readOk, |s.log|) else Failed)
  }

  function Saved(s: State, t: nat, edits: seq<Edit>, commit: Commit): State
    requires t in s.threads && edits != []
  {
    var after := s.(
      file := if s.temp.Complete? then Whole(s.temp.store) else Torn, temp := Absent, log := s.log + [commit]);
    if s.threads[t].job.List? then Released(after, t, Listed(commit.result, commit.readOk, |s.log|))
    else if |edits| == 1 then Released(after, t, Succeeded(|s.log|))
    else Moved(after, t, Loading(edits[1..]))
  }

  function AfterRead(s: State, t: nat, readOk: bool): State
    requires t in s.threads
  {
    var copy := Loaded(s.file, readOk);
    Moved(s, t, if Reconciled(copy, s.registered) == copy then Listed(copy, readOk, |s.log|) else Wanting)
  }

  function AfterPlan(s: State, t: nat, readOk: bool): State
    requires t in s.threads && s.threads[t].job.Delete?
  {
    var copy := Loaded(s.file, readOk);
    var i := Find(copy, s.threads[t].job.missionId);
    if i == |copy| then Released(s, t, Failed) else Moved(s, t, Loading(DeletePlan(copy[i])))
  }

  /** `proceeds` is false when the work outside the store (directories, git) fails first. */
  function AfterLoad(s: State, t: nat, edits: seq<Edit>, readOk: bool, proceeds: bool, candidate: Candidate): State
    requires t in s.threads && edits != []
  {
    var copy := Loaded(s.file, readOk);
    var after := Edited(edits[0], copy, s.registered, candidate);
    if after == Err(IdTaken) then s
    else if after.Err? || (!proceeds && !s.threads[t].job.List?) then Released(s, t, Failed)
    else if s.threads[t].job.List? && after.value == copy then Released(s, t, Listed(copy, readOk, |s.log|))
    else Moved(s, t, Saving(edits, Commit(edits[0], candidate, readOk, copy, after.value)))
  }

  function AfterStart(s: State, t: nat, job: Job): State {
    s.(threads := s.threads[t := Thread(job, if job.List? then Reading else Wanting)])
  }

  function AfterAcquire(s: State, t: nat): State
    requires t in s.threads
  {
    Moved(s, t,
          match s.threads[t].job
          case Change(edit) => Loading([edit])
          case Delete(_) => Planning
          case List => Loading([Reconcile])).(holder := Some(t))
  }

  /** A step that does not fit the thread's phase changes nothing. */
  function Next(s: State, step: Step): State {
    match step
    case Start(t, job) => if t in s.threads then s else AfterStart(s, t, job)
    case Acquire(t) => if t in s.threads && s.threads[t].phase.Wanting? && s.holder.None? then AfterAcquire(s, t) else s
    case Read(t, readOk) => if t in s.threads && s.threads[t].phase.Reading? then AfterRead(s, t, readOk) else s
    case Plan(t, readOk) =>
      if t in s.threads && s.threads[t].phase.Planning? && s.threads[t].job.Delete? then AfterPlan(s, t, readOk) else s
    case Load(t, readOk, proceeds, candidate) =>
      if t in s.threads && s.threads[t].phase.Loading? && s.threads[t].phase.edits != [] then
        AfterLoad(s, t, s.threads[t].phase.edits, readOk, proceeds, candidate)
      else s
    case BeginWrite(t, ok) =>
      if t in s.threads && s.threads[t].phase.Saving? then
        var p := s.threads[t].phase;
        if ok then Moved(s.(temp := Partial), t, Writing(p.edits, p.commit)) else SaveFailed(s, t, p.commit)
      else s
    case EndWrite(t, ok) =>
      if t in s.threads && s.threads[t].phase.Writing? then
        var p := s.threads[t].phase;
        if ok then Moved(s.(temp := Complete(p.commit.result)), t, Renaming(p.edits, p.commit))
        else SaveFailed(s, t, p.commit)
      else s
    case Rename(t, ok) =>
      if t in s.threads && s.threads[t].phase.Renaming? && s.threads[t].phase.edits != [] then
        var p := s.threads[t].phase;
        if ok then Saved(s, t, p.edits, p.commit) else SaveFailed(s.(temp := Absent), t, p.commit)
      else s
  }

  function Run(s: State, steps: seq<Step>): State
    decreases |steps|
  {
    if steps == [] then s else Run(Next(s, steps[0]), steps[1..])
  }

  function Initial(store: Store, registered: set<string>): State {
    State(registered, Whole(store), Absent, None, map[], store, [])
  }

  // --- the invariant -------------------------------------------------------------------

  /** The commit edits the version before it, or an empty store when its read failed. */
  ghost predicate CommitOn(c: Commit, version: Store, registered: set<string>) {
    && c.base == (if c.readOk then version else [])
    && Edited(c.edit, c.base, registered, c.candidate) == Ok(c.result)
  }

  /** No commit overwrites another one's work: each is an edit of its predecessor. */
  ghost predicate Serial(initial: Store, log: seq<Commit>, registered: set<string>) {
    forall i :: 0 <= i < |log| ==> CommitOn(log[i], Version(initial, log, i), registered)
  }

  function LastEdit(job: Job): Edit {
    match job
    case Change(edit) => edit
    case Delete(id) => DropMission(id)
    case List => Reconcile
  }

  ghost predicate EditsFor(edits: seq<Edit>, job: Job) {
    edits != [] && edits[|edits| - 1] == LastEdit(job) && (!job.Delete? ==> |edits| == 1)
  }

  ghost predicate Ready(s: State, thread: Thread, commit: Commit, edits: seq<Edit>) {
    EditsFor(edits, thread.job) && commit.edit == edits[0] && CommitOn(commit, Current(s), s.registered)
  }

  ghost predicate InCriticalSection(phase: Phase) {
    phase.Planning? || phase.Loading? || phase.Saving? || phase.Writing? || phase.Renaming?
  }

  /** A listing shows a committed version, reconciled; nothing at all when its read failed. */
  ghost predicate ShowsAVersion(s: State, store: Store, readOk: bool, version: nat) {
    && version <= |s.log|
    && store == Reconciled(if readOk then Version(s.initial, s.log, version) else [], s.registered)
  }

  ghost predicate PhaseOk(s: State, thread: Thread) {
    match thread.phase
    case Loading(edits) => EditsFor(edits, thread.job)
    case Saving(edits, commit) => Ready(s, thread, commit, edits)
    case Writing(edits, commit) => Ready(s, thread, commit, edits)
    case Renaming(edits, commit) => Ready(s, thread, commit, edits) && s.temp == Complete(commit.result)
    case Reading => thread.job.List?
    case Planning => thread.job.Delete?
    case Succeeded(at) => at < |s.log| && s.log[at].edit == LastEdit(thread.job) && !thread.job.List?
    case Listed(store, readOk, version) => thread.job.List? && ShowsAVersion(s, store, readOk, version)
    case _ => true
  }

  ghost predicate ThreadOk(s: State, t: nat) {
    t in s.threads ==>
      && (InCriticalSection(s.threads[t].phase) ==> s.holder == Some(t))
      && PhaseOk(s, s.threads[t])
  }

  ghost predicate FileOk(s: State) {
    s.file == Whole(Current(s)) && Serial(s.initial, s.log, s.registered)
  }

  ghost predicate Inv(s: State) {
    FileOk(s) && forall t: nat :: ThreadOk(s, t)
  }

  // --- one step ------------------------------------------------------------------------

  /** Steps that save nothing touch one thread, and the lock and temporary file only as its holder. */
  lemma QuietStep(s: State, after: State, t: nat)
    requires Inv(s) && ThreadOk(after, t)
    requires after.registered == s.registered && after.initial == s.initial && after.log == s.log
    requires after.file == s.file
    requires forall u :: u != t ==> (u in after.threads <==> u in s.threads)
    requires forall u :: u != t && u in s.threads ==> after.threads[u] == s.threads[u]
    requires after.holder == s.holder || s.holder == Some(t) || s.holder.None?
    requires after.temp == s.temp || s.holder == Some(t)
    ensures Inv(after)
  {
    hide Serial, CommitOn, EditsFor, Reconciled;
    forall u: nat
      ensures ThreadOk(after, u)
    {
      assert ThreadOk(s, u);
    }
  }

  lemma StartKeepsInv(s: State, t: nat, job: Job)
    requires Inv(s) && t !in s.threads
    ensures Inv(AfterStart(s, t, job))
  {
    QuietStep(s, AfterStart(s, t, job), t);
  }

  lemma AcquireKeepsInv(s: State, t: nat)
    requires Inv(s) && t in s.threads && s.threads[t].phase.Wanting? && s.holder.None?
    ensures Inv(AfterAcquire(s, t))
  {
    QuietStep(s, AfterAcquire(s, t), t);
  }

  lemma ReadKeepsInv(s: State, t: nat, readOk: bool)
    requires Inv(s) && t in s.threads && s.threads[t].phase.Reading?
    ensures Inv(AfterRead(s, t, readOk))
  {
    hide Serial, Reconciled;
    assert ThreadOk(s, t);
    QuietStep(s, AfterRead(s, t, readOk), t);
  }

  lemma PlanKeepsInv(s: State, t: nat, readOk: bool)
    requires Inv(s) && t in s.threads && s.threads[t].phase.Planning? && s.threads[t].job.Delete?
    ensures Inv(AfterPlan(s, t, readOk))
  {
    assert ThreadOk(s, t);
    QuietStep(s, AfterPlan(s, t, readOk), t);
  }

  lemma ReconcileCommit(c: Commit, version: Store, registered: set<string>)
    requires CommitOn(c, version, registered) && c.edit.Reconcile?
    ensures c.result == Reconciled(if c.readOk then version else [], registered)
  {
    hide Reconciled;
  }

  lemma LoadedThreadOk(s: State, t: nat, readOk: bool, proceeds: bool, candidate: Candidate)
    requires FileOk(s) && ThreadOk(s, t) && t in s.threads && s.threads[t].phase.Loading?
    ensures s.threads[t].phase.edits != []
    ensures ThreadOk(AfterLoad(s, t, s.threads[t].phase.edits, readOk, proceeds, candidate), t)
  {
    hide Serial, Reconciled, Edited;
    var edits, copy := s.threads[t].phase.edits, Loaded(s.file, readOk);
    if edits[0].Reconcile? {
      ReconcilingIsItsEdit(copy, s.registered, candidate);
    }
  }

  lemma ReconcilingIsItsEdit(copy: Store, registered: set<string>, candidate: Candidate)
    ensures Edited(Reconcile, copy, registered, candidate) == Ok(Reconciled(copy, registered))
  {
  }

  lemma LoadKeepsInv(s: State, t: nat, readOk: bool, proceeds: bool, candidate: Candidate)
    requires Inv(s) && t in s.threads && s.threads[t].phase.Loading?
    requires s.threads[t].phase.edits != []
    ensures Inv(AfterLoad(s, t, s.threads[t].phase.edits, readOk, proceeds, candidate))
  {
    hide Edited, PhaseOk, Serial;
    assert ThreadOk(s, t);
    LoadedThreadOk(s, t, readOk, proceeds, candidate);
    var after := AfterLoad(s, t, s.threads[t].phase.edits, readOk, proceeds, candidate);
    if after != s {
      QuietStep(s, after, t);
    }
  }

  lemma SaveFailedThreadOk(s: State, t: nat)
    requires ThreadOk(s, t) && t in s.threads
    requires s.threads[t].phase.Saving? || s.threads[t].phase.Writing? || s.threads[t].phase.Renaming?
    ensures s.holder == Some(t)
    ensures var after := SaveFailed(s, t, s.threads[t].phase.commit);
            PhaseOk(after, after.threads[t])
  {
    hide Reconciled, CommitOn;
    var commit := s.threads[t].phase.commit;
    if s.threads[t].job.List? {
      ReconcileCommit(commit, Current(s), s.registered);
    }
  }

  lemma SaveFailedKeepsInv(s: State, mid: State, t: nat)
    requires Inv(s) && t in s.threads
    requires s.threads[t].phase.Saving? || s.threads[t].phase.Writing? || s.threads[t].phase.Renaming?
    requires mid == s.(temp := mid.temp)
    ensures Inv(SaveFailed(mid, t, s.threads[t].phase.commit))
  {
    assert ThreadOk(s, t);
    SaveFailedThreadOk(s, t);
    hide Serial, Reconciled, CommitOn, EditsFor;
    QuietStep(s, SaveFailed(mid, t, s.threads[t].phase.commit), t);
  }

  lemma WriteKeepsInv(s: State, after: State, t: nat)
    requires Inv(s) && t in s.threads
    requires
      || (s.threads[t].phase.Saving?
          && after == Moved(s.(temp := Partial), t, Writing(s.threads[t].phase.edits, s.threads[t].phase.commit)))
      || (s.threads[t].phase.Writing?
          && after == Moved(s.(temp := Complete(s.threads[t].phase.commit.result)), t,
                            Renaming(s.threads[t].phase.edits, s.threads[t].phase.commit)))
    ensures Inv(after)
  {
    assert ThreadOk(s, t);
    assert ThreadOk(after, t) by {
      hide Serial, CommitOn, EditsFor;
    }
    QuietStep(s, after, t);
  }

  lemma SerialSnoc(initial: Store, log: seq<Commit>, registered: set<string>, c: Commit)
    requires Serial(initial, log, registered) && CommitOn(c, Version(initial, log, |log|), registered)
    ensures Serial(initial, log + [c], registered)
  {
    hide CommitOn, Edited, Reconciled;
    var longer := log + [c];
    forall i | 0 <= i < |longer|
      ensures CommitOn(longer[i], Version(initial, longer, i), registered)
    {
      assert longer[i] == if i < |log| then log[i] else c;
      assert i > 0 ==> longer[i - 1] == log[i - 1];
    }
  }

  lemma RenameKeepsFile(s: State, t: nat)
    requires Inv(s) && t in s.threads && s.threads[t].phase.Renaming? && s.threads[t].phase.edits != []
    ensures FileOk(Saved(s, t, s.threads[t].phase.edits, s.threads[t].phase.commit))
  {
    hide Serial, CommitOn, EditsFor, Reconciled;
    assert ThreadOk(s, t);
    SerialSnoc(s.initial, s.log, s.registered, s.threads[t].phase.commit);
  }

  lemma RenameKeepsOwnThread(s: State, t: nat)
    requires ThreadOk(s, t) && t in s.threads && s.threads[t].phase.Renaming? && s.threads[t].phase.edits != []
    ensures ThreadOk(Saved(s, t, s.threads[t].phase.edits, s.threads[t].phase.commit), t)
  {
    hide Reconciled, CommitOn;
    var edits, commit := s.threads[t].phase.edits, s.threads[t].phase.commit;
    if s.threads[t].job.List? {
      ReconcileCommit(commit, Current(s), s.registered);
      assert Version(s.initial, s.log + [commit], |s.log|) == Version(s.initial, s.log, |s.log|);
    } else if |edits| > 1 {
      assert edits[1..][|edits| - 2] == edits[|edits| - 1];
    }
  }

  lemma RenameKeepsOtherThreads(s: State, t: nat, u: nat)
    requires ThreadOk(s, t) && t in s.threads && s.threads[t].phase.Renaming? && s.threads[t].phase.edits != []
    requires ThreadOk(s, u) && u != t
    ensures ThreadOk(Saved(s, t, s.threads[t].phase.edits, s.threads[t].phase.commit), u)
  {
    hide CommitOn, EditsFor, Reconciled;
    assert s.holder == Some(t);
    if u in s.threads && s.threads[u].phase.Listed? {
      var p, c := s.threads[u].phase, s.threads[t].phase.commit;
      assert Version(s.initial, s.log + [c], p.version) == Version(s.initial, s.log, p.version);
    }
  }

  lemma RenameKeepsInv(s: State, t: nat)
    requires Inv(s) && t in s.threads && s.threads[t].phase.Renaming? && s.threads[t].phase.edits != []
    ensures Inv(Saved(s, t, s.threads[t].phase.edits, s.threads[t].phase.commit))
  {
    hide PhaseOk, Serial, Saved;
    RenameKeepsFile(s, t);
    assert ThreadOk(s, t);
    RenameKeepsOwnThread(s, t);
    forall u: nat
      ensures ThreadOk(Saved(s, t, s.threads[t].phase.edits, s.threads[t].phase.commit), u)
    {
      if u != t {
        assert ThreadOk(s, t) && ThreadOk(s, u);
        RenameKeepsOtherThreads(s, t, u);
      }
    }
    hide FileOk, ThreadOk, Saved;
  }

  lemma StepKeepsInv(s: State, step: Step)
    requires Inv(s)
    ensures Inv(Next(s, step))
  {
    hide Inv, AfterRead, AfterPlan, AfterLoad, AfterStart, AfterAcquire, Saved, SaveFailed, Moved;
    match step
    case Start(t, job) =>
      if t !in s.threads {
        StartKeepsInv(s, t, job);
      }
    case Acquire(t) =>
      if t in s.threads && s.threads[t].phase.Wanting? && s.holder.None? {
        AcquireKeepsInv(s, t);
      }
    case Read(t, readOk) =>
      if t in s.threads && s.threads[t].phase.Reading? {
        ReadKeepsInv(s, t, readOk);
      }
    case Plan(t, readOk) =>
      if t in s.threads && s.threads[t].phase.Planning? && s.threads[t].job.Delete? {
        PlanKeepsInv(s, t, readOk);
      }
    case Load(t, readOk, proceeds, candidate) =>
      if t in s.threads && s.threads[t].phase.Loading? && s.threads[t].phase.edits != [] {
        LoadKeepsInv(s, t, readOk, proceeds, candidate);
      }
    case BeginWrite(t, ok) =>
      if t in s.threads && s.threads[t].phase.Saving? {
        if ok {
          WriteKeepsInv(s, Next(s, step), t);
        } else {
          SaveFailedKeepsInv(s, s, t);
        }
      }
    case EndWrite(t, ok) =>
      if t in s.threads && s.threads[t].phase.Writing? {
        if ok {
          WriteKeepsInv(s, Next(s, step), t);
        } else {
          SaveFailedKeepsInv(s, s, t);
        }
      }
    case Rename(t, ok) =>
      if t in s.threads && s.threads[t].phase.Renaming? && s.threads[t].phase.edits != [] {
        if ok {
          RenameKeepsInv(s, t);
        } else {
          SaveFailedKeepsInv(s, s.(temp := Absent), t);
        }
      }
  }

  // --- runs ----------------------------------------------------------------------------

  lemma StepKeepsParameters(s: State, step: Step)
    ensures Next(s, step).initial == s.initial && Next(s, step).registered == s.registered
  {
    hide Edited, Reconciled, Find, DeletePlan;
  }

  lemma {:induction false} RunKeepsInv(s: State, steps: seq<Step>)
    requires Inv(s)
    ensures Inv(Run(s, steps)) && Run(s, steps).initial == s.initial && Run(s, steps).registered == s.registered
    decreases |steps|
  {
    hide Inv, Next;
    if steps == [] {
    } else {
      StepKeepsInv(s, steps[0]);
      StepKeepsParameters(s, steps[0]);
      RunKeepsInv(Next(s, steps[0]), steps[1..]);
    }
  }

  lemma ReachableInv(store: Store, registered: set<string>, steps: seq<Step>)
    ensures var end := Run(Initial(store, registered), steps);
            Inv(end) && end.initial == store && end.registered == registered
  {
    RunKeepsInv(Initial(store, registered), steps);
  }

  /** No two threads are between the load and the save of a mutation. */
  lemma OneWriterAtATime(store: Store, registered: set<string>, steps: seq<Step>, t: nat, u: nat)
    ensures var threads := Run(Initial(store, registered), steps).threads;
            t in threads && InCriticalSection(threads[t].phase) && u in threads && InCriticalSection(threads[u].phase)
            ==> t == u
  {
    ReachableInv(store, registered, steps);
    var end := Run(Initial(store, registered), steps);
    assert ThreadOk(end, t) && ThreadOk(end, u);
    hide PhaseOk, FileOk;
  }

  /** Whoever holds the lock is between its load and its save. */
  ghost predicate HolderInside(s: State) {
    s.holder.Some? ==> s.holder.value in s.threads && InCriticalSection(s.threads[s.holder.value].phase)
  }

  lemma StepKeepsHolderInside(s: State, step: Step)
    requires HolderInside(s) && forall t: nat :: ThreadOk(s, t)
    ensures HolderInside(Next(s, step))
  {
    assert ThreadOk(s, step.t);
    hide PhaseOk, Edited, Reconciled, Find, DeletePlan;
  }

  lemma {:induction false} RunKeepsHolderInside(s: State, steps: seq<Step>)
    requires Inv(s) && HolderInside(s)
    ensures HolderInside(Run(s, steps))
    decreases |steps|
  {
    hide HolderInside, Next, FileOk, ThreadOk;
    if steps == [] {
    } else {
      StepKeepsHolderInside(s, steps[0]);
      StepKeepsInv(s, steps[0]);
      RunKeepsHolderInside(Next(s, steps[0]), steps[1..]);
    }
  }

  /** The lock is never leaked: its holder is inside, and can always let go with its next step. */
  lemma LockIsNeverLeaked(store: Store, registered: set<string>, steps: seq<Step>)
    ensures var end := Run(Initial(store, registered), steps);
            && HolderInside(end)
            && (end.holder.Some? ==> exists step: Step :: Next(end, step).holder.None?)
  {
    assert Inv(Initial(store, registered)) && HolderInside(Initial(store, registered));
    RunKeepsHolderInside(Initial(store, registered), steps);
    ReachableInv(store, registered, steps);
    var end := Run(Initial(store, registered), steps);
    if end.holder.Some? {
      assert ThreadOk(end, end.holder.value);
      hide Run, Next, PhaseOk, Inv;
      var step := LettingGo(end, end.holder.value);
    }
  }

  /** A load that cannot read changes nothing that would be saved, and lets go. */
  lemma FailingLoadLetsGo(s: State, t: nat, edits: seq<Edit>)
    requires t in s.threads && EditsFor(edits, s.threads[t].job)
    ensures AfterLoad(s, t, edits, false, false, NO_CANDIDATE).holder.None?
  {
    assert Reconciled([], s.registered) == [];
  }

  lemma LettingGo(s: State, t: nat) returns (step: Step)
    requires t in s.threads && InCriticalSection(s.threads[t].phase) && PhaseOk(s, s.threads[t])
    ensures Next(s, step).holder.None?
  {
    hide AfterLoad, CommitOn, Reconciled, AfterRead, AfterAcquire, AfterStart, Saved;
    match s.threads[t].phase
    case Planning =>
      step := Plan(t, false);
    case Loading(edits) =>
      step := Load(t, false, false, NO_CANDIDATE);
      FailingLoadLetsGo(s, t, edits);
    case Saving(_, _) =>
      step := BeginWrite(t, false);
    case Writing(_, _) =>
      step := EndWrite(t, false);
    case Renaming(_, _) =>
      step := Rename(t, false);
  }

  /** The file is never torn, and every commit edits the version right before it: no update is lost. */
  lemma CommitsAreSerial(store: Store, registered: set<string>, steps: seq<Step>)
    ensures var end := Run(Initial(store, registered), steps);
            && end.file == Whole(Version(store, end.log, |end.log|))
            && Serial(store, end.log, registered)
  {
    ReachableInv(store, registered, steps);
    hide Serial, ThreadOk;
  }

  /** A mutation that returned success is in the log, with the edit it was asked for last. */
  lemma SuccessMeansCommitted(store: Store, registered: set<string>, steps: seq<Step>, t: nat)
    ensures var end := Run(Initial(store, registered), steps);
            t in end.threads && end.threads[t].phase.Succeeded? ==>
              && end.threads[t].phase.at < |end.log|
              && end.log[end.threads[t].phase.at].edit == LastEdit(end.threads[t].job)
  {
    ReachableInv(store, registered, steps);
    var end := Run(Initial(store, registered), steps);
    assert ThreadOk(end, t);
    hide FileOk;
  }

  /** Every listing whose read worked shows one committed version, reconciled. */
  lemma ListingsShowAVersion(store: Store, registered: set<string>, steps: seq<Step>, t: nat)
    ensures var end := Run(Initial(store, registered), steps);
            t in end.threads && end.threads[t].phase.Listed? ==>
              var p := end.threads[t].phase;
              && p.version <= |end.log|
              && (p.readOk ==> p.store == Reconciled(Version(store, end.log, p.version), registered))
              && (!p.readOk ==> p.store == [])
  {
    ReachableInv(store, registered, steps);
    var end := Run(Initial(store, registered), steps);
    assert ThreadOk(end, t);
    hide FileOk;
  }

  /**
    The version is the one current at the very step that ends the listing: what was read
    without the lock is shown at once, and under the lock nobody else commits.
   */
  lemma ListingsAreCurrent(store: Store, registered: set<string>, steps: seq<Step>, step: Step, t: nat)
    requires var s := Run(Initial(store, registered), steps);
             t in s.threads && !s.threads[t].phase.Listed? && t in Next(s, step).threads
    ensures var s := Run(Initial(store, registered), steps);
            var phase := Next(s, step).threads[t].phase;
            phase.Listed? ==>
              phase.version == |s.log| && (phase.readOk ==> phase.store == Reconciled(Current(s), registered))
  {
    ReachableInv(store, registered, steps);
    hide *;
    EndingListingIsCurrent(Run(Initial(store, registered), steps), step, t);
  }

  lemma EndingListingIsCurrent(s: State, step: Step, t: nat)
    requires Inv(s) && t in s.threads && !s.threads[t].phase.Listed? && t in Next(s, step).threads
    ensures var phase := Next(s, step).threads[t].phase;
            phase.Listed? ==>
              phase.version == |s.log| && (phase.readOk ==> phase.store == Reconciled(Current(s), s.registered))
  {
    StepKeepsInv(s, step);
    EndingListingNamesTheCurrent(s, step, t);
    StepKeepsParameters(s, step);
    LogOnlyGrows(s, step);
    var next := Next(s, step);
    assert ThreadOk(next, t);
    hide Next, FileOk, Reconciled, Inv;
    if next.threads[t].phase.Listed? {
      ListedShowsCurrent(s, next, next.threads[t]);
    }
  }

  lemma ListedShowsCurrent(s: State, next: State, thread: Thread)
    requires PhaseOk(next, thread) && thread.phase.Listed? && thread.phase.version == |s.log| && s.log <= next.log
    requires next.initial == s.initial && next.registered == s.registered
    ensures thread.phase.readOk ==> thread.phase.store == Reconciled(Current(s), s.registered)
  {
    hide Reconciled;
    assert |s.log| > 0 ==> next.log[|s.log| - 1] == s.log[|s.log| - 1];
  }

  lemma EndingListingNamesTheCurrent(s: State, step: Step, t: nat)
    requires t in s.threads && !s.threads[t].phase.Listed? && t in Next(s, step).threads
    ensures var phase := Next(s, step).threads[t].phase;
            phase.Listed? ==> phase.version == |s.log|
  {
    hide Edited, Reconciled, Find, DeletePlan;
  }

  lemma LogOnlyGrows(s: State, step: Step)
    ensures s.log <= Next(s, step).log
  {
    hide Edited, Reconciled, Find, DeletePlan;
  }

  // --- how jobs go on ------------------------------------------------------------------

  /** What makes the step the end of the thread's job; a taken id is drawn again. */
  ghost predicate Fails(s: State, step: Step, thread: Thread) {
    match step
    case Plan(_, readOk) =>
      thread.phase.Planning? && thread.job.Delete?
      && !HasMission(if readOk then Current(s) else [], thread.job.missionId)
    case Load(_, readOk, proceeds, candidate) =>
      thread.phase.Loading? && thread.phase.edits != []
      && var edited := Edited(thread.phase.edits[0], if readOk then Current(s) else [], s.registered, candidate);
         if edited.Ok? then !proceeds else edited.error != IdTaken
    case BeginWrite(_, ok) => thread.phase.Saving? && !ok
    case EndWrite(_, ok) => thread.phase.Writing? && !ok
    case Rename(_, ok) => thread.phase.Renaming? && !ok
    case _ => false
  }

  lemma OtherThreadsStay(s: State, step: Step, t: nat)
    requires t in s.threads && step.t != t
    ensures t in Next(s, step).threads && Next(s, step).threads[t] == s.threads[t]
  {
    hide Edited, Reconciled, Find, Loaded;
  }

  lemma LoadFailsIff(s: State, t: nat, readOk: bool, proceeds: bool, candidate: Candidate)
    requires s.file == Whole(Current(s)) && t in s.threads && ThreadOk(s, t) && s.threads[t].phase.Loading?
    ensures s.threads[t].phase.edits != []
    ensures AfterLoad(s, t, s.threads[t].phase.edits, readOk, proceeds, candidate).threads[t].phase.Failed?
            <==> !s.threads[t].job.List? && Fails(s, Load(t, readOk, proceeds, candidate), s.threads[t])
  {
    hide Edited, Reconciled;
    if s.threads[t].job.List? {
      ReconcilingIsItsEdit(Loaded(s.file, readOk), s.registered, candidate);
    }
  }

  /**
    A job fails exactly when its mission is not there, its edit is refused for good, the work
    outside the store fails, or a save does. It then lets go of the lock, and nothing was saved.
    A listing never fails.
   */
  lemma FailsIff(s: State, step: Step, t: nat)
    requires Inv(s) && t in s.threads && !s.threads[t].phase.Failed?
    ensures t in Next(s, step).threads
    ensures Next(s, step).threads[t].phase.Failed?
            <==> step.t == t && !s.threads[t].job.List? && Fails(s, step, s.threads[t])
    ensures Next(s, step).threads[t].phase.Failed? ==>
              Next(s, step).holder == None && Next(s, step).file == s.file && Next(s, step).log == s.log
  {
    assert ThreadOk(s, t);
    assert s.file == Whole(Current(s));
    hide Inv, Edited, Reconciled, Find, HasMission, CommitOn, ShowsAVersion, Current;
    if step.t != t {
      OtherThreadsStay(s, step, t);
    } else if step.Load? && s.threads[t].phase.Loading? {
      LoadFailsIff(s, t, step.readOk, step.proceeds, step.candidate);
      hide Fails;
    } else if step.Plan? && s.threads[t].job.Delete? {
      MissionFoundIff(Loaded(s.file, step.readOk), s.threads[t].job.missionId);
    }
  }

  /** A listing begins without the lock, and answers without it when every project it read is registered. */
  lemma ListingsNeedNoLock(s: State, t: nat, readOk: bool)
    requires t !in s.threads
    ensures var after := Next(Next(s, Start(t, List)), Read(t, readOk));
            var copy := if readOk && s.file.Whole? then s.file.store else [];
            && after.(threads := s.threads) == s
            && after.threads.Keys == s.threads.Keys + {t}
            && after.threads[t].phase
               == if forall i, j :: 0 <= i < |copy| && 0 <= j < |copy[i].projects| ==>
                       copy[i].projects[j].projectId in s.registered
                  then Listed(copy, readOk, |s.log|) else Wanting
  {
    NothingToReconcileIff(Loaded(s.file, readOk), s.registered);
    hide Reconciled;
  }

  /** A deletion takes the projects out one save at a time, in their order, and the mission last. */
  lemma DeletionGoesProjectByProject(s: State, t: nat, readOk: bool, i: nat)
    requires Inv(s) && t in s.threads && s.threads[t].phase.Planning? && s.threads[t].job.Delete?
    requires var copy := if readOk then Current(s) else [];
             i < |copy| && copy[i].id == s.threads[t].job.missionId && Distinct(copy)
    ensures var mission := (if readOk then Current(s) else [])[i];
            var phase, n := Next(s, Plan(t, readOk)).threads[t].phase, |mission.projects|;
            && phase.Loading? && |phase.edits| == n + 1 && phase.edits[n] == DropMission(mission.id)
            && forall k :: 0 <= k < n ==> phase.edits[k] == RemoveProject(mission.id, mission.projects[k].projectId)
  {
    var copy := Loaded(s.file, readOk);
    assert copy == if readOk then Current(s) else [];
    assert Find(copy, copy[i].id) == i;
    hide Inv, Find, Distinct, Current;
  }

  /** The rename publishes the new version and leaves no temporary file; a failed one publishes nothing. */
  lemma RenamePublishes(s: State, t: nat)
    requires Inv(s) && t in s.threads && s.threads[t].phase.Renaming?
    ensures var after, phase := Next(s, Rename(t, true)), s.threads[t].phase;
            && after.file == Whole(phase.commit.result) && after.temp == Absent && after.log == s.log + [phase.commit]
            && (|phase.edits| > 1 ==> after.threads[t].phase == Loading(phase.edits[1..]) && after.holder == Some(t))
            && (|phase.edits| == 1 ==> after.holder == None)
            && (|phase.edits| == 1 && !s.threads[t].job.List? ==> after.threads[t].phase == Succeeded(|s.log|))
    ensures var after := Next(s, Rename(t, false));
            after.file == s.file && after.temp == Absent && after.log == s.log && after.holder == None
  {
    hide Reconciled, Serial, Edited;
    assert ThreadOk(s, t);
  }

  // --- what the versions keep ----------------------------------------------------------

  lemma SerialAt(initial: Store, log: seq<Commit>, registered: set<string>, i: nat)
    requires Serial(initial, log, registered) && i < |log|
    ensures CommitOn(log[i], Version(initial, log, i), registered)
    ensures Version(initial, log, i + 1) == log[i].result
  {
    hide CommitOn;
  }

  lemma CommitKeepsDistinct(c: Commit, version: Store, registered: set<string>)
    requires CommitOn(c, version, registered) && Distinct(version)
    ensures Distinct(c.result)
  {
    assert Distinct([]);
    EditKeepsDistinct(c.edit, c.base, registered, c.candidate);
    hide Distinct, Edited;
  }

  lemma {:induction false} VersionsAreDistinct(initial: Store, log: seq<Commit>, registered: set<string>, i: nat)
    requires Serial(initial, log, registered) && Distinct(initial) && i <= |log|
    ensures Distinct(Version(initial, log, i))
  {
    hide Serial, CommitOn, Distinct;
    if i == 0 {
    } else {
      VersionsAreDistinct(initial, log, registered, i - 1);
      SerialAt(initial, log, registered, i - 1);
      CommitKeepsDistinct(log[i - 1], Version(initial, log, i - 1), registered);
    }
  }

  /** Mission ids, and project ids within a mission, stay distinct in the file. */
  lemma IdsStayDistinct(store: Store, registered: set<string>, steps: seq<Step>)
    requires Distinct(store)
    ensures Run(Initial(store, registered), steps).file.Whole?
            && Distinct(Run(Initial(store, registered), steps).file.store)
  {
    var end := Run(Initial(store, registered), steps);
    CommitsAreSerial(store, registered, steps);
    VersionsAreDistinct(store, end.log, registered, |end.log|);
    hide Distinct, Serial;
  }

  lemma FromNothing(c: Commit, registered: set<string>, missionId: string, projectId: string)
    requires CommitOn(c, [], registered)
    ensures !Has(c.result, missionId, projectId)
  {
    hide Distinct;
  }

  /**
    A commit keeps a registered project it is not meant to take out exactly when its read
    worked: creating or deleting a mission after a failed read saves over everything.
   */
  lemma CommitKeepsIff(c: Commit, version: Store, registered: set<string>, missionId: string, projectId: string)
    requires CommitOn(c, version, registered) && Distinct(version)
    requires Has(version, missionId, projectId) && projectId in registered
    requires !TakesOut(c.edit, missionId, projectId)
    ensures Has(c.result, missionId, projectId) <==> c.readOk
  {
    if c.readOk {
      EditKeepsOthers(c.edit, version, registered, c.candidate, missionId, projectId);
    } else {
      FromNothing(c, registered, missionId, projectId);
    }
    hide Has, Edited, Distinct;
  }

  /** The steps of one mission created by thread 0, its load failing to read the store. */
  function CreateUnread(name: string, candidate: Candidate): seq<Step> {
    [Start(0, Change(Create(name, None))), Acquire(0), Load(0, false, true, candidate),
     BeginWrite(0, true), EndWrite(0, true), Rename(0, true)]
  }

  lemma CreatedUnread(store: Store, registered: set<string>, name: string, candidate: Candidate)
    requires !candidate.dirExists
    ensures Run(Initial(store, registered), CreateUnread(name, candidate)[..3]).threads
            == map[0 := Thread(
                     Change(Create(name, None)),
                     Saving([Create(name, None)],
                            Commit(Create(name, None), candidate, false, [],
                                   [Mission(candidate.id, name, None, [], false)])))]
    ensures Run(Initial(store, registered), CreateUnread(name, candidate)[..3]).holder == Some(0)
  {
    var steps, s0 := CreateUnread(name, candidate), Initial(store, registered);
    var s1 := Next(s0, steps[0]);
    var s2 := Next(s1, steps[1]);
    assert [] + [Mission(candidate.id, name, None, [], false)] == [Mission(candidate.id, name, None, [], false)];
    var s3 := Next(s2, steps[2]);
    RunInThree(s0, steps);
    hide Run, Next;
  }

  lemma RunInThree(s: State, steps: seq<Step>)
    requires |steps| >= 3
    ensures Run(s, steps[..3]) == Next(Next(Next(s, steps[0]), steps[1]), steps[2])
  {
    hide Next;
    var first := steps[..3];
    var t := Next(s, steps[0]);
    var u := Next(t, steps[1]);
    assert first[1..][0] == steps[1] && first[1..][1..] == [steps[2]];
    assert Run(u, [steps[2]]) == Run(Next(u, steps[2]), []);
  }

  lemma {:induction false} RunSplits(s: State, first: seq<Step>, second: seq<Step>)
    ensures Run(s, first + second) == Run(Run(s, first), second)
    decreases |first|
  {
    hide Next;
    if first == [] {
      assert first + second == second;
    } else {
      assert (first + second)[1..] == first[1..] + second;
      RunSplits(Next(s, first[0]), first[1..], second);
    }
  }

  /** A run, from any store, in which creating a mission after a failed read overwrites everything. */
  lemma FailedReadOverwrites(store: Store, registered: set<string>, name: string, candidate: Candidate)
    requires !candidate.dirExists
    ensures var end := Run(Initial(store, registered), CreateUnread(name, candidate));
            && end.file == Whole([Mission(candidate.id, name, None, [], false)])
            && 0 in end.threads && end.threads[0].phase.Succeeded?
  {
    var steps, s0 := CreateUnread(name, candidate), Initial(store, registered);
    CreatedUnread(store, registered, name, candidate);
    assert steps == steps[..3] + steps[3..];
    RunSplits(s0, steps[..3], steps[3..]);
    var s3 := Run(s0, steps[..3]);
    assert steps[3..][..3] == steps[3..];
    RunInThree(s3, steps[3..]);
    hide Run;
    var s4 := Next(s3, BeginWrite(0, true));
    var s5 := Next(s4, EndWrite(0, true));
    assert s5.threads[0].phase.Renaming?;
  }

  predicate Adds(edit: Edit, missionId: string, projectId: string) {
    edit.AddProject? && edit.missionId == missionId && edit.project.projectId == projectId
  }

  /** Between commit `i` and version `n` nothing was meant to take the project out. */
  ghost predicate NotTakenOut(log: seq<Commit>, i: nat, n: nat, missionId: string, projectId: string) {
    forall j :: i < j < n && j < |log| ==> !TakesOut(log[j].edit, missionId, projectId)
  }

  ghost predicate ReadsWork(log: seq<Commit>, i: nat, n: nat) {
    forall j :: i < j < n && j < |log| ==> log[j].readOk
  }

  lemma AddIsThere(c: Commit, version: Store, registered: set<string>)
    requires CommitOn(c, version, registered) && c.edit.AddProject?
    ensures Has(c.result, c.edit.missionId, c.edit.project.projectId) && c.edit.project.projectId in registered
  {
    AddPutsIn(c.edit, c.base, registered, c.candidate);
    hide *;
  }

  lemma {:induction false} AddedIsInVersion(
    initial: Store, log: seq<Commit>, registered: set<string>, i: nat, n: nat, missionId: string, projectId: string)
    requires Serial(initial, log, registered) && Distinct(initial)
    requires i < n <= |log| && Adds(log[i].edit, missionId, projectId)
    requires NotTakenOut(log, i, n, missionId, projectId) && ReadsWork(log, i, n)
    ensures projectId in registered && Has(Version(initial, log, n), missionId, projectId)
  {
    hide Serial, CommitOn, Distinct, Has, TakesOut;
    var c := log[n - 1];
    SerialAt(initial, log, registered, n - 1);
    if n == i + 1 {
      AddIsThere(c, Version(initial, log, i), registered);
    } else {
      AddedIsInVersion(initial, log, registered, i, n - 1, missionId, projectId);
      VersionsAreDistinct(initial, log, registered, n - 1);
      CommitKeepsIff(c, Version(initial, log, n - 1), registered, missionId, projectId);
    }
  }

  /**
    A project whose add returned success stays in the store file until it or its mission is
    removed, provided no later load of a saving mutation fails to read the store.
   */
  lemma AddedProjectStays(
    store: Store, registered: set<string>, steps: seq<Step>, t: nat, missionId: string, project: Project)
    requires Distinct(store)
    requires var end := Run(Initial(store, registered), steps);
             && t in end.threads && end.threads[t].job == Change(AddProject(missionId, project))
             && end.threads[t].phase.Succeeded?
             && NotTakenOut(end.log, end.threads[t].phase.at, |end.log|, missionId, project.projectId)
             && ReadsWork(end.log, end.threads[t].phase.at, |end.log|)
    ensures var file := Run(Initial(store, registered), steps).file;
            file.Whole? && Has(file.store, missionId, project.projectId)
  {
    var end := Run(Initial(store, registered), steps);
    SuccessMeansCommitted(store, registered, steps, t);
    CommitsAreSerial(store, registered, steps);
    AddedIsInVersion(
      store, end.log, registered, end.threads[t].phase.at, |end.log|, missionId, project.projectId);
    hide *;
  }

  lemma EditPutsInOnlyByAdding(
    edit: Edit, store: Store, registered: set<string>, candidate: Candidate, missionId: string, projectId: string)
    requires Edited(edit, store, registered, candidate).Ok? && !Adds(edit, missionId, projectId)
    requires Has(Edited(edit, store, registered, candidate).value, missionId, projectId)
    ensures Has(store, missionId, projectId)
  {
    var after := Edited(edit, store, registered, candidate).value;
    var k :| 0 <= k < |after| && after[k].id == missionId && HasProject(after[k], projectId);
    if edit.DropMission? {
      assert after[k] in store;
    } else if edit.Create? && k == |store| {
      assert false;
    } else {
      SameProjectBefore(edit, store, registered, candidate, projectId, k);
    }
    hide HasProject;
  }

  lemma SameProjectBefore(
    edit: Edit, store: Store, registered: set<string>, candidate: Candidate, projectId: string, k: nat)
    requires Edited(edit, store, registered, candidate).Ok? && !edit.DropMission? && k < |store|
    requires HasProject(Edited(edit, store, registered, candidate).value[k], projectId)
    requires !Adds(edit, store[k].id, projectId)
    ensures store[k].id == Edited(edit, store, registered, candidate).value[k].id && HasProject(store[k], projectId)
  {
    var after := Edited(edit, store, registered, candidate).value[k];
    var i :| 0 <= i < |after.projects| && after.projects[i].projectId == projectId;
    assert after.projects[i] in after.projects;
    InSeqHasProject(store[k], after.projects[i]);
  }

  lemma CommitPutsInOnlyByAdding(
    c: Commit, version: Store, registered: set<string>, missionId: string, projectId: string)
    requires CommitOn(c, version, registered) && !Has(version, missionId, projectId)
    requires !Adds(c.edit, missionId, projectId)
    ensures !Has(c.result, missionId, projectId)
  {
    if !c.readOk {
      FromNothing(c, registered, missionId, projectId);
    } else if Has(c.result, missionId, projectId) {
      EditPutsInOnlyByAdding(c.edit, c.base, registered, c.candidate, missionId, projectId);
    }
    hide *;
  }

  /** Once lost it stays lost, unless it is added again. */
  lemma {:induction false} LostStaysLost(
    initial: Store, log: seq<Commit>, registered: set<string>, i: nat, n: nat, missionId: string, projectId: string)
    requires Serial(initial, log, registered)
    requires i <= n <= |log| && !Has(Version(initial, log, i), missionId, projectId)
    requires forall j :: i <= j < n ==> !Adds(log[j].edit, missionId, projectId)
    ensures !Has(Version(initial, log, n), missionId, projectId)
  {
    hide Serial, CommitOn, Has, Adds;
    if n <= i {
    } else {
      LostStaysLost(initial, log, registered, i, n - 1, missionId, projectId);
      SerialAt(initial, log, registered, n - 1);
      CommitPutsInOnlyByAdding(log[n - 1], Version(initial, log, n - 1), registered, missionId, projectId);
    }
  }

  /** And the proviso is needed: with no later add of it, the project is there exactly when all reads worked. */
  lemma AddedProjectStaysIff(
    initial: Store, log: seq<Commit>, registered: set<string>, i: nat, missionId: string, projectId: string)
    requires Serial(initial, log, registered) && Distinct(initial)
    requires i < |log| && Adds(log[i].edit, missionId, projectId)
    requires NotTakenOut(log, i, |log|, missionId, projectId)
    requires forall j :: i < j < |log| ==> !Adds(log[j].edit, missionId, projectId)
    ensures Has(Version(initial, log, |log|), missionId, projectId) <==> ReadsWork(log, i, |log|)
  {
    hide Serial, CommitOn, Has, Adds, Distinct, NotTakenOut, Version;
    if ReadsWork(log, i, |log|) {
      AddedIsInVersion(initial, log, registered, i, |log|, missionId, projectId);
    } else {
      var j :| i < j < |log| && !log[j].readOk;
      SerialAt(initial, log, registered, j);
      FailedReadCommit(log[j], Version(initial, log, j), registered, missionId, projectId);
      LostStaysLost(initial, log, registered, j + 1, |log|, missionId, projectId);
    }
  }

  lemma FailedReadCommit(c: Commit, version: Store, registered: set<string>, missionId: string, projectId: string)
    requires CommitOn(c, version, registered) && !c.readOk
    ensures !Has(c.result, missionId, projectId)
  {
    FromNothing(c, registered, missionId, projectId);
    hide *;
  }
}
