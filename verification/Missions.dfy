/** The mission store: its edits, in place and as functions, and what each of them keeps. */
module Missions {
  import opened Options

  datatype Project = Project(projectId: string, branch: string, path: string)

  datatype Mission = Mission(
    id: string, name: string, branchName: Option<string>, projects: seq<Project>, collapsed: bool)

  type Store = seq<Mission>

  datatype Edit =
    | Create(name: string, branchName: Option<string>)
    | AddProject(missionId: string, project: Project)
    | RemoveProject(missionId: string, projectId: string)
    | SetCollapsed(missionId: string, collapsed: bool)
    | DropMission(missionId: string)
    | Reconcile

  datatype Error = MissionNotFound | ProjectNotInMission | AlreadyInMission | ProjectUnknown | IdTaken

  // --- parts of a store ----------------------------------------------------------------

  ghost predicate DistinctProjects(projects: seq<Project>) {
    forall i, j :: 0 <= i < j < |projects| ==> projects[i].projectId != projects[j].projectId
  }

  /** Mission ids differ, and so do the project ids within every mission. */
  ghost predicate Distinct(store: Store) {
    && (forall i, j :: 0 <= i < j < |store| ==> store[i].id != store[j].id)
    && (forall i :: 0 <= i < |store| ==> DistinctProjects(store[i].projects))
  }

  predicate HasProject(mission: Mission, projectId: string) {
    exists i :: 0 <= i < |mission.projects| && mission.projects[i].projectId == projectId
  }

  /** The store lists the project under the mission. */
  ghost predicate Has(store: Store, missionId: string, projectId: string) {
    exists i :: 0 <= i < |store| && store[i].id == missionId && HasProject(store[i], projectId)
  }

  /** The position of the first mission with this id, or the number of missions. */
  function Find(store: Store, id: string): (i: nat)
    ensures i <= |store|
    ensures i < |store| ==> store[i].id == id
    ensures forall j :: 0 <= j < i ==> store[j].id != id
  {
    if store == [] || store[0].id == id then 0 else 1 + Find(store[1..], id)
  }

  function WithoutProject(projects: seq<Project>, projectId: string): (r: seq<Project>)
    ensures forall p :: p in r <==> p in projects && p.projectId != projectId
    ensures DistinctProjects(projects) ==> DistinctProjects(r)
  {
    if projects == [] then []
    else (if projects[0].projectId == projectId then [] else [projects[0]]) + WithoutProject(projects[1..], projectId)
  }

  function OnlyRegistered(projects: seq<Project>, registered: set<string>): (r: seq<Project>)
    ensures forall p :: p in r <==> p in projects && p.projectId in registered
    ensures DistinctProjects(projects) ==> DistinctProjects(r)
    ensures |r| == |projects| ==> r == projects
    ensures |r| <= |projects|
  {
    if projects == [] then []
    else (if projects[0].projectId in registered then [projects[0]] else []) + OnlyRegistered(projects[1..], registered)
  }

  function WithoutMission(store: Store, id: string): (r: Store)
    ensures forall m :: m in r <==> m in store && m.id != id
    ensures Distinct(store) ==> Distinct(r)
  {
    if store == [] then []
    else
      var rest := WithoutMission(store[1..], id);
      assert Distinct(store) ==> Distinct(store[1..]);
      assert Distinct(store) ==> forall m :: m in rest ==> m in store[1..] && m.id != store[0].id;
      (if store[0].id == id then [] else [store[0]]) + rest
  }

  function Reconciled(store: Store, registered: set<string>): Store {
    seq(|store|, i requires 0 <= i < |store| =>
      store[i].(projects := OnlyRegistered(store[i].projects, registered)))
  }

  /** The id drawn for a new mission, and whether a directory of that name is there already. */
  datatype Candidate = Candidate(id: string, dirExists: bool)

  const NO_CANDIDATE := Candidate("", false)

  /** One load-change-save's change; only a new mission looks at the candidate. */
  function Edited(edit: Edit, store: Store, registered: set<string>, candidate: Candidate): Result<Store, Error> {
    match edit
    case Create(name, branchName) =>
      if candidate.dirExists || Find(store, candidate.id) < |store| then Err(IdTaken)
      else Ok(store + [Mission(candidate.id, name, branchName, [], false)])
    case AddProject(missionId, project) =>
      var i := Find(store, missionId);
      if project.projectId !in registered then Err(ProjectUnknown)
      else if i == |store| then Err(MissionNotFound)
      else if HasProject(store[i], project.projectId) then Err(AlreadyInMission)
      else Ok(store[i := store[i].(projects := store[i].projects + [project])])
    case RemoveProject(missionId, projectId) =>
      var i := Find(store, missionId);
      if i == |store| then Err(MissionNotFound)
      else if !HasProject(store[i], projectId) then Err(ProjectNotInMission)
      else Ok(store[i := store[i].(projects := WithoutProject(store[i].projects, projectId))])
    case SetCollapsed(missionId, collapsed) =>
      var i := Find(store, missionId);
      if i == |store| then Err(MissionNotFound) else Ok(store[i := store[i].(collapsed := collapsed)])
    case DropMission(missionId) => Ok(WithoutMission(store, missionId))
    case Reconcile => Ok(Reconciled(store, registered))
  }

  // --- what an edit keeps --------------------------------------------------------------

  /** Ids stay distinct under every edit, whatever it was loaded from. */
  lemma EditKeepsDistinct(edit: Edit, store: Store, registered: set<string>, candidate: Candidate)
    requires Distinct(store) && Edited(edit, store, registered, candidate).Ok?
    ensures Distinct(Edited(edit, store, registered, candidate).value)
  {
  }

  /** The edit is meant to take the project out of the store. */
  predicate TakesOut(edit: Edit, missionId: string, projectId: string) {
    edit == RemoveProject(missionId, projectId) || edit == DropMission(missionId)
  }

  lemma ReplacingKeepsHas(store: Store, i: nat, mission: Mission, missionId: string, projectId: string)
    requires i < |store| && mission.id == store[i].id && Has(store, missionId, projectId)
    requires mission.id == missionId && HasProject(store[i], projectId) ==> HasProject(mission, projectId)
    ensures Has(store[i := mission], missionId, projectId)
  {
    hide HasProject;
    var k :| 0 <= k < |store| && store[k].id == missionId && HasProject(store[k], projectId);
    assert store[i := mission][k].id == missionId;
  }

  lemma InSeqHasProject(mission: Mission, project: Project)
    requires project in mission.projects
    ensures HasProject(mission, project.projectId)
  {
  }

  lemma RemovingKeepsOthers(mission: Mission, removed: string, projectId: string)
    requires HasProject(mission, projectId) && removed != projectId
    ensures HasProject(mission.(projects := WithoutProject(mission.projects, removed)), projectId)
  {
  }

  lemma ReconcilingKeepsRegistered(store: Store, registered: set<string>, missionId: string, projectId: string)
    requires Has(store, missionId, projectId) && projectId in registered
    ensures Has(Reconciled(store, registered), missionId, projectId)
  {
    var k :| 0 <= k < |store| && store[k].id == missionId && HasProject(store[k], projectId);
    var i :| 0 <= i < |store[k].projects| && store[k].projects[i].projectId == projectId;
    InSeqHasProject(Reconciled(store, registered)[k], store[k].projects[i]);
  }

  lemma DroppingAnotherKeeps(store: Store, dropped: string, missionId: string, projectId: string)
    requires Has(store, missionId, projectId) && dropped != missionId
    ensures Has(WithoutMission(store, dropped), missionId, projectId)
  {
  }

  lemma AppendingKeeps(store: Store, mission: Mission, missionId: string, projectId: string)
    requires Has(store, missionId, projectId)
    ensures Has(store + [mission], missionId, projectId)
  {
    hide HasProject;
    var k :| 0 <= k < |store| && store[k].id == missionId && HasProject(store[k], projectId);
    assert (store + [mission])[k] == store[k];
  }

  /** An edit of the store leaves every registered project that it is not meant to take out. */
  lemma EditKeepsOthers(
    edit: Edit, store: Store, registered: set<string>, candidate: Candidate, missionId: string, projectId: string)
    requires Has(store, missionId, projectId) && projectId in registered && Distinct(store)
    requires Edited(edit, store, registered, candidate).Ok? && !TakesOut(edit, missionId, projectId)
    ensures Has(Edited(edit, store, registered, candidate).value, missionId, projectId)
  {
    match edit
    case Create(name, branchName) =>
      AppendingKeeps(store, Mission(candidate.id, name, branchName, [], false), missionId, projectId);
    case AddProject(target, project) =>
      var i := Find(store, target);
      var longer := store[i].(projects := store[i].projects + [project]);
      assert HasProject(store[i], projectId) ==> HasProject(longer, projectId) by {
        assert forall k :: 0 <= k < |store[i].projects| ==> longer.projects[k] == store[i].projects[k];
      }
      ReplacingKeepsHas(store, i, longer, missionId, projectId);
    case RemoveProject(target, removed) =>
      var i := Find(store, target);
      if target == missionId && HasProject(store[i], projectId) {
        RemovingKeepsOthers(store[i], removed, projectId);
      }
      ReplacingKeepsHas(
        store, i, store[i].(projects := WithoutProject(store[i].projects, removed)), missionId, projectId);
    case SetCollapsed(target, collapsed) =>
      var i := Find(store, target);
      ReplacingKeepsHas(store, i, store[i].(collapsed := collapsed), missionId, projectId);
    case DropMission(target) =>
      DroppingAnotherKeeps(store, target, missionId, projectId);
    case Reconcile =>
      ReconcilingKeepsRegistered(store, registered, missionId, projectId);
  }

  /** A successful add is of a registered project the mission did not have, and puts it in. */
  lemma AddPutsIn(edit: Edit, store: Store, registered: set<string>, candidate: Candidate)
    requires edit.AddProject? && Edited(edit, store, registered, candidate).Ok?
    ensures Has(Edited(edit, store, registered, candidate).value, edit.missionId, edit.project.projectId)
    ensures !Has(store[..Find(store, edit.missionId) + 1], edit.missionId, edit.project.projectId)
    ensures edit.project.projectId in registered
  {
    var i := Find(store, edit.missionId);
    var after := Edited(edit, store, registered, candidate).value;
    assert after[i].projects[|store[i].projects|] == edit.project;
    assert HasProject(after[i], edit.project.projectId);
    hide HasProject;
  }

  /** A successful removal, of the project or of its whole mission, leaves it nowhere under that mission. */
  lemma TakenOutIsGone(
    edit: Edit, store: Store, registered: set<string>, candidate: Candidate, missionId: string, projectId: string)
    requires TakesOut(edit, missionId, projectId) && Distinct(store)
    requires Edited(edit, store, registered, candidate).Ok?
    ensures !Has(Edited(edit, store, registered, candidate).value, missionId, projectId)
  {
  }

  ghost predicate HasMission(store: Store, id: string) {
    exists i :: 0 <= i < |store| && store[i].id == id
  }

  /** When an edit of a store with distinct ids succeeds. */
  lemma EditSucceedsIff(edit: Edit, store: Store, registered: set<string>, candidate: Candidate)
    requires Distinct(store)
    ensures Edited(edit, store, registered, candidate).Ok?
            <==> match edit
                 case Create(_, _) => !candidate.dirExists && !HasMission(store, candidate.id)
                 case AddProject(id, p) =>
                   p.projectId in registered && HasMission(store, id) && !Has(store, id, p.projectId)
                 case RemoveProject(id, pid) => Has(store, id, pid)
                 case SetCollapsed(id, _) => HasMission(store, id)
                 case _ => true
  {
    hide HasProject;
    match edit
    case Create(_, _) => MissionFoundIff(store, candidate.id);
    case AddProject(id, p) => MissionFoundIff(store, id); HasWhereFound(store, id, p.projectId);
    case RemoveProject(id, pid) => MissionFoundIff(store, id); HasWhereFound(store, id, pid);
    case SetCollapsed(id, _) => MissionFoundIff(store, id);
    case DropMission(_) =>
    case Reconcile =>
  }

  /** A refused edit names its reason, an unregistered project before a missing mission. */
  lemma RefusalsAreNamed(edit: Edit, store: Store, registered: set<string>, candidate: Candidate)
    requires Edited(edit, store, registered, candidate).Err?
    ensures var error := Edited(edit, store, registered, candidate).error;
            match edit
            case Create(_, _) => error == IdTaken
            case AddProject(id, p) =>
              error == if p.projectId !in registered then ProjectUnknown
                       else if HasMission(store, id) then AlreadyInMission else MissionNotFound
            case RemoveProject(id, _) => error == if HasMission(store, id) then ProjectNotInMission else MissionNotFound
            case SetCollapsed(_, _) => error == MissionNotFound
            case _ => false
  {
    if edit.AddProject? || edit.RemoveProject? {
      MissionFoundIff(store, edit.missionId);
    }
    hide HasMission, HasProject, Find;
  }

  lemma MissionFoundIff(store: Store, id: string)
    ensures Find(store, id) < |store| <==> HasMission(store, id)
  {
  }

  lemma HasWhereFound(store: Store, id: string, projectId: string)
    requires Distinct(store)
    ensures Has(store, id, projectId) <==> Find(store, id) < |store| && HasProject(store[Find(store, id)], projectId)
  {
    hide HasProject;
  }

  /** A new mission comes last, empty and open, under its name and branch; the others stay. */
  lemma CreateAppends(
    store: Store, registered: set<string>, candidate: Candidate, name: string, branchName: Option<string>)
    requires Edited(Create(name, branchName), store, registered, candidate).Ok?
    ensures var after := Edited(Create(name, branchName), store, registered, candidate).value;
            && |after| == |store| + 1 && after[..|store|] == store
            && after[|store|] == Mission(candidate.id, name, branchName, [], false)
  {
  }

  /** An edit of one mission changes only its own field of that mission. */
  lemma EditChangesOnlyItsOwn(edit: Edit, store: Store, registered: set<string>, candidate: Candidate, k: nat)
    requires Distinct(store) && k < |store|
    requires edit.AddProject? || edit.RemoveProject? || edit.SetCollapsed?
    requires Edited(edit, store, registered, candidate).Ok?
    ensures var after := Edited(edit, store, registered, candidate).value;
            && |after| == |store|
            && (store[k].id != edit.missionId ==> after[k] == store[k])
            && (store[k].id == edit.missionId ==>
                  match edit
                  case AddProject(_, p) => after[k] == store[k].(projects := store[k].projects + [p])
                  case SetCollapsed(_, collapsed) => after[k] == store[k].(collapsed := collapsed)
                  case RemoveProject(_, pid) =>
                    && after[k] == store[k].(projects := after[k].projects)
                    && exists i :: 0 <= i < |store[k].projects| && store[k].projects[i].projectId == pid
                                   && after[k].projects == store[k].projects[..i] + store[k].projects[i + 1..]
                  case _ => true)
  {
    if store[k].id == edit.missionId {
      assert k == Find(store, edit.missionId);
      if edit.RemoveProject? {
        var i :| 0 <= i < |store[k].projects| && store[k].projects[i].projectId == edit.projectId;
        WithoutTheOne(store[k].projects, i);
      }
    }
    hide WithoutProject, HasProject, Find;
  }

  lemma LeftOut<T>(s: seq<T>, i: nat)
    requires 0 < i < |s|
    ensures s[..i] + s[i + 1..] == [s[0]] + (s[1..][..i - 1] + s[1..][i..])
    ensures s[1..][i - 1] == s[i]
  {
  }

  lemma {:induction false} NoneToTakeOut(projects: seq<Project>, projectId: string)
    requires forall q :: q in projects ==> q.projectId != projectId
    ensures WithoutProject(projects, projectId) == projects
  {
    if projects == [] {
    } else {
      NoneToTakeOut(projects[1..], projectId);
    }
  }

  /** Of distinct projects one is taken out, and the others keep their order. */
  lemma {:induction false} WithoutTheOne(projects: seq<Project>, i: nat)
    requires i < |projects| && DistinctProjects(projects)
    ensures WithoutProject(projects, projects[i].projectId) == projects[..i] + projects[i + 1..]
  {
    if i == 0 {
      NoneToTakeOut(projects[1..], projects[0].projectId);
    } else {
      WithoutTheOne(projects[1..], i - 1);
      LeftOut(projects, i);
    }
  }

  lemma {:induction false} NoMissionToDrop(store: Store, id: string)
    requires forall n :: n in store ==> n.id != id
    ensures WithoutMission(store, id) == store
  {
    if store == [] {
    } else {
      NoMissionToDrop(store[1..], id);
    }
  }

  /** Dropping a mission, too, leaves the others as they are and in their order. */
  lemma {:induction false} WithoutTheMission(store: Store, i: nat)
    requires i < |store| && Distinct(store)
    ensures WithoutMission(store, store[i].id) == store[..i] + store[i + 1..]
  {
    hide DistinctProjects;
    if i == 0 {
      NoMissionToDrop(store[1..], store[0].id);
    } else {
      WithoutTheMission(store[1..], i - 1);
      LeftOut(store, i);
    }
  }

  /** Reconciling takes out exactly the projects that are no longer registered. */
  lemma ReconciledHasIff(store: Store, registered: set<string>, missionId: string, projectId: string)
    ensures Has(Reconciled(store, registered), missionId, projectId)
            <==> Has(store, missionId, projectId) && projectId in registered
  {
    var after := Reconciled(store, registered);
    if Has(after, missionId, projectId) {
      var k :| 0 <= k < |after| && after[k].id == missionId && HasProject(after[k], projectId);
      var i :| 0 <= i < |after[k].projects| && after[k].projects[i].projectId == projectId;
      assert after[k].projects[i] in after[k].projects;
      InSeqHasProject(store[k], after[k].projects[i]);
    }
    if Has(store, missionId, projectId) && projectId in registered {
      ReconcilingKeepsRegistered(store, registered, missionId, projectId);
    }
  }

  /** Reconciling twice is reconciling once. */
  lemma ReconcilingAgainChangesNothing(store: Store, registered: set<string>)
    ensures Reconciled(Reconciled(store, registered), registered) == Reconciled(store, registered)
  {
    var once := Reconciled(store, registered);
    forall i | 0 <= i < |store|
      ensures OnlyRegistered(once[i].projects, registered) == once[i].projects
    {
      AllRegisteredStay(once[i].projects, registered);
    }
  }

  /** There is nothing to reconcile exactly when every project is registered. */
  lemma NothingToReconcileIff(store: Store, registered: set<string>)
    ensures Reconciled(store, registered) == store
            <==> forall i, j :: 0 <= i < |store| && 0 <= j < |store[i].projects| ==>
                   store[i].projects[j].projectId in registered
  {
    var after := Reconciled(store, registered);
    if after == store {
      forall i, j | 0 <= i < |store| && 0 <= j < |store[i].projects|
        ensures store[i].projects[j].projectId in registered
      {
        assert store[i].projects[j] in after[i].projects;
      }
    } else {
      var i :| 0 <= i < |store| && after[i] != store[i];
      if forall j :: 0 <= j < |store[i].projects| ==> store[i].projects[j].projectId in registered {
        AllRegisteredStay(store[i].projects, registered);
      }
    }
  }

  lemma {:induction false} AllRegisteredStay(projects: seq<Project>, registered: set<string>)
    requires forall p :: p in projects ==> p.projectId in registered
    ensures OnlyRegistered(projects, registered) == projects
  {
    if projects == [] {
    } else {
      AllRegisteredStay(projects[1..], registered);
    }
  }

  // --- in place ------------------------------------------------------------------------

  /** A loaded store, edited in place before it is saved. */
  class LoadedStore {
    var missions: Store

    constructor (loaded: Store)
      ensures missions == loaded
    {
      missions := loaded;
    }

    /** A candidate taken by a mission or a directory is refused, and the caller draws again. */
    method CreateMission(name: string, branchName: Option<string>, candidate: Candidate) returns (r: Result<(), Error>)
      modifies this
      ensures var after := Edited(Create(name, branchName), old(missions), {}, candidate);
              if after.Ok? then r == Ok(()) && missions == after.value
              else r == Err(after.error) && missions == old(missions)
    {
      if candidate.dirExists || Find(missions, candidate.id) < |missions| {
        return Err(IdTaken);
      }
      missions := missions + [Mission(candidate.id, name, branchName, [], false)];
      return Ok(());
    }

    method SetMissionCollapsed(id: string, collapsed: bool) returns (r: Result<(), Error>)
      modifies this
      ensures var after := Edited(SetCollapsed(id, collapsed), old(missions), {}, NO_CANDIDATE);
              if after.Ok? then r == Ok(()) && missions == after.value
              else r == Err(after.error) && missions == old(missions)
    {
      var i := Find(missions, id);
      if i == |missions| {
        return Err(MissionNotFound);
      }
      missions := missions[i := missions[i].(collapsed := collapsed)];
      return Ok(());
    }

    method AddProjectToMission(missionId: string, project: Project, registered: set<string>)
      returns (r: Result<(), Error>)
      modifies this
      ensures var after := Edited(AddProject(missionId, project), old(missions), registered, NO_CANDIDATE);
              if after.Ok? then r == Ok(()) && missions == after.value
              else r == Err(after.error) && missions == old(missions)
    {
      if project.projectId !in registered {
        return Err(ProjectUnknown);
      }
      var i := Find(missions, missionId);
      if i == |missions| {
        return Err(MissionNotFound);
      }
      var mission := missions[i];
      if HasProject(mission, project.projectId) {
        return Err(AlreadyInMission);
      }
      missions := missions[i := mission.(projects := mission.projects + [project])];
      return Ok(());
    }

    method RemoveProjectFromMission(missionId: string, projectId: string) returns (r: Result<(), Error>)
      modifies this
      ensures var after := Edited(RemoveProject(missionId, projectId), old(missions), {}, NO_CANDIDATE);
              if after.Ok? then r == Ok(()) && missions == after.value
              else r == Err(after.error) && missions == old(missions)
    {
      var i := Find(missions, missionId);
      if i == |missions| {
        return Err(MissionNotFound);
      }
      var mission := missions[i];
      if !HasProject(mission, projectId) {
        return Err(ProjectNotInMission);
      }
      missions := missions[i := mission.(projects := WithoutProject(mission.projects, projectId))];
      return Ok(());
    }

    /** Drop the projects that are no longer registered; says whether there were any. */
    method ReconcileMissions(registered: set<string>) returns (changed: bool)
      modifies this
      ensures missions == Reconciled(old(missions), registered)
      ensures changed <==> missions != old(missions)
    {
      changed := false;
      ghost var before := missions;
      ghost var after := Reconciled(before, registered);
      for i := 0 to |missions|
        invariant |missions| == |before| == |after|
        invariant forall k :: 0 <= k < i ==> missions[k] == after[k]
        invariant forall k :: i <= k < |before| ==> missions[k] == before[k]
        invariant changed <==> exists k :: 0 <= k < i && before[k] != after[k]
      {
        var projects := OnlyRegistered(missions[i].projects, registered);
        if |projects| != |missions[i].projects| {
          changed := true;
          assert before[i] != after[i];
        } else {
          assert before[i] == after[i];
        }
        missions := missions[i := missions[i].(projects := projects)];
      }
      assert missions == after;
    }
  }
}
