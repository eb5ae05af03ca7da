/** What runs of adding, stacking and removing worktrees keep, whichever commands fail. */
module WorktreeRuns {
  import opened Options
  import opened StackedWorktrees
  import opened WorktreeOps

  ghost predicate OnTheirBranches(r: Repo) {
    forall w :: w in r.worktrees ==> w in r.branches
  }

  ghost predicate Good(r: Repo) {
    Forest(r.parents, r.worktrees) && OnTheirBranches(r) && PrefixFree(r.branches)
  }

  datatype Step =
    | Add(name: string, addFaults: AddFaults)
    | Stack(parent: string, name: string, stackFaults: StackFaults)
    | Remove(name: string, removeFaults: RemoveFaults)

  ghost function Next(r: Repo, step: Step): Repo {
    match step
    case Add(name, f) => Added(r, name, f).0
    case Stack(parent, name, f) => Stacked(r, parent, name, f).0
    case Remove(name, f) => Removed(r, name, f).0
  }

  // --- branch names --------------------------------------------------------------------

  lemma NewBranchKeepsPrefixFree(branches: seq<string>, name: string)
    requires PrefixFree(branches) && !BranchRefused(branches, name)
    ensures PrefixFree(branches + [name])
  {
    forall a, b | a in branches + [name] && b in branches + [name]
      ensures !(a + "/" <= b)
    {
      assert a in branches ==> !Conflicting(a, name);
      assert b in branches ==> !Conflicting(b, name);
    }
  }

  lemma FewerBranchesKeepPrefixFree(branches: seq<string>, name: string)
    requires PrefixFree(branches)
    ensures PrefixFree(Without(branches, name))
  {
  }

  lemma AddKeepsPrefixFree(r: Repo, name: string, create: bool, git: GitAdd)
    requires PrefixFree(r.branches)
    ensures PrefixFree(WorktreeAdd(r, name, create, git).0.branches)
  {
    if create && !BranchRefused(r.branches, name) {
      NewBranchKeepsPrefixFree(r.branches, name);
    }
    hide PrefixFree, BranchRefused, Resolves, Attempted;
  }

  /** Git itself keeps the branch names free of path prefixes, whatever the listings hide. */
  lemma StepKeepsPrefixFree(r: Repo, step: Step)
    requires PrefixFree(r.branches)
    ensures PrefixFree(Next(r, step).branches)
  {
    hide PrefixFree, WorktreeAdd, ValidBranchName, FindBranchPrefixConflict, Listing, Without, ChildrenSeen;
    match step
    case Add(name, f) =>
      AddKeepsPrefixFree(r, name, name !in Listing(r.branches, f.disguised), f.git);
    case Stack(parent, name, f) =>
      var linked := Linked(r, parent, name);
      AddKeepsPrefixFree(linked, name, true, f.git);
      FewerBranchesKeepPrefixFree(WorktreeAdd(linked, name, true, f.git).0.branches, name);
    case Remove(name, f) =>
      FewerBranchesKeepPrefixFree(r.branches, name);
  }

  // --- worktrees on their branches -----------------------------------------------------

  /** The add passes its own checks and reaches git. */
  ghost predicate AddProceeds(r: Repo, name: string, f: AddFaults) {
    && ValidBranchName(name) && f.readsOk
    && FindBranchPrefixConflict(Listing(r.branches, f.disguised), name).None?
  }

  /**
    The name asked for is the long name git lists another branch under: the add takes it for a
    branch, and git checks out a detached commit.
   */
  ghost predicate Detaches(r: Repo, step: Step) {
    && step.Add?
    && AddProceeds(r, step.name, step.addFaults)
    && step.name in Listing(r.branches, step.addFaults.disguised) && step.name !in r.branches
    && MakesWorktree(Attempted(r.worktrees, step.name, step.addFaults.git))
  }

  lemma ListedResolves(branches: seq<string>, disguised: Disguises, name: string)
    requires name in Listing(branches, disguised)
    ensures Resolves(branches, name)
  {
    var i :| 0 <= i < |branches| && Listing(branches, disguised)[i] == name;
    assert branches[i] in branches;
  }

  lemma AddOnBranchesIff(r: Repo, name: string, create: bool, git: GitAdd)
    requires OnTheirBranches(r)
    ensures OnTheirBranches(WorktreeAdd(r, name, create, git).0)
            <==> !(!create && Resolves(r.branches, name) && name !in r.branches
                   && MakesWorktree(Attempted(r.worktrees, name, git)))
  {
    hide Resolves, BranchRefused, Attempted;
    var made := WorktreeAdd(r, name, create, git).0;
    if name in made.worktrees && name !in r.worktrees {
      assert made.worktrees == r.worktrees + [name];
    }
  }

  lemma CleanupOnBranches(r: Repo, name: string, removeOk: bool, deleteOk: bool)
    requires OnTheirBranches(r)
    ensures OnTheirBranches(CleanedUp(r, name, removeOk, deleteOk))
  {
  }

  /** Every step keeps each worktree on its like-named branch, but for an add that detaches. */
  lemma StepKeepsBranchesIff(r: Repo, step: Step)
    requires OnTheirBranches(r)
    ensures OnTheirBranches(Next(r, step)) <==> !Detaches(r, step)
  {
    hide WorktreeAdd, ValidBranchName, FindBranchPrefixConflict, Listing, ChildrenSeen, Attempted, Resolves;
    match step
    case Add(name, f) =>
      var listed := Listing(r.branches, f.disguised);
      AddOnBranchesIff(r, name, name !in listed, f.git);
      if name in listed {
        ListedResolves(r.branches, f.disguised, name);
      }
    case Stack(parent, name, f) =>
      var linked := Linked(r, parent, name);
      AddOnBranchesIff(linked, name, true, f.git);
      CleanupOnBranches(RolledBack(WorktreeAdd(linked, name, true, f.git).0, parent, name, f.rollbackOk),
                        name, f.removeOk, f.deleteOk);
      hide CleanedUp;
    case Remove(name, f) =>
  }

  ghost predicate NestingFree(r: Repo) {
    PrefixFree(r.worktrees)
  }

  lemma NewWorktreeNestsIff(worktrees: seq<string>, name: string)
    requires PrefixFree(worktrees) && !PathInUse(worktrees, name)
    ensures PrefixFree(worktrees + [name]) <==> !exists w :: w in worktrees && w + "/" <= name
  {
    var after := worktrees + [name];
    if w :| w in worktrees && w + "/" <= name {
      assert w in after && name in after;
    }
    if !PrefixFree(after) {
      var a, b :| a in after && b in after && a + "/" <= b;
      assert a in worktrees || b in worktrees;
      assert b in worktrees ==> !(name + "/" <= b);
    }
  }

  lemma FewerWorktreesStayNestingFree(worktrees: seq<string>, fewer: seq<string>)
    requires PrefixFree(worktrees) && forall w :: w in fewer ==> w in worktrees
    ensures PrefixFree(fewer)
  {
  }

  // --- a plain add ---------------------------------------------------------------------

  lemma OnBranchesPathFree(r: Repo, name: string)
    requires OnTheirBranches(r) && !BranchRefused(r.branches, name)
    ensures !PathInUse(r.worktrees, name)
  {
    forall w | w in r.worktrees
      ensures w != name && !(name + "/" <= w)
    {
      assert w in r.branches;
    }
  }

  lemma AddKeepsForest(r: Repo, name: string, f: AddFaults)
    requires Forest(r.parents, r.worktrees)
    ensures Forest(Added(r, name, f).0.parents, Added(r, name, f).0.worktrees)
  {
    hide ValidBranchName, FindBranchPrefixConflict, Listing, BranchRefused, Resolves, Attempted;
    var after := Added(r, name, f);
    AddTouches(r, name, f);
    hide Added;
    assert name in r.parents ==> name in r.worktrees;
    MoreWorktreesKeepForest(r.parents, r.worktrees, after.0.worktrees);
  }

  /** A plain add only ever adds worktrees, and drops a link only with a worktree that was not there. */
  lemma AddTouches(r: Repo, name: string, f: AddFaults)
    ensures forall w :: w in r.worktrees ==> w in Added(r, name, f).0.worktrees
    ensures Added(r, name, f).0.parents != r.parents ==> name in r.parents && name !in r.worktrees
  {
    hide ValidBranchName, FindBranchPrefixConflict, Listing, BranchRefused, Resolves;
    assert name !in r.parents ==> r.parents - {name} == r.parents;
  }

  /** A plain add keeps everything unless it detaches. */
  lemma AddKeepsGoodIff(r: Repo, name: string, f: AddFaults)
    requires Good(r)
    ensures Good(Added(r, name, f).0) <==> !Detaches(r, Add(name, f))
  {
    StepKeepsBranchesIff(r, Add(name, f));
    StepKeepsPrefixFree(r, Add(name, f));
    AddKeepsForest(r, name, f);
    hide Added, Detaches, Forest, PrefixFree, OnTheirBranches;
  }

  /** A plain add succeeds exactly when nothing stands in its way, and then links the worktree to nothing. */
  lemma AddOkIff(r: Repo, name: string, f: AddFaults)
    requires Forest(r.parents, r.worktrees)
    ensures var listed := name in Listing(r.branches, f.disguised);
            && (Added(r, name, f).1.Ok?
                <==> && AddProceeds(r, name, f) && f.git.Done? && f.saveOk
                     && !PathInUse(r.worktrees, name) && (listed || !BranchRefused(r.branches, name)))
            && (Added(r, name, f).1.Ok? ==>
                  Added(r, name, f).0
                  == Repo(r.worktrees + [name], if listed then r.branches else r.branches + [name], r.parents))
  {
    if name in Listing(r.branches, f.disguised) {
      ListedResolves(r.branches, f.disguised, name);
    }
    if !PathInUse(r.worktrees, name) {
      assert name !in r.worktrees && name !in r.parents;
      assert r.parents - {name} == r.parents;
    }
    hide ValidBranchName, FindBranchPrefixConflict, Forest, Listing, PathInUse, BranchRefused, Resolves;
  }

  /**
    A failing plain add, in any state, never touches a link. Refused before git it changes
    nothing; stopped by git it leaves what git left; stopped by the save, worktree and branch stay.
   */
  lemma FailedAdd(r: Repo, name: string, f: AddFaults)
    requires Added(r, name, f).1.Err?
    ensures var (after, outcome) := Added(r, name, f);
            var listed := Listing(r.branches, f.disguised);
            var reaches := ValidBranchName(name) && f.readsOk && forall b :: b in listed ==> !Conflicting(b, name);
            var refused := name !in listed && BranchRefused(r.branches, name);
            var inUse := PathInUse(r.worktrees, name);
            && after.parents == r.parents
            && (!ValidBranchName(name) <==> outcome == Err(InvalidName))
            && (ValidBranchName(name) && !f.readsOk <==> outcome == Err(ReadFailed))
            && (ValidBranchName(name) && f.readsOk && !reaches <==> outcome.error.PrefixConflict?)
            && (!reaches || refused ==> after == r)
            && (reaches && (refused || inUse || f.git.Failing?) <==> outcome == Err(GitFailed))
            && (reaches && !refused && !inUse && f.git.Done? ==> outcome == Err(SaveFailed) && !f.saveOk)
            && (reaches && !refused ==>
                  && after.worktrees
                     == (if !inUse && (f.git.Done? || f.git == Failing(BranchAndWorktree)) then r.worktrees + [name]
                         else r.worktrees)
                  && after.branches
                     == if name !in listed
                           && (if inUse then f.git == Failing(BranchOnly) else f.git != Failing(Nothing))
                        then r.branches + [name] else r.branches)
  {
    if name in Listing(r.branches, f.disguised) {
      ListedResolves(r.branches, f.disguised, name);
    }
    hide ValidBranchName, Listing, PathInUse, BranchRefused, Resolves, Conflicting;
  }

  /** It forgets the link a stale configuration may still hold for the name, and no other. */
  lemma AddForgetsAStaleLink(r: Repo, name: string, f: AddFaults)
    requires Added(r, name, f).1.Ok?
    ensures name !in Added(r, name, f).0.parents
    ensures forall c :: c != name ==>
              && (c in Added(r, name, f).0.parents <==> c in r.parents)
              && (c in r.parents ==> Added(r, name, f).0.parents[c] == r.parents[c])
  {
    hide ValidBranchName, FindBranchPrefixConflict, Listing, WorktreeAdd;
    assert WorktreeAdd(r, name, name !in Listing(r.branches, f.disguised), f.git).0.parents == r.parents by {
      AddKeepsParents(r, name, name !in Listing(r.branches, f.disguised), f.git);
    }
  }

  lemma AddKeepsParents(r: Repo, name: string, create: bool, git: GitAdd)
    ensures WorktreeAdd(r, name, create, git).0.parents == r.parents
  {
    hide BranchRefused, Resolves, Attempted;
  }

  // --- a stacked add -------------------------------------------------------------------

  /** Every check before the metadata is written passes. */
  ghost predicate StackProceeds(r: Repo, parent: string, name: string, f: StackFaults) {
    && ValidBranchName(name) && f.listOk && f.readsOk && f.saveOk
    && parent in r.worktrees && name !in Listing(r.branches, f.disguised)
    && FindBranchPrefixConflict(Listing(r.branches, f.disguised), name).None?
  }

  ghost function Proceeded(r: Repo, parent: string, name: string, f: StackFaults): (Repo, Outcome) {
    var (made, ok) := WorktreeAdd(Linked(r, parent, name), name, true, f.git);
    if ok then (made, Ok(()))
    else (CleanedUp(RolledBack(made, parent, name, f.rollbackOk), name, f.removeOk, f.deleteOk), Err(GitFailed))
  }

  lemma StackEitherProceedsOrChangesNothing(r: Repo, parent: string, name: string, f: StackFaults)
    ensures StackProceeds(r, parent, name, f) ==> Stacked(r, parent, name, f) == Proceeded(r, parent, name, f)
    ensures !StackProceeds(r, parent, name, f) ==>
              Stacked(r, parent, name, f).0 == r && Stacked(r, parent, name, f).1.Err?
              && Stacked(r, parent, name, f).1.error != GitFailed
  {
    hide ValidBranchName, FindBranchPrefixConflict, Listing, WorktreeAdd, CleanedUp, RolledBack;
  }

  /** What `git worktree add` makes of a repository that knows nothing of that name. */
  lemma FreshAddShape(r: Repo, name: string, git: GitAdd)
    requires !PathInUse(r.worktrees, name) && !BranchRefused(r.branches, name)
    ensures WorktreeAdd(r, name, true, git).1 == git.Done?
    ensures WorktreeAdd(r, name, true, git).0.parents == r.parents
    ensures var after := WorktreeAdd(r, name, true, git).0;
            && after.worktrees
               == (if git.Done? || git.left.BranchAndWorktree? then r.worktrees + [name] else r.worktrees)
            && after.branches == if git.Done? || !git.left.Nothing? then r.branches + [name] else r.branches
  {
    hide PathInUse, BranchRefused;
  }

  lemma {:induction false} WithoutUndoes(names: seq<string>, name: string)
    requires name !in names
    ensures Without(names + [name], name) == names
  {
    if names == [] {
      assert names + [name] == [name];
    } else {
      assert (names + [name])[1..] == names[1..] + [name];
      WithoutUndoes(names[1..], name);
    }
  }

  /** The cleanup after such an add: a worktree that stays keeps its branch. */
  lemma CleanupShape(made: Repo, r: Repo, name: string, left: Leftover, removeOk: bool, deleteOk: bool)
    requires name !in r.worktrees && name !in r.branches
    requires made.worktrees == (if left.BranchAndWorktree? then r.worktrees + [name] else r.worktrees)
    requires made.branches == if left.Nothing? then r.branches else r.branches + [name]
    ensures var after := CleanedUp(made, name, removeOk, deleteOk);
            var worktreeStays := left.BranchAndWorktree? && !removeOk;
            && after.worktrees == (if worktreeStays then r.worktrees + [name] else r.worktrees)
            && after.branches
               == (if worktreeStays || (!left.Nothing? && !deleteOk) then r.branches + [name] else r.branches)
            && after.parents == made.parents
  {
    WithoutUndoes(r.worktrees, name);
    WithoutUndoes(r.branches, name);
    hide Without;
  }

  /** The name is free: no branch in its way, and nothing of that name in use. */
  ghost predicate NameFree(r: Repo, name: string) {
    !BranchRefused(r.branches, name) && !PathInUse(r.worktrees, name) && name !in r.parents
  }

  lemma NameFreeUnlessRefused(r: Repo, name: string)
    requires Forest(r.parents, r.worktrees) && OnTheirBranches(r) && !BranchRefused(r.branches, name)
    ensures NameFree(r, name) && name !in r.worktrees && name !in r.branches
  {
    OnBranchesPathFree(r, name);
    assert name in r.branches ==> BranchRefused(r.branches, name);
    assert name in r.worktrees ==> name in r.branches;
    hide BranchRefused, PathInUse;
  }

  /** What is there afterwards when the name was free. */
  lemma ProceededShape(r: Repo, parent: string, name: string, f: StackFaults)
    requires NameFree(r, name)
    ensures var after := Proceeded(r, parent, name, f).0;
            var worktreeStays := f.git.Done? || (f.git.left.BranchAndWorktree? && !f.removeOk);
            var branchStays := worktreeStays || (!f.git.left.Nothing? && !f.deleteOk);
            && after.worktrees == (if worktreeStays then r.worktrees + [name] else r.worktrees)
            && after.branches == (if branchStays then r.branches + [name] else r.branches)
            && after.parents == if f.git.Done? || !f.rollbackOk then r.parents[name := parent] else r.parents
    ensures Proceeded(r, parent, name, f).1 == if f.git.Done? then Ok(()) else Err(GitFailed)
  {
    FreshAddShape(Linked(r, parent, name), name, f.git);
    assert name !in r.worktrees && name !in r.branches;
    hide WorktreeAdd, BranchRefused, PathInUse;
    if f.git.Failing? {
      var made := RolledBack(WorktreeAdd(Linked(r, parent, name), name, true, f.git).0, parent, name, f.rollbackOk);
      CleanupShape(made, r, name, f.git.left, f.removeOk, f.deleteOk);
      assert r.parents[name := parent] - {name} == r.parents;
    }
    hide CleanedUp;
  }

  /** And when git refused the branch: the cleanup strikes what had the name before. */
  lemma RefusedShape(r: Repo, parent: string, name: string, f: StackFaults)
    requires BranchRefused(r.branches, name)
    ensures var after := Proceeded(r, parent, name, f).0;
            && after.worktrees == (if f.removeOk then Without(r.worktrees, name) else r.worktrees)
            && after.branches
               == (if f.deleteOk && name !in after.worktrees then Without(r.branches, name) else r.branches)
            && after.parents == if f.rollbackOk then r.parents - {name} else r.parents[name := parent]
    ensures Proceeded(r, parent, name, f).1 == Err(GitFailed)
  {
    hide BranchRefused;
    assert r.parents[name := parent] - {name} == r.parents - {name};
  }

  ghost predicate HasChildIn(m: Parents, name: string) {
    exists c :: c in m && m[c] == name
  }

  /** The link to the parent is still saved afterwards. */
  ghost predicate KeepsLink(r: Repo, name: string, f: StackFaults) {
    (f.git.Done? && !BranchRefused(r.branches, name)) || !f.rollbackOk
  }

  /** A worktree of that name is there afterwards. */
  ghost predicate WorktreeStays(r: Repo, name: string, f: StackFaults) {
    if BranchRefused(r.branches, name) then name in r.worktrees && !f.removeOk
    else f.git.Done? || (f.git.left.BranchAndWorktree? && !f.removeOk)
  }

  /** Past the checks: a link to no worktree or into a circle, or children that lost their parent. */
  ghost predicate StackSpoils(r: Repo, parent: string, name: string, f: StackFaults) {
    && StackProceeds(r, parent, name, f)
    && if KeepsLink(r, name, f) then !WorktreeStays(r, name, f) || Above(r.parents, parent, name)
       else !WorktreeStays(r, name, f) && HasChildIn(r.parents, name)
  }

  lemma FreshForest(r: Repo, parent: string, name: string, f: StackFaults)
    requires Forest(r.parents, r.worktrees) && NameFree(r, name) && name !in r.worktrees && parent in r.worktrees
    requires !BranchRefused(r.branches, name)
    ensures var after := Proceeded(r, parent, name, f).0;
            Forest(after.parents, after.worktrees) <==> !(KeepsLink(r, name, f) && !WorktreeStays(r, name, f))
    ensures !Above(r.parents, parent, name) && !HasChildIn(r.parents, name)
  {
    ProceededShape(r, parent, name, f);
    StackingKeepsForest(r.parents, r.worktrees, name, parent);
    MoreWorktreesKeepForest(r.parents, r.worktrees, r.worktrees + [name]);
    assert name in r.parents[name := parent];
    forall n: nat
      ensures Up(r.parents, parent, n) != Some(name)
    {
      AboveExists(r.parents, r.worktrees, parent, n);
    }
    hide Proceeded, NameFree, BranchRefused, ChainEnds;
  }

  lemma RefusedForest(r: Repo, parent: string, name: string, f: StackFaults)
    requires Forest(r.parents, r.worktrees) && BranchRefused(r.branches, name) && parent in r.worktrees
    ensures var after := Proceeded(r, parent, name, f).0;
            Forest(after.parents, after.worktrees)
            <==> if f.rollbackOk then WorktreeStays(r, name, f) || !HasChildIn(r.parents, name)
                 else WorktreeStays(r, name, f) && !Above(r.parents, parent, name)
  {
    RefusedShape(r, parent, name, f);
    hide BranchRefused;
    var after := Proceeded(r, parent, name, f).0;
    hide Proceeded;
    if f.rollbackOk {
      if f.removeOk {
        RemovedForest(r, name, after);
      } else {
        UnlinkedForest(r, name);
      }
    } else if name in after.worktrees {
      assert after.worktrees == r.worktrees;
      LinkingKeepsForestIff(r.parents, r.worktrees, name, parent);
    } else {
      assert name in after.parents;
    }
    hide ChainEnds, Without;
  }

  lemma UnlinkedForest(r: Repo, name: string)
    requires Forest(r.parents, r.worktrees)
    ensures Forest(r.parents - {name}, r.worktrees)
    ensures name !in r.worktrees ==> !HasChildIn(r.parents, name)
  {
    forall c | c in r.parents - {name}
      ensures ChainEnds(r.parents - {name}, c)
    {
      FewerLinksStillEnd(r.parents - {name}, r.parents, c);
    }
  }

  /** A stacked add spoils the links in exactly those cases. */
  lemma StackKeepsGoodIff(r: Repo, parent: string, name: string, f: StackFaults)
    requires Good(r)
    ensures Good(Stacked(r, parent, name, f).0) <==> !StackSpoils(r, parent, name, f)
  {
    StackEitherProceedsOrChangesNothing(r, parent, name, f);
    StepKeepsBranchesIff(r, Stack(parent, name, f));
    StepKeepsPrefixFree(r, Stack(parent, name, f));
    if StackProceeds(r, parent, name, f) {
      if BranchRefused(r.branches, name) {
        RefusedForest(r, parent, name, f);
      } else {
        NameFreeUnlessRefused(r, name);
        FreshForest(r, parent, name, f);
      }
      assert parent in r.worktrees;
    }
    hide Stacked, Proceeded, StackProceeds, Forest, OnTheirBranches, PrefixFree, BranchRefused, WorktreeStays, Above,
         HasChildIn, NameFree;
  }

  /** What git does when the stacked add reaches it. */
  ghost function Reached(r: Repo, name: string, f: StackFaults): GitAdd {
    if BranchRefused(r.branches, name) then Failing(Nothing) else Attempted(r.worktrees, name, f.git)
  }

  /** The failing add leaves links, worktrees and branches as it found them. */
  ghost predicate Restores(r: Repo, parent: string, name: string, f: StackFaults) {
    var left := Reached(r, name, f);
    && (if f.rollbackOk then name !in r.parents else name in r.parents && r.parents[name] == parent)
    && (if name in r.worktrees then !f.removeOk else left == Failing(BranchAndWorktree) ==> f.removeOk)
    && (if name in r.branches then name in r.worktrees || !f.deleteOk
        else left != Failing(Nothing) ==> f.deleteOk && name !in r.worktrees)
  }

  /** A stacked add that reaches git, in any state. */
  lemma ReachedShape(r: Repo, parent: string, name: string, f: StackFaults)
    ensures var g := Reached(r, name, f);
            var made := if MakesWorktree(g) then r.worktrees + [name] else r.worktrees;
            var branched := if g != Failing(Nothing) then r.branches + [name] else r.branches;
            && Proceeded(r, parent, name, f)
               == (if g == Done then (Repo(made, branched, r.parents[name := parent]), Ok(()))
                   else (CleanedUp(
                           Repo(made, branched,
                                if f.rollbackOk then r.parents[name := parent] - {name} else r.parents[name := parent]),
                           name, f.removeOk, f.deleteOk),
                         Err(GitFailed)))
    ensures MakesWorktree(Reached(r, name, f)) ==> name !in r.worktrees
    ensures Reached(r, name, f) != Failing(Nothing) ==> name !in r.branches
  {
    assert name in r.branches ==> BranchRefused(r.branches, name);
    assert name in r.worktrees ==> PathInUse(r.worktrees, name);
    hide BranchRefused, PathInUse, CleanedUp;
  }

  lemma WorktreesRestoredIff(r: Repo, name: string, g: GitAdd, removeOk: bool)
    requires g.Failing? && (MakesWorktree(g) ==> name !in r.worktrees)
    ensures var made := if MakesWorktree(g) then r.worktrees + [name] else r.worktrees;
            var left := if removeOk then Without(made, name) else made;
            && (left == r.worktrees
                <==> if name in r.worktrees then !removeOk else g == Failing(BranchAndWorktree) ==> removeOk)
            && (left == r.worktrees ==> (name in left <==> name in r.worktrees))
  {
    if name !in r.worktrees {
      WithoutUndoes(r.worktrees, name);
    } else {
      assert name !in Without(r.worktrees, name);
    }
    assert |r.worktrees + [name]| != |r.worktrees|;
    hide Without;
  }

  lemma BranchesRestoredIff(r: Repo, name: string, g: GitAdd, stays: bool, deleteOk: bool)
    requires g.Failing? && (g != Failing(Nothing) ==> name !in r.branches)
    ensures var branched := if g != Failing(Nothing) then r.branches + [name] else r.branches;
            var left := if deleteOk && !stays then Without(branched, name) else branched;
            left == r.branches
            <==> if name in r.branches then stays || !deleteOk else g != Failing(Nothing) ==> deleteOk && !stays
  {
    if name !in r.branches {
      WithoutUndoes(r.branches, name);
    } else {
      assert name !in Without(r.branches, name);
    }
    assert |r.branches + [name]| != |r.branches|;
    hide Without;
  }

  lemma LinksRestoredIff(m: Parents, parent: string, name: string, rollbackOk: bool)
    ensures (if rollbackOk then m[name := parent] - {name} else m[name := parent]) == m
            <==> if rollbackOk then name !in m else name in m && m[name] == parent
  {
    assert name !in m ==> m[name := parent] - {name} == m;
    assert name in m && m[name] == parent ==> m[name := parent] == m;
    assert m[name := parent][name] == parent;
  }

  lemma CleanedUpParts(r: Repo, name: string, removeOk: bool, deleteOk: bool)
    ensures var after := CleanedUp(r, name, removeOk, deleteOk);
            && after.worktrees == (if removeOk then Without(r.worktrees, name) else r.worktrees)
            && after.branches
               == (if deleteOk && name !in after.worktrees then Without(r.branches, name) else r.branches)
            && after.parents == r.parents
  {
    hide Without;
  }

  lemma ProceededRestoresIff(r: Repo, parent: string, name: string, f: StackFaults)
    requires Proceeded(r, parent, name, f).1.Err?
    ensures Proceeded(r, parent, name, f).0 == r <==> Restores(r, parent, name, f)
  {
    ReachedShape(r, parent, name, f);
    var g := Reached(r, name, f);
    hide Proceeded, Reached, CleanedUp, Without;
    var made := if MakesWorktree(g) then r.worktrees + [name] else r.worktrees;
    var branched := if g != Failing(Nothing) then r.branches + [name] else r.branches;
    var links := if f.rollbackOk then r.parents[name := parent] - {name} else r.parents[name := parent];
    CleanedUpParts(Repo(made, branched, links), name, f.removeOk, f.deleteOk);
    WorktreesRestoredIff(r, name, g, f.removeOk);
    BranchesRestoredIff(r, name, g, name in r.worktrees, f.deleteOk);
    LinksRestoredIff(r.parents, parent, name, f.rollbackOk);
  }

  /**
    In any state, when a refused or failed stacked add leaves worktrees, branches and links as
    they were.
   */
  lemma FailedStackRestoresIff(r: Repo, parent: string, name: string, f: StackFaults)
    requires Stacked(r, parent, name, f).1.Err?
    ensures Stacked(r, parent, name, f).0 == r
            <==> (StackProceeds(r, parent, name, f) ==> Restores(r, parent, name, f))
  {
    StackEitherProceedsOrChangesNothing(r, parent, name, f);
    if StackProceeds(r, parent, name, f) {
      ProceededRestoresIff(r, parent, name, f);
    }
    hide *;
  }

  /**
    When rollback and cleanup work, the state is restored exactly if the checks did not let pass
    a name that some branch, worktree or link had already.
   */
  lemma CleanFailureRestoresIff(r: Repo, parent: string, name: string, f: StackFaults)
    requires Stacked(r, parent, name, f).1.Err?
    requires f.rollbackOk && f.removeOk && f.deleteOk
    ensures Stacked(r, parent, name, f).0 == r
            <==> !(StackProceeds(r, parent, name, f)
                   && (name in r.branches || name in r.worktrees || name in r.parents))
  {
    FailedStackRestoresIff(r, parent, name, f);
    hide Stacked, StackProceeds, Reached;
  }

  /** Only a branch that git lists under a longer name can be hidden from the checks. */
  lemma HiddenMeansDisguised(r: Repo, parent: string, name: string, f: StackFaults)
    requires StackProceeds(r, parent, name, f) && name in r.branches
    ensures name in f.disguised
  {
    var i :| 0 <= i < |r.branches| && r.branches[i] == name;
    assert Listing(r.branches, f.disguised)[i] == ShortName(name, f.disguised);
  }

  /**
    With a tag of the same name, stacking the name of an existing worktree's branch passes the
    checks, and the cleanup removes that worktree and that branch though every command of it works.
   */
  lemma HiddenBranchIsDestroyed(parent: string, name: string, f: StackFaults)
    requires ValidBranchName(name) && parent != name && parent != "heads/" + name
    requires !Conflicting(parent, name) && !Conflicting("heads/" + name, name)
    requires f.disguised == map[name := Heads]
    requires f.listOk && f.readsOk && f.saveOk && f.rollbackOk && f.removeOk && f.deleteOk
    ensures var r := Repo([parent, name], [parent, name], map[]);
            Stacked(r, parent, name, f) == (Repo([parent], [parent], map[]), Err(GitFailed))
  {
    hide ValidBranchName, Conflicting;
    var r := Repo([parent, name], [parent, name], map[]);
    var listed := Listing(r.branches, f.disguised);
    assert listed == [parent, "heads/" + name];
    assert |"heads/" + name| != |name|;
    assert FindBranchPrefixConflict(listed, name).None?;
    assert StackProceeds(r, parent, name, f);
    assert r.branches[1] == name;
    assert name in r.branches;
    StackEitherProceedsOrChangesNothing(r, parent, name, f);
    RefusedShape(r, parent, name, f);
    assert Without(r.worktrees, name) == [parent] by {
      WithoutUndoes([parent], name);
      assert [parent] + [name] == [parent, name];
    }
    assert r.parents - {name} == map[];
    hide Stacked, Proceeded, StackProceeds, FindBranchPrefixConflict, Listing, BranchRefused, Without;
  }

  /**
    And without any tag at the time: a worktree that an earlier add detached has its name to
    itself, and stacking that name again removes the worktree by force.
   */
  lemma DetachedWorktreeIsRemoved(branch: string, f: AddFaults, g: StackFaults)
    requires f == AddFaults(true, map[branch := Heads], Done, true) && g.disguised == map[]
    requires g.listOk && g.readsOk && g.saveOk && g.rollbackOk && g.removeOk && g.deleteOk
    requires ValidBranchName("heads/" + branch) && !Conflicting(branch, "heads/" + branch)
    ensures var start, long := Repo([branch], [branch], map[]), "heads/" + branch;
            && Next(start, Add(long, f)) == Repo([branch, long], [branch], map[])
            && Stacked(Next(start, Add(long, f)), branch, long, g) == (start, Err(GitFailed))
  {
    var start, long := Repo([branch], [branch], map[]), "heads/" + branch;
    DetachedFirst(branch, f);
    var r := Repo([branch, long], [branch], map[]);
    assert |long| == |branch| + 6;
    hide ValidBranchName, Conflicting;
    PlainListing(r.branches);
    assert StackProceeds(r, branch, long, g);
    StackEitherProceedsOrChangesNothing(r, branch, long, g);
    ReachedShape(r, branch, long, g);
    assert r.worktrees[1] == long;
    assert long in r.worktrees && PathInUse(r.worktrees, long);
    hide Next, Stacked, StackProceeds, Proceeded, BranchRefused, PathInUse, Listing, FindBranchPrefixConflict;
    DetachedCleanup(branch, g, Reached(r, long, g));
  }

  lemma DetachedCleanup(branch: string, g: StackFaults, left: GitAdd)
    requires g.removeOk && g.deleteOk
    requires left == Failing(Nothing) || left == Failing(BranchOnly)
    ensures var long := "heads/" + branch;
            var links: Parents := map[long := branch] - {long};
            CleanedUp(Repo([branch, long], if left == Failing(Nothing) then [branch] else [branch] + [long], links),
                      long, true, true)
            == Repo([branch], [branch], map[])
  {
    var long := "heads/" + branch;
    assert |long| == |branch| + 6;
    var links: Parents := map[long := branch] - {long};
    assert links == map[];
    CleanedUpParts(Repo([branch, long], if left == Failing(Nothing) then [branch] else [branch] + [long], links),
                   long, true, true);
    WithoutUndoes([branch], long);
    assert [branch] + [long] == [branch, long];
    hide Without, CleanedUp;
  }

  /** An accepted stacked add makes exactly the worktree, its branch and its link. */
  lemma StackOk(r: Repo, parent: string, name: string, f: StackFaults)
    ensures Stacked(r, parent, name, f).1.Ok?
            <==> && StackProceeds(r, parent, name, f) && f.git.Done?
                 && !BranchRefused(r.branches, name) && !PathInUse(r.worktrees, name)
    ensures Stacked(r, parent, name, f).1.Ok? ==>
              Stacked(r, parent, name, f).0
              == Repo(r.worktrees + [name], r.branches + [name], r.parents[name := parent])
  {
    StackEitherProceedsOrChangesNothing(r, parent, name, f);
    ReachedShape(r, parent, name, f);
    hide Stacked, StackProceeds, Proceeded, BranchRefused, PathInUse, CleanedUp;
  }

  /**
    Which error a failing stacked add reports, in any state: the first check that refuses it,
    and git's own failure only once the link is saved. Before that it has changed nothing.
   */
  lemma FailedStackReports(r: Repo, parent: string, name: string, f: StackFaults)
    requires Stacked(r, parent, name, f).1.Err?
    ensures var (after, outcome) := Stacked(r, parent, name, f);
            var listed, error := Listing(r.branches, f.disguised), outcome.error;
            if !ValidBranchName(name) then error == InvalidName && after == r
            else if !f.listOk || parent !in r.worktrees then error == ParentNotFound && after == r
            else if !f.readsOk then error == ReadFailed && after == r
            else if exists b :: b in listed && Conflicting(b, name) then
              error.PrefixConflict? && error.branch in listed && Conflicting(error.branch, name) && after == r
            else if name in listed then error == BranchExists && after == r
            else if !f.saveOk then error == SaveFailed && after == r
            else error == GitFailed
  {
    hide ValidBranchName, Listing, Conflicting, WorktreeAdd, CleanedUp, RolledBack;
  }

  // --- nesting -------------------------------------------------------------------------

  /** The step makes a worktree of its name that stays. */
  ghost predicate AddsWorktree(r: Repo, step: Step) {
    match step
    case Add(name, f) =>
      && AddProceeds(r, name, f)
      && (name in Listing(r.branches, f.disguised) || !BranchRefused(r.branches, name))
      && MakesWorktree(Attempted(r.worktrees, name, f.git))
    case Stack(parent, name, f) =>
      && StackProceeds(r, parent, name, f)
      && MakesWorktree(Reached(r, name, f)) && (Reached(r, name, f) == Done || !f.removeOk)
    case Remove(_, _) => false
  }

  /** The name asked for lies below an existing worktree's. */
  ghost predicate BelowAWorktree(worktrees: seq<string>, name: string) {
    exists w :: w in worktrees && w + "/" <= name
  }

  ghost predicate Nests(r: Repo, step: Step) {
    AddsWorktree(r, step) && BelowAWorktree(r.worktrees, step.name)
  }

  lemma WorktreesAfterAdding(r: Repo, name: string, f: AddFaults)
    ensures Added(r, name, f).0.worktrees
            == if AddsWorktree(r, Add(name, f)) then r.worktrees + [name] else r.worktrees
    ensures AddsWorktree(r, Add(name, f)) ==> !PathInUse(r.worktrees, name)
  {
    if name in Listing(r.branches, f.disguised) {
      ListedResolves(r.branches, f.disguised, name);
    }
    hide ValidBranchName, FindBranchPrefixConflict, Listing, BranchRefused, Resolves, PathInUse;
  }

  lemma WorktreesAfterStacking(r: Repo, parent: string, name: string, f: StackFaults)
    ensures AddsWorktree(r, Stack(parent, name, f)) ==>
              Stacked(r, parent, name, f).0.worktrees == r.worktrees + [name] && !PathInUse(r.worktrees, name)
    ensures !AddsWorktree(r, Stack(parent, name, f)) ==>
              forall w :: w in Stacked(r, parent, name, f).0.worktrees ==> w in r.worktrees
  {
    StackEitherProceedsOrChangesNothing(r, parent, name, f);
    ReachedShape(r, parent, name, f);
    var g := Reached(r, name, f);
    var made := if MakesWorktree(g) then r.worktrees + [name] else r.worktrees;
    var branched := if g != Failing(Nothing) then r.branches + [name] else r.branches;
    var links := if f.rollbackOk then r.parents[name := parent] - {name} else r.parents[name := parent];
    CleanedUpParts(Repo(made, branched, links), name, f.removeOk, f.deleteOk);
    hide Stacked, StackProceeds, Proceeded, BranchRefused, PathInUse, CleanedUp;
  }

  /** Where nothing nests, something does afterwards exactly when a worktree is made below another's name. */
  lemma StepNestsIff(r: Repo, step: Step)
    requires NestingFree(r)
    ensures NestingFree(Next(r, step)) <==> !Nests(r, step)
  {
    match step
    case Add(name, f) =>
      WorktreesAfterAdding(r, name, f);
      hide Added;
      NestsBy(r.worktrees, Next(r, step).worktrees, name, AddsWorktree(r, step));
    case Stack(parent, name, f) =>
      WorktreesAfterStacking(r, parent, name, f);
      hide Stacked;
      NestsBy(r.worktrees, Next(r, step).worktrees, name, AddsWorktree(r, step));
    case Remove(name, f) =>
      hide ChildrenSeen, Without;
      NestsBy(r.worktrees, Next(r, step).worktrees, name, false);
  }

  lemma NestsBy(worktrees: seq<string>, after: seq<string>, name: string, adds: bool)
    requires PrefixFree(worktrees)
    requires adds ==> after == worktrees + [name] && !PathInUse(worktrees, name)
    requires !adds ==> forall w :: w in after ==> w in worktrees
    ensures PrefixFree(after) <==> !(adds && BelowAWorktree(worktrees, name))
  {
    if adds {
      NewWorktreeNestsIff(worktrees, name);
    } else {
      FewerWorktreesStayNestingFree(worktrees, after);
    }
    hide PrefixFree, PathInUse;
  }

  // --- a removal -----------------------------------------------------------------------

  ghost predicate HasChild(r: Repo, name: string) {
    HasChildIn(r.parents, name)
  }

  /** The guard passes and git removes the worktree. */
  ghost predicate RemoveProceeds(r: Repo, name: string, f: RemoveFaults) {
    (f.listOk ==> !HasChild(r, name)) && f.removeOk && name in r.worktrees
  }

  lemma GuardSeesChildrenIff(r: Repo, name: string, listOk: bool)
    requires Forest(r.parents, r.worktrees)
    ensures ChildrenSeen(r, name, listOk) != [] <==> listOk && HasChild(r, name)
  {
    NormalizedIsIdentityIffForest(r.parents, r.worktrees);
    var children := ChildrenSeen(r, name, listOk);
    if listOk && HasChild(r, name) {
      var c :| c in r.parents && r.parents[c] == name;
      assert c in children;
    }
    if children != [] {
      assert children[0] in children;
    }
    hide Normalized, ChainEnds;
  }

  /** Removing keeps the forest unless the listing hides a child or the link is not saved away. */
  lemma RemoveKeepsGoodIff(r: Repo, name: string, f: RemoveFaults)
    requires Good(r)
    ensures Good(Removed(r, name, f).0)
            <==> !(RemoveProceeds(r, name, f) && (HasChild(r, name) || (!f.saveOk && name in r.parents)))
  {
    GuardSeesChildrenIff(r, name, f.listOk);
    hide ChildrenSeen;
    var after := Removed(r, name, f).0;
    if RemoveProceeds(r, name, f) {
      assert after.worktrees == Without(r.worktrees, name);
      assert after.parents == if f.saveOk then r.parents - {name} else r.parents;
      assert after.branches == if f.deleteOk then Without(r.branches, name) else r.branches;
      FewerBranchesKeepPrefixFree(r.branches, name);
      hide PrefixFree, Without;
      assert OnTheirBranches(after);
      hide Removed, OnTheirBranches;
      RemovedForest(r, name, after);
    } else {
      assert after == r;
      hide *;
    }
  }

  /**
    A removal succeeds exactly when the worktree is there, shows no children and every needed
    command works; then it and its link are gone, and with a working `branch -D` its branch.
   */
  lemma RemoveOkIff(r: Repo, name: string, f: RemoveFaults)
    requires Good(r)
    ensures Removed(r, name, f).1.Ok? <==> RemoveProceeds(r, name, f) && f.saveOk
    ensures Removed(r, name, f).1.Ok? ==>
              var after := Removed(r, name, f).0;
              && name !in after.worktrees && name !in after.parents
              && (name in after.branches <==> !f.deleteOk)
              && (forall w :: w != name ==> (w in after.worktrees <==> w in r.worktrees))
              && (forall b :: b != name ==> (b in after.branches <==> b in r.branches))
              && after.parents == r.parents - {name}
  {
    GuardSeesChildrenIff(r, name, f.listOk);
    assert name in r.worktrees ==> name in r.branches;
    hide Forest, PrefixFree, HasChild, ChildrenSeen;
  }

  /** Taking a name out leaves the others in their order. */
  lemma {:induction false} WithoutSplits(a: seq<string>, name: string, b: seq<string>)
    requires name !in a && name !in b
    ensures Without(a + [name] + b, name) == a + b
  {
    if a == [] {
      assert a + [name] + b == [name] + b && ([name] + b)[1..] == b;
      assert a + b == b;
    } else {
      assert (a + [name] + b)[1..] == a[1..] + [name] + b;
      WithoutSplits(a[1..], name, b);
      assert [a[0]] + (a[1..] + b) == a + b;
    }
  }

  /**
    A failing removal, in any state: refused for the children it sees or stopped by git it
    changes nothing; stopped by the save, exactly the worktree and, with a working delete, its
    branch are gone.
   */
  lemma FailedRemoval(r: Repo, name: string, f: RemoveFaults)
    ensures var (after, outcome) := Removed(r, name, f);
            var seen := ChildrenIn(Normalized(r.parents, if f.listOk then r.worktrees else []),
                                   if f.listOk then r.worktrees else [], name);
            var works := seen == [] && f.removeOk && name in r.worktrees;
            && (outcome.Ok? <==> works && f.saveOk)
            && (seen != [] ==> after == r && outcome == Err(HasChildren(seen)))
            && (seen == [] && !works ==> after == r && outcome == Err(GitFailed))
            && (works && !f.saveOk ==>
                  && outcome == Err(SaveFailed) && after.parents == r.parents
                  && after.worktrees == Without(r.worktrees, name)
                  && after.branches == if f.deleteOk then Without(r.branches, name) else r.branches)
  {
    hide ChildrenIn, Normalized, Without;
    assert name !in Without(r.worktrees, name) by {
      WithoutDrops(r.worktrees, name);
    }
  }

  lemma WithoutDrops(names: seq<string>, name: string)
    ensures name !in Without(names, name)
  {
  }

  lemma RemovedForest(r: Repo, name: string, after: Repo)
    requires Forest(r.parents, r.worktrees)
    requires after.worktrees == Without(r.worktrees, name)
    requires after.parents == r.parents - {name} || after.parents == r.parents
    ensures Forest(after.parents, after.worktrees) <==> !(HasChild(r, name) || name in after.parents)
  {
    if HasChild(r, name) {
      var c :| c in r.parents && r.parents[c] == name;
      if c == name {
        SelfParentNeverEnds(r.parents, c);
      }
      assert c in after.parents && after.parents[c] == name;
    } else if name !in after.parents {
      assert after.parents == r.parents - {name};
      RemovingKeepsForest(r.parents, r.worktrees, after.worktrees, name);
    }
    hide ChainEnds, Without;
  }

  // --- runs ----------------------------------------------------------------------------

  /** What can spoil the links or take a worktree off its branch; every other failure is harmless. */
  ghost predicate Spoils(r: Repo, step: Step) {
    match step
    case Add(_, _) => Detaches(r, step)
    case Stack(parent, name, f) => StackSpoils(r, parent, name, f)
    case Remove(name, f) => RemoveProceeds(r, name, f) && (HasChild(r, name) || (!f.saveOk && name in r.parents))
  }

  lemma StepKeepsGoodIff(r: Repo, step: Step)
    requires Good(r)
    ensures Good(Next(r, step)) <==> !Spoils(r, step)
  {
    match step
    case Add(name, f) => AddKeepsGoodIff(r, name, f);
    case Stack(parent, name, f) => StackKeepsGoodIff(r, parent, name, f);
    case Remove(name, f) => RemoveKeepsGoodIff(r, name, f);
    hide Good, Added, Stacked, Removed, StackSpoils, RemoveProceeds, HasChild, Detaches;
  }

  ghost function Run(r: Repo, steps: seq<Step>): Repo
    decreases |steps|
  {
    if steps == [] then r else Run(Next(r, steps[0]), steps[1..])
  }

  lemma {:induction false} RunSnoc(r: Repo, steps: seq<Step>, k: nat)
    requires k < |steps|
    ensures Run(r, steps[..k + 1]) == Next(Run(r, steps[..k]), steps[k])
    decreases k
  {
    hide Next;
    if k == 0 {
      assert steps[..1] == [steps[0]] && steps[..1][1..] == [] && steps[..0] == [];
      assert Run(Next(r, steps[0]), []) == Next(r, steps[0]);
    } else {
      var rest := steps[1..];
      assert steps[..k + 1][1..] == rest[..k] && steps[..k][1..] == rest[..k - 1];
      RunSnoc(Next(r, steps[0]), rest, k - 1);
    }
  }

  /** Nothing spoils the first `n` steps of the run. */
  ghost predicate Unspoiled(r: Repo, steps: seq<Step>, n: nat) {
    forall k :: 0 <= k < n && k < |steps| ==> !Spoils(Run(r, steps[..k]), steps[k])
  }

  lemma {:induction false} UnspoiledStaysGood(r: Repo, steps: seq<Step>, n: nat)
    requires Good(r) && n <= |steps| && Unspoiled(r, steps, n)
    ensures Good(Run(r, steps[..n]))
  {
    hide Good, Spoils, Next;
    if n == 0 {
      assert steps[..0] == [];
    } else {
      UnspoiledStaysGood(r, steps, n - 1);
      RunSnoc(r, steps, n - 1);
      StepKeepsGoodIff(Run(r, steps[..n - 1]), steps[n - 1]);
    }
  }

  /** A run is good throughout exactly when no step of it spoils the state it meets. */
  lemma RunIsGoodIff(r: Repo, steps: seq<Step>)
    requires Good(r)
    ensures (forall k :: 0 <= k <= |steps| ==> Good(Run(r, steps[..k]))) <==> Unspoiled(r, steps, |steps|)
  {
    hide Good, Spoils, Next, Run;
    if Unspoiled(r, steps, |steps|) {
      forall k | 0 <= k <= |steps|
        ensures Good(Run(r, steps[..k]))
      {
        UnspoiledStaysGood(r, steps, k);
      }
    }
    if forall k :: 0 <= k <= |steps| ==> Good(Run(r, steps[..k])) {
      forall k | 0 <= k < |steps|
        ensures !Spoils(Run(r, steps[..k]), steps[k])
      {
        RunSnoc(r, steps, k);
        StepKeepsGoodIff(Run(r, steps[..k]), steps[k]);
        assert Good(Run(r, steps[..k + 1]));
      }
    }
  }

  /** In every run, whatever fails, the branch names stay free of path prefixes. */
  lemma {:induction false} RunsKeepPrefixFree(r: Repo, steps: seq<Step>)
    requires PrefixFree(r.branches)
    ensures PrefixFree(Run(r, steps).branches)
    decreases |steps|
  {
    hide PrefixFree, Next;
    if steps == [] {
    } else {
      StepKeepsPrefixFree(r, steps[0]);
      RunsKeepPrefixFree(Next(r, steps[0]), steps[1..]);
    }
  }

  /** The caller's check: an add asks for no name that git could list another branch under. */
  ghost predicate AsksPlainly(step: Step) {
    step.Add? ==>
      step.addFaults.disguised == map[] || !("heads/" <= step.name || "refs/heads/" <= step.name)
  }

  lemma PlainAddsAttach(r: Repo, step: Step)
    requires AsksPlainly(step)
    ensures !Detaches(r, step)
  {
    if step.Add? {
      forall i | 0 <= i < |r.branches| && ShortName(r.branches[i], step.addFaults.disguised) == step.name
        ensures step.name in r.branches
      {
        assert r.branches[i] in r.branches;
      }
    }
    hide AddProceeds, Attempted;
  }

  /** None of the first `n` steps of the run detaches a worktree. */
  ghost predicate NeverDetaches(r: Repo, steps: seq<Step>, n: nat) {
    forall k :: 0 <= k < n && k < |steps| ==> !Detaches(Run(r, steps[..k]), steps[k])
  }

  lemma PlainRunsNeverDetach(r: Repo, steps: seq<Step>)
    requires forall i :: 0 <= i < |steps| ==> AsksPlainly(steps[i])
    ensures NeverDetaches(r, steps, |steps|)
  {
    hide AsksPlainly, Detaches, Run;
    forall k | 0 <= k < |steps|
      ensures !Detaches(Run(r, steps[..k]), steps[k])
    {
      PlainAddsAttach(Run(r, steps[..k]), steps[k]);
    }
  }

  lemma {:induction false} AttachedStaysOnBranches(r: Repo, steps: seq<Step>, n: nat)
    requires OnTheirBranches(r) && n <= |steps| && NeverDetaches(r, steps, n)
    ensures OnTheirBranches(Run(r, steps[..n]))
  {
    hide OnTheirBranches, Detaches, Next;
    if n == 0 {
      assert steps[..0] == [];
    } else {
      AttachedStaysOnBranches(r, steps, n - 1);
      RunSnoc(r, steps, n - 1);
      StepKeepsBranchesIff(Run(r, steps[..n - 1]), steps[n - 1]);
    }
  }

  /** A run keeps every worktree on its branch throughout exactly when no step of it detaches one. */
  lemma RunStaysOnBranchesIff(r: Repo, steps: seq<Step>)
    requires OnTheirBranches(r)
    ensures (forall k :: 0 <= k <= |steps| ==> OnTheirBranches(Run(r, steps[..k])))
            <==> NeverDetaches(r, steps, |steps|)
  {
    hide OnTheirBranches, Detaches, Next, Run;
    if NeverDetaches(r, steps, |steps|) {
      forall k | 0 <= k <= |steps|
        ensures OnTheirBranches(Run(r, steps[..k]))
      {
        AttachedStaysOnBranches(r, steps, k);
      }
    }
    if forall k :: 0 <= k <= |steps| ==> OnTheirBranches(Run(r, steps[..k])) {
      forall k | 0 <= k < |steps|
        ensures !Detaches(Run(r, steps[..k]), steps[k])
      {
        RunSnoc(r, steps, k);
        StepKeepsBranchesIff(Run(r, steps[..k]), steps[k]);
        assert OnTheirBranches(Run(r, steps[..k + 1]));
      }
    }
  }

  /** None of the first `n` steps of the run makes a worktree below another's name. */
  ghost predicate NeverNests(r: Repo, steps: seq<Step>, n: nat) {
    forall k :: 0 <= k < n && k < |steps| ==> !Nests(Run(r, steps[..k]), steps[k])
  }

  lemma {:induction false} UnnestedStaysNestingFree(r: Repo, steps: seq<Step>, n: nat)
    requires NestingFree(r) && n <= |steps| && NeverNests(r, steps, n)
    ensures NestingFree(Run(r, steps[..n]))
  {
    hide NestingFree, Nests, Next;
    if n == 0 {
      assert steps[..0] == [];
    } else {
      UnnestedStaysNestingFree(r, steps, n - 1);
      RunSnoc(r, steps, n - 1);
      StepNestsIff(Run(r, steps[..n - 1]), steps[n - 1]);
    }
  }

  /** A run stays free of nesting throughout exactly when no step makes a worktree below another's name. */
  lemma RunNestsIff(r: Repo, steps: seq<Step>)
    requires NestingFree(r)
    ensures (forall k :: 0 <= k <= |steps| ==> NestingFree(Run(r, steps[..k]))) <==> NeverNests(r, steps, |steps|)
  {
    hide NestingFree, Nests, Next, Run;
    if NeverNests(r, steps, |steps|) {
      forall k | 0 <= k <= |steps|
        ensures NestingFree(Run(r, steps[..k]))
      {
        UnnestedStaysNestingFree(r, steps, k);
      }
    }
    if forall k :: 0 <= k <= |steps| ==> NestingFree(Run(r, steps[..k])) {
      forall k | 0 <= k < |steps|
        ensures !Nests(Run(r, steps[..k]), steps[k])
      {
        RunSnoc(r, steps, k);
        StepNestsIff(Run(r, steps[..k]), steps[k]);
        assert NestingFree(Run(r, steps[..k + 1]));
      }
    }
  }

  lemma NestingFreeDirectories(r: Repo)
    ensures NestingFree(r) <==>
              forall base, a, b :: a in r.worktrees && b in r.worktrees ==>
                !Inside(WorktreeDir(base, a), WorktreeDir(base, b))
  {
    hide Inside, WorktreeDir;
    forall base, a, b | a in r.worktrees && b in r.worktrees
      ensures Inside(WorktreeDir(base, a), WorktreeDir(base, b)) <==> b + "/" <= a
    {
      NestedIffPrefix(base, a, b);
    }
    if !NestingFree(r) {
      var a, b :| a in r.worktrees && b in r.worktrees && a + "/" <= b;
      assert Inside(WorktreeDir("", b), WorktreeDir("", a));
    }
  }

  /**
    From no worktrees on, whichever git command, read or save fails: no worktree directory ever
    nests in another exactly when no add asks for a name below an existing worktree's and gets it.
   */
  lemma RunsNeverNestIff(branches: seq<string>, steps: seq<Step>)
    ensures (forall k, base, a, b ::
               0 <= k <= |steps| && a in Run(Repo([], branches, map[]), steps[..k]).worktrees
               && b in Run(Repo([], branches, map[]), steps[..k]).worktrees ==>
                 !Inside(WorktreeDir(base, a), WorktreeDir(base, b)))
            <==> NeverNests(Repo([], branches, map[]), steps, |steps|)
  {
    var start := Repo([], branches, map[]);
    assert NestingFree(start);
    RunNestsIff(start, steps);
    hide NestingFree, NeverNests, Run, Inside, WorktreeDir;
    forall k | 0 <= k <= |steps|
      ensures NestingFree(Run(start, steps[..k])) <==>
                forall base, a, b :: a in Run(start, steps[..k]).worktrees && b in Run(start, steps[..k]).worktrees ==>
                  !Inside(WorktreeDir(base, a), WorktreeDir(base, b))
    {
      NestingFreeDirectories(Run(start, steps[..k]));
    }
  }

  /**
    In particular nothing nests, every worktree is on its branch and the names stay free of path
    prefixes, when no add detaches a worktree.
   */
  lemma RunsNeverNest(branches: seq<string>, steps: seq<Step>)
    requires PrefixFree(branches) && NeverDetaches(Repo([], branches, map[]), steps, |steps|)
    ensures var end := Run(Repo([], branches, map[]), steps);
            PrefixFree(end.branches) && OnTheirBranches(end) && NestingFree(end)
  {
    var start := Repo([], branches, map[]);
    RunsKeepPrefixFree(start, steps);
    AttachedStaysOnBranches(start, steps, |steps|);
    assert steps[..|steps|] == steps;
    hide Run, NeverDetaches;
  }

  /**
    Why the asking matters: while a tag disguises `branch`, asking for its long name detaches a
    worktree, and once the branch is gone a worktree can be added inside that one.
   */
  lemma DetachedWorktreeCanNest(branch: string, f: AddFaults, g: RemoveFaults, h: AddFaults)
    requires f == AddFaults(true, map[branch := Heads], Done, true) && g == RemoveFaults(true, true, true, true)
    requires h == AddFaults(true, map[], Done, true)
    requires ValidBranchName("heads/" + branch) && ValidBranchName("heads/" + branch + "/x")
    ensures var start := Repo([branch], [branch], map[]);
            var long := "heads/" + branch;
            Run(start, [Add(long, f), Remove(branch, g), Add(long + "/x", h)]).worktrees == [long, long + "/x"]
  {
    hide ValidBranchName;
    var long := "heads/" + branch;
    var start := Repo([branch], [branch], map[]);
    var detached := Next(start, Add(long, f));
    DetachedFirst(branch, f);
    var bare := Next(detached, Remove(branch, g));
    BranchGone(branch, g);
    var end := Next(bare, Add(long + "/x", h));
    NestedLast(long, h);
    hide *;
    ThreeSteps(start, Add(long, f), Remove(branch, g), Add(long + "/x", h));
  }

  lemma DetachedFirst(branch: string, f: AddFaults)
    requires f == AddFaults(true, map[branch := Heads], Done, true) && ValidBranchName("heads/" + branch)
    ensures Next(Repo([branch], [branch], map[]), Add("heads/" + branch, f))
            == Repo([branch, "heads/" + branch], [branch], map[])
  {
    hide ValidBranchName;
    var long, r := "heads/" + branch, Repo([branch], [branch], map[]);
    assert Listing(r.branches, f.disguised) == [long];
    assert |long| == |branch| + 6;
    assert !PathInUse(r.worktrees, long);
    AddOkIff(r, long, f);
    hide Added, Listing, PathInUse, BranchRefused;
    assert [branch] + [long] == [branch, long];
  }

  lemma BranchGone(branch: string, g: RemoveFaults)
    requires g == RemoveFaults(true, true, true, true)
    ensures var long := "heads/" + branch;
            Next(Repo([branch, long], [branch], map[]), Remove(branch, g)) == Repo([long], [], map[])
  {
    var long := "heads/" + branch;
    var r := Repo([branch, long], [branch], map[]);
    assert |long| == |branch| + 6;
    GuardSeesChildrenIff(r, branch, true);
    hide ChildrenSeen;
    assert r.worktrees[1..] == [long] && [long][1..] == [] && r.branches[1..] == [];
    assert Without([long], branch) == [long];
    assert Without(r.worktrees, branch) == [long] && Without(r.branches, branch) == [];
    assert r.parents - {branch} == map[];
  }

  lemma NestedLast(long: string, h: AddFaults)
    requires h == AddFaults(true, map[], Done, true) && ValidBranchName(long + "/x")
    ensures Next(Repo([long], [], map[]), Add(long + "/x", h)).worktrees == [long, long + "/x"]
  {
    hide ValidBranchName;
    var name, r := long + "/x", Repo([long], [], map[]);
    assert |name| == |long| + 2;
    assert !PathInUse(r.worktrees, name) && !BranchRefused(r.branches, name);
    AddOkIff(r, name, h);
    hide Added, PathInUse, BranchRefused;
    assert [long] + [name] == [long, name];
  }

  lemma ThreeSteps(r: Repo, first: Step, second: Step, third: Step)
    ensures Run(r, [first, second, third]) == Next(Next(Next(r, first), second), third)
  {
    hide Next;
    assert [first, second, third][1..] == [second, third];
    TwoSteps(Next(r, first), second, third);
  }

  /** Nothing in the step's faults can spoil a link: saves work, listings show every branch and worktree. */
  ghost predicate Steady(step: Step) {
    match step
    case Add(_, f) => f.disguised == map[]
    case Stack(_, _, f) => f.rollbackOk && f.disguised == map[]
    case Remove(_, f) => f.listOk && f.saveOk
  }

  lemma PlainListing(branches: seq<string>)
    ensures Listing(branches, map[]) == branches
  {
  }

  lemma SteadyStepKeepsGood(r: Repo, step: Step)
    requires Good(r) && Steady(step)
    ensures Good(Next(r, step))
  {
    StepKeepsGoodIff(r, step);
    PlainAddsAttach(r, step);
    if step.Stack? {
      PlainListing(r.branches);
      if BranchRefused(r.branches, step.name) {
        assert !StackProceeds(r, step.parent, step.name, step.stackFaults);
      } else {
        NameFreeUnlessRefused(r, step.name);
        if StackProceeds(r, step.parent, step.name, step.stackFaults) {
          FreshForest(r, step.parent, step.name, step.stackFaults);
        }
      }
    }
    hide Good, Next, Detaches, HasChild, HasChildIn, Listing, BranchRefused, Above;
  }

  lemma {:induction false} SteadyRunKeepsGood(r: Repo, steps: seq<Step>)
    requires Good(r) && forall i :: 0 <= i < |steps| ==> Steady(steps[i])
    ensures Good(Run(r, steps))
    decreases |steps|
  {
    hide Good, Next, Steady;
    if steps == [] {
    } else {
      assert Steady(steps[0]);
      SteadyStepKeepsGood(r, steps[0]);
      assert forall i :: 0 <= i < |steps| - 1 ==> steps[1..][i] == steps[i + 1];
      SteadyRunKeepsGood(Next(r, steps[0]), steps[1..]);
    }
  }

  /**
    From no worktrees on, when saves work and listings show everything: the saved links are a
    forest over the existing worktrees, so normalising them changes nothing.
   */
  lemma RunsKeepAForest(branches: seq<string>, steps: seq<Step>)
    requires PrefixFree(branches) && forall i :: 0 <= i < |steps| ==> Steady(steps[i])
    ensures var end := Run(Repo([], branches, map[]), steps);
            && Good(end)
            && Normalized(end.parents, end.worktrees) == end.parents
  {
    assert Good(Repo([], branches, map[]));
    SteadyRunKeepsGood(Repo([], branches, map[]), steps);
    var end := Run(Repo([], branches, map[]), steps);
    NormalizedIsIdentityIffForest(end.parents, end.worktrees);
    hide *;
  }

  lemma UnlistedRemoval(r: Repo, name: string, f: RemoveFaults)
    requires Good(r) && name in r.worktrees && name !in r.parents
    requires !f.listOk && f.removeOk && f.deleteOk && f.saveOk
    ensures Removed(r, name, f).0 == Repo(Without(r.worktrees, name), Without(r.branches, name), r.parents)
  {
    assert ChildrenSeen(r, name, false) == [];
    assert r.parents - {name} == r.parents;
    hide Good, ChildrenSeen;
  }

  lemma ReusableName(branches: seq<string>, name: string)
    requires PrefixFree(branches) && name in branches
    ensures FindBranchPrefixConflict(Without(branches, name), name).None?
    ensures !BranchRefused(Without(branches, name), name)
  {
    forall b | b in Without(branches, name)
      ensures b != name && !Conflicting(b, name)
    {
    }
    hide Without, PrefixFree, Conflicting;
  }

  /**
    Why a removal must be able to list: with `child` stacked on `parent`, removing the parent
    while the listing fails, then stacking it on its former child, saves a circle.
   */
  lemma UnlistedRemovalCanMakeACircle(r: Repo, child: string, parent: string, f: RemoveFaults, g: StackFaults)
    requires Good(r) && child in r.parents && r.parents[child] == parent && parent !in r.parents
    requires !f.listOk && f.removeOk && f.deleteOk && f.saveOk
    requires ValidBranchName(parent) && g.listOk && g.readsOk && g.disguised == map[] && g.saveOk && g.git.Done?
    ensures var end := Run(r, [Remove(parent, f), Stack(child, parent, g)]);
            && end.parents == r.parents[parent := child]
            && !ChainEnds(end.parents, parent) && !ChainEnds(end.parents, child)
  {
    UnlistedRemoval(r, parent, f);
    ReusableName(r.branches, parent);
    var middle := Next(r, Remove(parent, f));
    PlainListing(middle.branches);
    OnBranchesAfter(r, middle, parent);
    StackedOnAChild(middle, child, parent, g);
    hide *;
    var end := Next(middle, Stack(child, parent, g));
    TwoSteps(r, Remove(parent, f), Stack(child, parent, g));
    CircleNeverEnds(end.parents, child, parent);
  }

  lemma StackedOnAChild(r: Repo, parent: string, name: string, f: StackFaults)
    requires StackProceeds(r, parent, name, f) && NameFree(r, name) && f.git.Done?
    ensures Next(r, Stack(parent, name, f)).parents == r.parents[name := parent]
  {
    StackEitherProceedsOrChangesNothing(r, parent, name, f);
    ProceededShape(r, parent, name, f);
    hide Stacked, Proceeded, StackProceeds, NameFree;
  }

  lemma OnBranchesAfter(r: Repo, middle: Repo, name: string)
    requires OnTheirBranches(r) && name !in r.parents
    requires middle == Repo(Without(r.worktrees, name), Without(r.branches, name), r.parents)
    requires !BranchRefused(middle.branches, name)
    ensures NameFree(middle, name)
  {
    OnBranchesPathFree(middle, name);
    hide BranchRefused, PathInUse, Without;
  }

  lemma TwoSteps(r: Repo, first: Step, second: Step)
    ensures Run(r, [first, second]) == Next(Next(r, first), second)
  {
    hide Next;
    var middle := Next(r, first);
    assert [first, second][1..] == [second] && [second][1..] == [];
    assert Run(middle, [second]) == Run(Next(middle, second), []);
  }

  lemma CircleNeverEnds(m: Parents, a: string, b: string)
    requires a in m && b in m && m[a] == b && m[b] == a
    ensures !ChainEnds(m, a) && !ChainEnds(m, b)
  {
    forall n: nat
      ensures Up(m, a, n).Some? && Up(m, b, n).Some?
    {
      StaysInside(m, {a, b}, a, n);
      StaysInside(m, {a, b}, b, n);
    }
  }
}
