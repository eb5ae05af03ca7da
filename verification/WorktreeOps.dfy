/**
  Adding, stacking and removing worktrees, git command by git command. A worktree is known
  by its name, which is also its branch; the parent links live in the saved configuration.
 */
module WorktreeOps {
  import opened Options
  import opened StackedWorktrees

  datatype Repo = Repo(worktrees: seq<string>, branches: seq<string>, parents: Parents)

  datatype Error =
    | InvalidName
    | ReadFailed
    | PrefixConflict(branch: string)
    | ParentNotFound
    | BranchExists
    | HasChildren(children: seq<string>)
    | GitFailed
    | SaveFailed

  type Outcome = Result<(), Error>

  // --- names ---------------------------------------------------------------------------

  predicate Contains(s: string, part: string) {
    exists i :: 0 <= i <= |s| && part <= s[i..]
  }

  predicate EndsWith(s: string, part: string) {
    |part| <= |s| && s[|s| - |part|..] == part
  }

  predicate ValidBranchName(name: string) {
    && name != []
    && !("/" <= name) && !EndsWith(name, "/") && !Contains(name, "//")
    && !("-" <= name) && !("." <= name)
    && !Contains(name, "..") && !EndsWith(name, ".") && !EndsWith(name, ".lock")
    && forall i :: 0 <= i < |name| ==> name[i] !in " ~^:\\*?["
  }

  /** The same rules, character by character. */
  lemma ValidNameIff(name: string)
    ensures ValidBranchName(name)
            <==> && name != "" && name[0] !in "/-." && name[|name| - 1] !in "/."
                 && (forall i :: 0 <= i < |name| ==> name[i] !in " ~^:\\*?[")
                 && (forall i :: 0 < i < |name| && name[i] in "/." ==> name[i - 1] != name[i])
                 && !(|name| >= 5 && name[|name| - 5..] == ".lock")
  {
    TwiceIff(name, '/');
    TwiceIff(name, '.');
    assert name != "" ==> name[|name| - 1..] == [name[|name| - 1]];
    hide Contains;
  }

  lemma TwiceIff(s: string, c: char)
    ensures Contains(s, [c, c]) <==> exists i :: 0 < i < |s| && s[i] == c && s[i - 1] == c
  {
    if Contains(s, [c, c]) {
      var i :| 0 <= i <= |s| && [c, c] <= s[i..];
      assert s[i..][0] == c && s[i..][1] == c;
      assert s[i + 1] == c;
    }
    if i :| 0 < i < |s| && s[i] == c && s[i - 1] == c {
      assert [c, c] <= s[i - 1..];
    }
  }

  predicate Conflicting(branch: string, requested: string) {
    branch != requested && (branch + "/" <= requested || requested + "/" <= branch)
  }

  function FindBranchPrefixConflict(branches: seq<string>, requested: string): (r: Option<string>)
    ensures r.None? <==> forall b :: b in branches ==> !Conflicting(b, requested)
    ensures r.Some? ==>
              exists i :: 0 <= i < |branches| && branches[i] == r.value && Conflicting(branches[i], requested)
                          && forall j :: 0 <= j < i ==> !Conflicting(branches[j], requested)
  {
    if branches == [] then None
    else if Conflicting(branches[0], requested) then Some(branches[0])
    else
      var r := FindBranchPrefixConflict(branches[1..], requested);
      assert r.Some? ==>
          forall i :: 0 <= i < |branches| - 1 ==> branches[1..][i] == branches[i + 1];
      r
  }

  /** No name is another one followed by a slash and more. */
  ghost predicate PrefixFree(names: seq<string>) {
    forall a, b :: a in names && b in names ==> !(a + "/" <= b)
  }

  function WorktreeDir(base: string, name: string): string {
    base + "/worktrees/" + name
  }

  /** The directory lies inside another one. */
  predicate Inside(dir: string, outer: string) {
    outer + "/" <= dir
  }

  lemma NestedIffPrefix(base: string, name: string, outer: string)
    ensures Inside(WorktreeDir(base, name), WorktreeDir(base, outer)) <==> outer + "/" <= name
  {
    var stem := base + "/worktrees/";
    var a, b := stem + name, stem + outer + "/";
    assert WorktreeDir(base, name) == a && WorktreeDir(base, outer) + "/" == b;
    assert b == stem + (outer + "/");
    assert a[|stem|..] == name && b[|stem|..] == outer + "/";
    if b <= a {
      assert a[..|b|] == b;
      assert name[..|outer| + 1] == a[|stem|..|b|] == b[|stem|..];
    }
    if outer + "/" <= name {
      assert name == (outer + "/") + name[|outer| + 1..];
      assert a == b + name[|outer| + 1..];
    }
  }

  // --- git -----------------------------------------------------------------------------

  /** The longer name git prints for a branch when another ref, a tag say, answers to the short one. */
  datatype Disguise = Heads | RefsHeads

  type Disguises = map<string, Disguise>

  function ShortName(branch: string, disguised: Disguises): string {
    if branch !in disguised then branch
    else match disguised[branch]
      case Heads => "heads/" + branch
      case RefsHeads => "refs/heads/" + branch
  }

  /** What `for-each-ref --format=%(refname:short)` prints for the branches. */
  function Listing(branches: seq<string>, disguised: Disguises): (r: seq<string>)
    ensures |r| == |branches| && forall i :: 0 <= i < |r| ==> r[i] == ShortName(branches[i], disguised)
  {
    seq(|branches|, i requires 0 <= i < |branches| => ShortName(branches[i], disguised))
  }

  /** What a failing `git worktree add` can leave behind. */
  datatype Leftover = Nothing | BranchOnly | BranchAndWorktree

  datatype GitAdd = Done | Failing(left: Leftover)

  function Without(names: seq<string>, name: string): (r: seq<string>)
    ensures forall x :: x in r <==> x in names && x != name
    ensures name !in names ==> r == names
  {
    if names == [] then []
    else (if names[0] == name then [] else [names[0]]) + Without(names[1..], name)
  }

  /** Git creates no branch that exists, nor one whose path holds or lies below another's. */
  predicate BranchRefused(branches: seq<string>, name: string) {
    exists b :: b in branches && (b == name || Conflicting(b, name))
  }

  /** The name leads to a branch, by its short name or a longer one. */
  predicate Resolves(branches: seq<string>, name: string) {
    exists b :: b in branches && (name == b || name == "heads/" + b || name == "refs/heads/" + b)
  }

  /** A worktree is in the directory or below it. */
  predicate PathInUse(worktrees: seq<string>, name: string) {
    exists w :: w in worktrees && (w == name || name + "/" <= w)
  }

  /** In a directory in use no worktree is made, whatever else happens. */
  function Attempted(worktrees: seq<string>, name: string, git: GitAdd): GitAdd {
    if PathInUse(worktrees, name) && git != Failing(BranchOnly) then Failing(Nothing) else git
  }

  predicate MakesWorktree(git: GitAdd) {
    git == Done || git == Failing(BranchAndWorktree)
  }

  /**
    With `create` git makes the branch and then the worktree on it. Otherwise it checks out
    what the name resolves to: the branch of that very name, or else a detached commit.
   */
  function WorktreeAdd(r: Repo, name: string, create: bool, git: GitAdd): (Repo, bool) {
    if (if create then BranchRefused(r.branches, name) else !Resolves(r.branches, name)) then (r, false)
    else
      var g := Attempted(r.worktrees, name, git);
      (Repo(
         if MakesWorktree(g) then r.worktrees + [name] else r.worktrees,
         if create && g != Failing(Nothing) then r.branches + [name] else r.branches,
         r.parents),
       g == Done)
  }

  function WorktreeRemove(r: Repo, name: string, ok: bool): (Repo, bool) {
    if ok && name in r.worktrees then (r.(worktrees := Without(r.worktrees, name)), true) else (r, false)
  }

  /** Git keeps a branch that is checked out. */
  function BranchDelete(r: Repo, name: string, ok: bool): Repo {
    if ok && name !in r.worktrees then r.(branches := Without(r.branches, name)) else r
  }

  // --- the operations ------------------------------------------------------------------

  /** Which commands of an operation fail, and under which names git lists the branches meanwhile. */
  datatype AddFaults = AddFaults(readsOk: bool, disguised: Disguises, git: GitAdd, saveOk: bool)

  datatype StackFaults = StackFaults(
    listOk: bool, readsOk: bool, disguised: Disguises, saveOk: bool, git: GitAdd,
    rollbackOk: bool, removeOk: bool, deleteOk: bool)

  datatype RemoveFaults = RemoveFaults(listOk: bool, removeOk: bool, deleteOk: bool, saveOk: bool)

  function Added(r: Repo, name: string, f: AddFaults): (Repo, Outcome) {
    if !ValidBranchName(name) then (r, Err(InvalidName))
    else if !f.readsOk then (r, Err(ReadFailed))
    else
      var listed := Listing(r.branches, f.disguised);
      var conflict := FindBranchPrefixConflict(listed, name);
      if conflict.Some? then (r, Err(PrefixConflict(conflict.value)))
      else
        var (made, ok) := WorktreeAdd(r, name, name !in listed, f.git);
        if !ok then (made, Err(GitFailed))
        else if !f.saveOk then (made, Err(SaveFailed))
        else (made.(parents := made.parents - {name}), Ok(()))
  }

  /** The metadata goes first, and is taken back when git fails. */
  function Linked(r: Repo, parent: string, name: string): Repo {
    r.(parents := r.parents[name := parent])
  }

  function RolledBack(r: Repo, parent: string, name: string, ok: bool): Repo {
    if ok && name in r.parents && r.parents[name] == parent then r.(parents := r.parents - {name}) else r
  }

  function CleanedUp(r: Repo, name: string, removeOk: bool, deleteOk: bool): Repo {
    BranchDelete(WorktreeRemove(r, name, removeOk).0, name, deleteOk)
  }

  function Stacked(r: Repo, parent: string, name: string, f: StackFaults): (Repo, Outcome) {
    if !ValidBranchName(name) then (r, Err(InvalidName))
    else if !f.listOk || parent !in r.worktrees then (r, Err(ParentNotFound))
    else if !f.readsOk then (r, Err(ReadFailed))
    else
      var listed := Listing(r.branches, f.disguised);
      var conflict := FindBranchPrefixConflict(listed, name);
      if conflict.Some? then (r, Err(PrefixConflict(conflict.value)))
      else if name in listed then (r, Err(BranchExists))
      else if !f.saveOk then (r, Err(SaveFailed))
      else
        var (made, ok) := WorktreeAdd(Linked(r, parent, name), name, true, f.git);
        if ok then (made, Ok(()))
        else (CleanedUp(RolledBack(made, parent, name, f.rollbackOk), name, f.removeOk, f.deleteOk), Err(GitFailed))
  }

  /** The children the guard sees; a failing `git worktree list` shows no worktrees at all. */
  ghost function ChildrenSeen(r: Repo, name: string, listOk: bool): seq<string> {
    var listed := if listOk then r.worktrees else [];
    ChildrenIn(Normalized(r.parents, listed), listed, name)
  }

  ghost function Removed(r: Repo, name: string, f: RemoveFaults): (Repo, Outcome) {
    var children := ChildrenSeen(r, name, f.listOk);
    if children != [] then (r, Err(HasChildren(children)))
    else
      var (gone, ok) := WorktreeRemove(r, name, f.removeOk);
      if !ok then (gone, Err(GitFailed))
      else
        var bare := BranchDelete(gone, name, f.deleteOk);
        if !f.saveOk then (bare, Err(SaveFailed))
        else (bare.(parents := bare.parents - {name}), Ok(()))
  }

  /** One project: its repository and the parent links in the saved configuration. */
  class Project {
    var worktrees: seq<string>
    var branches: seq<string>
    var parents: Parents

    ghost function View(): Repo
      reads this
    {
      Repo(worktrees, branches, parents)
    }

    constructor (branches: seq<string>)
      ensures View() == Repo([], branches, map[])
    {
      this.worktrees, this.branches, this.parents := [], branches, map[];
    }

    method GitWorktreeAdd(name: string, create: bool, git: GitAdd) returns (ok: bool)
      modifies this`worktrees, this`branches
      ensures (View(), ok) == WorktreeAdd(old(View()), name, create, git)
    {
      hide BranchRefused, Resolves, PathInUse;
      if create {
        if BranchRefused(branches, name) {
          return false;
        }
      } else if !Resolves(branches, name) {
        return false;
      }
      var attempted := Attempted(worktrees, name, git);
      if create && attempted != Failing(Nothing) {
        branches := branches + [name];
      }
      if MakesWorktree(attempted) {
        worktrees := worktrees + [name];
      }
      return attempted == Done;
    }

    method GitWorktreeRemove(name: string, succeeds: bool) returns (ok: bool)
      modifies this`worktrees
      ensures (View(), ok) == WorktreeRemove(old(View()), name, succeeds)
    {
      ok := succeeds && name in worktrees;
      if ok {
        worktrees := Without(worktrees, name);
      }
    }

    method GitBranchDelete(name: string, succeeds: bool)
      modifies this`branches
      ensures View() == BranchDelete(old(View()), name, succeeds)
    {
      if succeeds && name !in worktrees {
        branches := Without(branches, name);
      }
    }

    method Add(name: string, f: AddFaults) returns (outcome: Outcome)
      modifies this
      ensures (View(), outcome) == Added(old(View()), name, f)
    {
      hide ValidBranchName, FindBranchPrefixConflict, WorktreeAdd;
      if !ValidBranchName(name) {
        return Err(InvalidName);
      }
      if !f.readsOk {
        return Err(ReadFailed);
      }
      var localBranches := Listing(branches, f.disguised);
      var conflict := FindBranchPrefixConflict(localBranches, name);
      if conflict.Some? {
        return Err(PrefixConflict(conflict.value));
      }
      var localExists := name in localBranches;
      var ok := GitWorktreeAdd(name, !localExists, f.git);
      if !ok {
        return Err(GitFailed);
      }
      if !f.saveOk {
        return Err(SaveFailed);
      }
      parents := parents - {name};
      return Ok(());
    }

    method AddStacked(parent: string, name: string, f: StackFaults) returns (outcome: Outcome)
      modifies this
      ensures (View(), outcome) == Stacked(old(View()), parent, name, f)
    {
      hide ValidBranchName, FindBranchPrefixConflict, WorktreeAdd, WorktreeRemove, BranchDelete;
      if !ValidBranchName(name) {
        return Err(InvalidName);
      }
      var listed := if f.listOk then worktrees else [];
      if parent !in listed {
        return Err(ParentNotFound);
      }
      if !f.readsOk {
        return Err(ReadFailed);
      }
      var localBranches := Listing(branches, f.disguised);
      var conflict := FindBranchPrefixConflict(localBranches, name);
      if conflict.Some? {
        return Err(PrefixConflict(conflict.value));
      }
      if name in localBranches {
        return Err(BranchExists);
      }
      if !f.saveOk {
        return Err(SaveFailed);
      }
      parents := parents[name := parent];
      var ok := GitWorktreeAdd(name, true, f.git);
      if ok {
        return Ok(());
      }
      if f.rollbackOk && name in parents && parents[name] == parent {
        parents := parents - {name};
      }
      var _ := GitWorktreeRemove(name, f.removeOk);
      GitBranchDelete(name, f.deleteOk);
      return Err(GitFailed);
    }

    method Remove(name: string, f: RemoveFaults) returns (outcome: Outcome)
      modifies this
      ensures (View(), outcome) == Removed(old(View()), name, f)
    {
      hide ChildrenIn, Normalized, WorktreeRemove, BranchDelete;
      var listed := if f.listOk then worktrees else [];
      var children := DirectStackedChildren(listed, parents, name);
      if children != [] {
        return Err(HasChildren(children));
      }
      var ok := GitWorktreeRemove(name, f.removeOk);
      if !ok {
        return Err(GitFailed);
      }
      GitBranchDelete(name, f.deleteOk);
      if !f.saveOk {
        return Err(SaveFailed);
      }
      parents := parents - {name};
      return Ok(());
    }
  }
}
