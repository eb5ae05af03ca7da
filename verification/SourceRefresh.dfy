/**
  Refreshing the source repository: local changes are stashed, the branch is brought up to
  date, and the changes come back; any git command may fail on the way.

  A change is a number. `git stash` takes the stashable changes only: edits inside a
  submodule, say, show up as local changes but are never stashed.
 */
module SourceRefresh {
  import opened Options

  type Changes = set<nat>

  datatype Entry = Entry(hash: nat, content: Changes)

  datatype State = State(local: Changes, unstashable: Changes, stash: seq<Entry>)

  datatype PushFault = PushOk | PushFails | PushFailsAfterSaving

  datatype ApplyFault = ApplyOk | ApplyFails(partial: Changes)

  datatype Faults = Faults(
    resolveOk: bool, statusOk: bool, push: PushFault, revParseOk: bool, checkoutOk: bool, fetchOk: bool,
    pullOk: bool, apply: ApplyFault, listOk: bool, dropOk: bool)

  datatype Command = Checkout | Fetch | Pull

  datatype Error =
    | NoBaseBranch
    | StashFailed
    | SyncFailed(command: Command, restored: bool)
    | ReapplyFailed

  // --- git -----------------------------------------------------------------------------

  predicate HasLocalChanges(s: State) {
    s.local != {} || s.unstashable != {}
  }

  /** With nothing to stash git reports success and saves no entry. */
  function Push(s: State, hash: nat, fault: PushFault): (State, bool) {
    if s.local == {} || fault.PushFails? then (s, fault.PushOk?)
    else
      var stash := [Entry(hash, s.local)] + s.stash;
      if fault.PushOk? then (s.(local := {}, stash := stash), true) else (s.(stash := stash), false)
  }

  /**
    The position of the first entry with this hash, or the number of entries. The stash list is
    git's, so nothing is shared with the searches of the application's own lists.
   */
  function Find(stash: seq<Entry>, hash: nat): (i: nat)
    ensures i <= |stash|
    ensures i < |stash| ==> stash[i].hash == hash
    ensures forall j :: 0 <= j < i ==> stash[j].hash != hash
  {
    if stash == [] || stash[0].hash == hash then 0 else 1 + Find(stash[1..], hash)
  }

  /** A failing apply may have brought back a part, and keeps the entry. */
  function Apply(s: State, hash: nat, fault: ApplyFault): (State, bool) {
    var i := Find(s.stash, hash);
    if i == |s.stash| then (s, false)
    else match fault
      case ApplyOk => (s.(local := s.local + s.stash[i].content), true)
      case ApplyFails(partial) => (s.(local := s.local + partial), false)
  }

  function Drop(s: State, i: nat, ok: bool): (State, bool)
    requires i < |s.stash|
  {
    if ok then (s.(stash := s.stash[..i] + s.stash[i + 1..]), true) else (s, false)
  }

  // --- the refresh ---------------------------------------------------------------------

  /** The temporary stash: its hash is whatever tops the stash list after the push. */
  function CreatedStash(s: State, hash: nat, f: Faults): (State, Result<Option<nat>, Error>) {
    if !f.statusOk || !HasLocalChanges(s) then (s, Ok(None))
    else
      var (pushed, ok) := Push(s, hash, f.push);
      if !ok || !f.revParseOk || pushed.stash == [] then (pushed, Err(StashFailed))
      else (pushed, Ok(Some(pushed.stash[0].hash)))
  }

  function Restored(s: State, hash: nat, f: Faults): (State, bool) {
    var (applied, ok) := Apply(s, hash, f.apply);
    var i := Find(applied.stash, hash);
    if !ok || !f.listOk || i == |applied.stash| then (applied, false) else Drop(applied, i, f.dropOk)
  }

  /** The first command of the sync that fails, if one does. */
  function FailingCommand(f: Faults): Option<Command> {
    if !f.checkoutOk then Some(Checkout)
    else if !f.fetchOk then Some(Fetch)
    else if !f.pullOk then Some(Pull)
    else None
  }

  function Refreshed(s: State, hash: nat, f: Faults): (State, Result<(), Error>) {
    if !f.resolveOk then (s, Err(NoBaseBranch))
    else
      var (stashed, created) := CreatedStash(s, hash, f);
      if created.Err? then (stashed, Err(created.error))
      else
        var (end, ok) := if created.value.Some? then Restored(stashed, created.value.value, f) else (stashed, true);
        var failing := FailingCommand(f);
        if failing.Some? then (end, Err(SyncFailed(failing.value, ok)))
        else (end, if ok then Ok(()) else Err(ReapplyFailed))
  }

  /** The repository on disk; checkout, fetch, pull and abort touch no local change and no stash entry. */
  class SourceRepo {
    var local: Changes
    var unstashable: Changes
    var stash: seq<Entry>

    ghost function View(): State
      reads this
    {
      State(local, unstashable, stash)
    }

    method StashPush(hash: nat, fault: PushFault) returns (ok: bool)
      modifies this
      ensures (View(), ok) == Push(old(View()), hash, fault)
    {
      if local == {} || fault.PushFails? {
        return fault.PushOk?;
      }
      stash := [Entry(hash, local)] + stash;
      if fault.PushOk? {
        local := {};
      }
      return fault.PushOk?;
    }

    method CreateSourceSyncStash(hash: nat, f: Faults) returns (r: Result<Option<nat>, Error>)
      modifies this
      ensures (View(), r) == CreatedStash(old(View()), hash, f)
    {
      if !f.statusOk || (local == {} && unstashable == {}) {
        return Ok(None);
      }
      var pushed := StashPush(hash, f.push);
      if !pushed {
        return Err(StashFailed);
      }
      if !f.revParseOk || stash == [] {
        return Err(StashFailed);
      }
      return Ok(Some(stash[0].hash));
    }

    method StashApply(hash: nat, fault: ApplyFault) returns (ok: bool)
      modifies this`local
      ensures (View(), ok) == Apply(old(View()), hash, fault)
    {
      var i := Find(stash, hash);
      if i == |stash| {
        return false;
      }
      match fault
      case ApplyOk =>
        local := local + stash[i].content;
        return true;
      case ApplyFails(partial) =>
        local := local + partial;
        return false;
    }

    method RestoreSourceSyncStash(hash: nat, f: Faults) returns (ok: bool)
      modifies this
      ensures (View(), ok) == Restored(old(View()), hash, f)
    {
      var applied := StashApply(hash, f.apply);
      if !applied {
        return false;
      }
      var selector := Find(stash, hash);
      if !f.listOk || selector == |stash| {
        return false;
      }
      if !f.dropOk {
        return false;
      }
      stash := stash[..selector] + stash[selector + 1..];
      return true;
    }

    method RestoreAfterError(created: Option<nat>, command: Command, f: Faults) returns (r: Result<(), Error>)
      modifies this
      ensures created.None? ==> View() == old(View()) && r == Err(SyncFailed(command, true))
      ensures created.Some? ==>
                && View() == Restored(old(View()), created.value, f).0
                && r == Err(SyncFailed(command, Restored(old(View()), created.value, f).1))
    {
      var ok := true;
      if created.Some? {
        ok := RestoreSourceSyncStash(created.value, f);
      }
      return Err(SyncFailed(command, ok));
    }

    method RefreshSourceRepo(hash: nat, f: Faults) returns (r: Result<(), Error>)
      modifies this
      ensures (View(), r) == Refreshed(old(View()), hash, f)
    {
      hide CreatedStash, Restored;
      if !f.resolveOk {
        return Err(NoBaseBranch);
      }
      var created := CreateSourceSyncStash(hash, f);
      if created.Err? {
        return Err(created.error);
      }
      if !f.checkoutOk {
        r := RestoreAfterError(created.value, Checkout, f);
        return;
      }
      if !f.fetchOk {
        r := RestoreAfterError(created.value, Fetch, f);
        return;
      }
      if !f.pullOk {
        r := RestoreAfterError(created.value, Pull, f);
        return;
      }
      if created.value.Some? {
        var ok := RestoreSourceSyncStash(created.value.value, f);
        if !ok {
          return Err(ReapplyFailed);
        }
      }
      return Ok(());
    }
  }

  // --- what survives -------------------------------------------------------------------

  /** No stash entry carries the hash the temporary one will get. */
  ghost predicate Fresh(s: State, hash: nat) {
    forall e :: e in s.stash ==> e.hash != hash
  }

  ghost function TempEntry(s: State, hash: nat): Entry {
    Entry(hash, s.local)
  }

  /** Local changes, none of which can be stashed, above an older stash entry. */
  ghost predicate Confused(s: State) {
    s.local == {} && s.unstashable != {} && s.stash != []
  }

  ghost predicate StashTaken(s: State, f: Faults) {
    f.resolveOk && f.statusOk && HasLocalChanges(s) && f.push.PushOk? && f.revParseOk
  }

  ghost predicate RestoreWorks(f: Faults) {
    f.apply.ApplyOk? && f.listOk && f.dropOk
  }

  /** What a run leaves when there is something to stash, or nothing that looks like a change. */
  lemma EndState(s: State, hash: nat, f: Faults)
    requires Fresh(s, hash) && !(StashTaken(s, f) && Confused(s))
    ensures var end := Refreshed(s, hash, f).0;
            || end == s
            || (end.stash == [TempEntry(s, hash)] + s.stash && end.unstashable == s.unstashable)
    ensures Refreshed(s, hash, f).1.Ok? ==> Refreshed(s, hash, f).0 == s
  {
  }

  /** The older entry is mistaken for the temporary one: applied, and dropped when that works. */
  lemma ConfusedEnd(s: State, hash: nat, f: Faults)
    requires StashTaken(s, f) && Confused(s)
    ensures var end := Refreshed(s, hash, f).0;
            && end.unstashable == s.unstashable
            && end.stash == (if RestoreWorks(f) then s.stash[1..] else s.stash)
            && (f.apply.ApplyOk? ==> end.local == s.stash[0].content)
  {
  }

  lemma FailingCommandIsFirst(f: Faults)
    ensures FailingCommand(f).None? <==> f.checkoutOk && f.fetchOk && f.pullOk
    ensures FailingCommand(f) == Some(Checkout) <==> !f.checkoutOk
    ensures FailingCommand(f) == Some(Fetch) <==> f.checkoutOk && !f.fetchOk
    ensures FailingCommand(f) == Some(Pull) <==> f.checkoutOk && f.fetchOk && !f.pullOk
  {
  }

  /** The report after the sync: its failing command, and whether the changes came back as they should. */
  ghost predicate Reports(r: Result<(), Error>, f: Faults, restored: bool) {
    && (r.Ok? <==> f.checkoutOk && f.fetchOk && f.pullOk && restored)
    && (r == Err(ReapplyFailed) <==> f.checkoutOk && f.fetchOk && f.pullOk && !restored)
    && (r == Err(SyncFailed(Checkout, restored)) <==> !f.checkoutOk)
    && (r == Err(SyncFailed(Fetch, restored)) <==> f.checkoutOk && !f.fetchOk)
    && (r == Err(SyncFailed(Pull, restored)) <==> f.checkoutOk && f.fetchOk && !f.pullOk)
  }

  /** Nothing was stashed: the state is as it was, whatever else fails. */
  lemma OutcomeWithoutStash(s: State, hash: nat, f: Faults)
    ensures !f.resolveOk ==> Refreshed(s, hash, f) == (s, Err(NoBaseBranch))
    ensures f.resolveOk && (!f.statusOk || (s.local == {} && s.unstashable == {})) ==>
              Refreshed(s, hash, f).0 == s && Reports(Refreshed(s, hash, f).1, f, true)
  {
  }

  /**
    With something to stash, for every failure pattern: where the changes are afterwards, whether
    the temporary entry is still there, and what is reported.
   */
  lemma OutcomeWithStash(s: State, hash: nat, f: Faults)
    requires Fresh(s, hash) && f.resolveOk && f.statusOk && s.local != {}
    ensures var (end, r) := Refreshed(s, hash, f);
            var kept := [Entry(hash, s.local)] + s.stash;
            match f.push
            case PushFails => end == s && r == Err(StashFailed)
            case PushFailsAfterSaving => end == s.(stash := kept) && r == Err(StashFailed)
            case PushOk =>
              if !f.revParseOk then end == State({}, s.unstashable, kept) && r == Err(StashFailed)
              else match f.apply
                case ApplyFails(partial) => end == State(partial, s.unstashable, kept) && Reports(r, f, false)
                case ApplyOk =>
                  if f.listOk && f.dropOk then end == s && Reports(r, f, true)
                  else end == s.(stash := kept) && Reports(r, f, false)
  {
    if f.push.PushOk? && f.revParseOk {
      var stashed := State({}, s.unstashable, [Entry(hash, s.local)] + s.stash);
      assert CreatedStash(s, hash, f) == (stashed, Ok(Some(hash)));
      assert stashed.stash[0].hash == hash && Find(stashed.stash, hash) == 0;
      assert stashed.stash[..0] + stashed.stash[1..] == s.stash;
      assert {} + s.local == s.local;
      hide CreatedStash, Find;
      if f.apply.ApplyFails? {
        assert {} + f.apply.partial == f.apply.partial;
      }
    }
  }

  /** With changes of which none can be stashed, the same; an older entry stands in for the temporary one. */
  lemma OutcomeWhenConfused(s: State, hash: nat, f: Faults)
    requires f.resolveOk && f.statusOk && s.local == {} && s.unstashable != {}
    ensures var (end, r) := Refreshed(s, hash, f);
            if !f.push.PushOk? || !f.revParseOk || s.stash == [] then end == s && r == Err(StashFailed)
            else match f.apply
              case ApplyFails(partial) => end == s.(local := partial) && Reports(r, f, false)
              case ApplyOk =>
                if f.listOk && f.dropOk then
                  end == State(s.stash[0].content, s.unstashable, s.stash[1..]) && Reports(r, f, true)
                else end == s.(local := s.stash[0].content) && Reports(r, f, false)
  {
    if f.push.PushOk? && f.revParseOk && s.stash != [] {
      assert CreatedStash(s, hash, f) == (s, Ok(Some(s.stash[0].hash)));
      assert Find(s.stash, s.stash[0].hash) == 0;
      assert s.stash[..0] + s.stash[1..] == s.stash[1..];
      hide CreatedStash, Find;
    }
  }

  /** At every return the local changes are in the working tree or in the temporary entry. */
  lemma LocalChangesSurvive(s: State, hash: nat, f: Faults)
    requires Fresh(s, hash)
    ensures var end := Refreshed(s, hash, f).0;
            && end.unstashable == s.unstashable
            && (s.local <= end.local || TempEntry(s, hash) in end.stash)
  {
    if StashTaken(s, f) && Confused(s) {
      ConfusedEnd(s, hash, f);
    } else {
      EndState(s, hash, f);
      assert ([TempEntry(s, hash)] + s.stash)[0] == TempEntry(s, hash);
    }
    hide Refreshed;
  }

  /** Every earlier entry is still there, in order, below at most the temporary one. */
  ghost predicate EarlierEntriesKept(s: State, hash: nat, f: Faults) {
    var end := Refreshed(s, hash, f).0;
    end.stash == s.stash || end.stash == [TempEntry(s, hash)] + s.stash
  }

  lemma EarlierEntriesKeptIff(s: State, hash: nat, f: Faults)
    requires Fresh(s, hash)
    ensures EarlierEntriesKept(s, hash, f) <==> !(Confused(s) && StashTaken(s, f) && RestoreWorks(f))
  {
    if StashTaken(s, f) && Confused(s) {
      ConfusedEnd(s, hash, f);
    } else {
      EndState(s, hash, f);
    }
    hide Refreshed;
  }

  /** The caller's check: nothing can be lost from the stash list exactly when it is not confused. */
  lemma EarlierEntriesSafeIff(s: State)
    ensures (forall hash, f :: Fresh(s, hash) ==> EarlierEntriesKept(s, hash, f)) <==> !Confused(s)
  {
    if Confused(s) {
      var hash := FreshHash(s.stash);
      var f := Faults(true, true, PushOk, true, true, true, true, ApplyOk, true, true);
      EarlierEntriesKeptIff(s, hash, f);
      assert Fresh(s, hash) && !EarlierEntriesKept(s, hash, f);
    } else {
      forall hash, f | Fresh(s, hash)
        ensures EarlierEntriesKept(s, hash, f)
      {
        EarlierEntriesKeptIff(s, hash, f);
      }
    }
    hide EarlierEntriesKept;
  }

  lemma {:induction false} FreshHash(stash: seq<Entry>) returns (hash: nat)
    ensures forall e :: e in stash ==> e.hash < hash
  {
    if stash == [] {
      hash := 0;
    } else {
      var below := FreshHash(stash[1..]);
      hash := if below > stash[0].hash then below else stash[0].hash + 1;
    }
  }

  /** A refresh that reports success left the changes and the stash list as they were. */
  lemma SuccessLeavesNoTraceIff(s: State, hash: nat, f: Faults)
    requires Fresh(s, hash) && Refreshed(s, hash, f).1.Ok?
    ensures Refreshed(s, hash, f).0 == s <==> !(f.statusOk && Confused(s))
  {
  }

  /** It succeeds exactly when every command it needs does. */
  lemma SucceedsIff(s: State, hash: nat, f: Faults)
    requires Fresh(s, hash)
    ensures Refreshed(s, hash, f).1.Ok?
            <==> && f.resolveOk && f.checkoutOk && f.fetchOk && f.pullOk
                 && (f.statusOk && HasLocalChanges(s) ==>
                       f.push.PushOk? && f.revParseOk && RestoreWorks(f) && (s.local != {} || s.stash != []))
  {
  }
}
