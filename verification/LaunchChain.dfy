/**
  The launcher's choice of the real binary, and the chain it starts when that binary runs
  the tool by name again: grove's wrapper launches once more, in the inherited environment.

  Paths are byte strings. The skip list and the stripped PATH are handed on as text, so bytes
  that are no UTF-8 are replaced on the way.
 */
module LaunchChain {
  import opened Bytes
  import opened Integers
  import opened Options
  import Utf8

  const DEPTH_CAP: nat := 8

  type OsString = seq<Byte>

  const COLON: Byte := 58
  const SLASH: Byte := 47

  /** What the file system says of a path; a path without a canonical form does not resolve. */
  datatype World = World(
    canonical: OsString -> Option<OsString>, executable: OsString -> bool, marked: OsString -> bool)

  /** The variables handed from one launcher to the next. */
  datatype Env = Env(path: Option<OsString>, skip: Option<OsString>, depth: nat)

  /** Where the launcher itself lives; the same for the whole chain. */
  datatype Home = Home(groveBin: Option<OsString>, selfDir: Option<OsString>, selfExe: Option<OsString>)

  datatype Context = Context(path: seq<OsString>, home: Home, skip: seq<OsString>, depth: nat)

  // --- path lists ----------------------------------------------------------------------

  /** Split at colons: always at least one piece, which may be empty. */
  function SplitPaths(s: OsString): (r: seq<OsString>)
    ensures r != [] && forall p :: p in r ==> COLON !in p
  {
    if s == [] then [[]]
    else
      var rest := SplitPaths(s[1..]);
      if s[0] == COLON then [[]] + rest else [[s[0]] + rest[0]] + rest[1..]
  }

  function Colons(paths: seq<OsString>): OsString {
    if paths == [] then [] else if |paths| == 1 then paths[0] else paths[0] + [COLON] + Colons(paths[1..])
  }

  predicate Joinable(paths: seq<OsString>) {
    forall p :: p in paths ==> COLON !in p
  }

  /** The list as text; a path that itself holds a colon cannot be put in a list. */
  function JoinPaths(paths: seq<OsString>): Option<OsString> {
    if Joinable(paths) then Some(Utf8.Lossy(Colons(paths))) else None
  }

  function LossyEach(paths: seq<OsString>): (r: seq<OsString>)
    ensures |r| == |paths| && forall i :: 0 <= i < |r| ==> r[i] == Utf8.Lossy(paths[i])
  {
    seq(|paths|, i requires 0 <= i < |paths| => Utf8.Lossy(paths[i]))
  }

  ghost predicate AllText(paths: seq<OsString>) {
    forall p :: p in paths ==> Utf8.Valid(p)
  }

  lemma TextIsKept(paths: seq<OsString>)
    ensures LossyEach(paths) == paths <==> AllText(paths)
  {
    hide Utf8.Lossy, Utf8.Valid;
    forall i | 0 <= i < |paths|
      ensures LossyEach(paths)[i] == paths[i] <==> Utf8.Valid(paths[i])
    {
      Utf8.LossyKeepsIff(paths[i]);
    }
    if LossyEach(paths) == paths {
      forall p | p in paths
        ensures Utf8.Valid(p)
      {
        var i :| 0 <= i < |paths| && paths[i] == p;
        assert LossyEach(paths)[i] == paths[i];
      }
    }
  }

  lemma LossyEachIsText(paths: seq<OsString>)
    ensures AllText(LossyEach(paths))
  {
    hide Utf8.Lossy, Utf8.Valid;
    forall p | p in LossyEach(paths)
      ensures Utf8.Valid(p)
    {
      var i :| 0 <= i < |paths| && LossyEach(paths)[i] == p;
      Utf8.LossyIsValid(paths[i]);
    }
  }

  lemma {:induction false} SplitPiece(piece: OsString, rest: OsString)
    requires COLON !in piece
    ensures SplitPaths(piece + [COLON] + rest) == [piece] + SplitPaths(rest)
    ensures SplitPaths(piece) == [piece]
  {
    if piece == [] {
      assert (piece + [COLON] + rest)[1..] == rest;
    } else {
      assert (piece + [COLON] + rest)[1..] == piece[1..] + [COLON] + rest;
      SplitPiece(piece[1..], rest);
      assert [piece[0]] + piece[1..] == piece;
    }
  }

  /** What was joined is read back piece by piece, as text; an empty list comes back as one empty path. */
  lemma {:induction false} JoinedSplitsBack(paths: seq<OsString>)
    requires JoinPaths(paths).Some?
    ensures SplitPaths(JoinPaths(paths).value) == if paths == [] then [[]] else LossyEach(paths)
  {
    hide Utf8.Lossy;
    if paths == [] {
      Utf8.LossyKeepsValid([]);
    } else {
      assert paths[0] in paths;
      Utf8.LossyAddsNoAscii(paths[0], COLON);
      if |paths| == 1 {
        SplitPiece(Utf8.Lossy(paths[0]), []);
        assert LossyEach(paths) == [Utf8.Lossy(paths[0])];
      } else {
        var rest := paths[1..];
        Utf8.LossyAround(paths[0], COLON, Colons(rest));
        SplitPiece(Utf8.Lossy(paths[0]), Utf8.Lossy(Colons(rest)));
        JoinedSplitsBack(rest);
        assert LossyEach(paths) == [Utf8.Lossy(paths[0])] + LossyEach(rest);
      }
    }
  }

  lemma {:induction false} SplitJoinsBack(s: OsString)
    ensures Colons(SplitPaths(s)) == s
  {
    if s == [] {
    } else {
      SplitJoinsBack(s[1..]);
      var rest := SplitPaths(s[1..]);
      if s[0] == COLON {
        assert ([[]] + rest)[1..] == rest;
        assert [] + [COLON] + s[1..] == s;
      } else {
        var pieces := [[s[0]] + rest[0]] + rest[1..];
        assert pieces[1..] == rest[1..];
        assert Colons(pieces) == [s[0]] + Colons(rest) by {
          if |rest| > 1 {
            assert ([s[0]] + rest[0]) + [COLON] + Colons(rest[1..]) == [s[0]] + (rest[0] + [COLON] + Colons(rest[1..]));
          }
        }
      }
    }
  }

  /** A list that is text is made of text. */
  lemma PiecesAreText(s: OsString)
    requires Utf8.Valid(s)
    ensures AllText(SplitPaths(s))
  {
    var pieces := SplitPaths(s);
    SplitJoinsBack(s);
    JoinedSplitsBack(pieces);
    Utf8.LossyKeepsValid(s);
    TextIsKept(pieces);
    hide *;
  }

  function ContextOf(env: Env, home: Home): Context {
    Context(
      if env.path.Some? then SplitPaths(env.path.value) else [],
      home,
      if env.skip.Some? then SplitPaths(env.skip.value) else [],
      env.depth)
  }

  function Candidate(dir: OsString, tool: OsString): OsString {
    if dir == [] || dir[|dir| - 1] == SLASH then dir + tool else dir + [SLASH] + tool
  }

  // --- the choice ----------------------------------------------------------------------

  /** `dir` offers the tool, and none of the exclusions applies to it. */
  predicate Acceptable(w: World, ctx: Context, tool: OsString, dir: OsString) {
    var candidate := Candidate(dir, tool);
    && (w.canonical(dir).Some? ==> w.canonical(dir) != ctx.home.groveBin && w.canonical(dir) != ctx.home.selfDir)
    && w.executable(candidate)
    && (w.canonical(candidate).Some? ==>
          && w.canonical(candidate) != ctx.home.selfExe
          && (ctx.depth < DEPTH_CAP ==> w.canonical(candidate).value !in ctx.skip))
    && !w.marked(candidate)
  }

  function FirstAcceptable(w: World, ctx: Context, tool: OsString, dirs: seq<OsString>): Option<OsString> {
    if dirs == [] then None
    else if Acceptable(w, ctx, tool, dirs[0]) then Some(Candidate(dirs[0], tool))
    else FirstAcceptable(w, ctx, tool, dirs[1..])
  }

  function RealBinary(w: World, ctx: Context, tool: OsString): Option<OsString> {
    FirstAcceptable(w, ctx, tool, ctx.path)
  }

  lemma {:induction false} FirstAcceptableIsFirst(w: World, ctx: Context, tool: OsString, dirs: seq<OsString>)
    ensures FirstAcceptable(w, ctx, tool, dirs).None? <==>
              forall i :: 0 <= i < |dirs| ==> !Acceptable(w, ctx, tool, dirs[i])
    ensures FirstAcceptable(w, ctx, tool, dirs).Some? ==>
              exists i :: 0 <= i < |dirs| && IsFirst(w, ctx, tool, dirs, i)
                          && FirstAcceptable(w, ctx, tool, dirs).value == Candidate(dirs[i], tool)
  {
    hide Acceptable, Candidate;
    if dirs != [] && !Acceptable(w, ctx, tool, dirs[0]) {
      FirstAcceptableIsFirst(w, ctx, tool, dirs[1..]);
      if FirstAcceptable(w, ctx, tool, dirs[1..]).Some? {
        var i :| 0 <= i < |dirs| - 1 && IsFirst(w, ctx, tool, dirs[1..], i)
                 && FirstAcceptable(w, ctx, tool, dirs[1..]).value == Candidate(dirs[1..][i], tool);
        forall j | 0 <= j < i + 1
          ensures !Acceptable(w, ctx, tool, dirs[j])
        {
          if j > 0 {
            assert dirs[1..][j - 1] == dirs[j];
          }
        }
        assert IsFirst(w, ctx, tool, dirs, i + 1);
      } else {
        forall j | 0 <= j < |dirs|
          ensures !Acceptable(w, ctx, tool, dirs[j])
        {
          if j > 0 {
            assert dirs[1..][j - 1] == dirs[j];
          }
        }
      }
    } else if dirs != [] {
      assert IsFirst(w, ctx, tool, dirs, 0);
    }
  }

  ghost predicate IsFirst(w: World, ctx: Context, tool: OsString, dirs: seq<OsString>, i: nat)
    requires i < |dirs|
  {
    Acceptable(w, ctx, tool, dirs[i]) && forall j :: 0 <= j < i ==> !Acceptable(w, ctx, tool, dirs[j])
  }

  /** The first acceptable binary on the path, as found there; none exactly when there is none. */
  method FindRealBinary(w: World, ctx: Context, tool: OsString) returns (r: Option<OsString>)
    ensures r == RealBinary(w, ctx, tool)
    ensures r.None? <==> forall i :: 0 <= i < |ctx.path| ==> !Acceptable(w, ctx, tool, ctx.path[i])
    ensures r.Some? ==>
              exists i :: 0 <= i < |ctx.path| && IsFirst(w, ctx, tool, ctx.path, i)
                          && r.value == Candidate(ctx.path[i], tool)
  {
    FirstAcceptableIsFirst(w, ctx, tool, ctx.path);
    var honorSkip := ctx.depth < DEPTH_CAP;
    var n := 0;
    assert ctx.path[0..] == ctx.path;
    while n < |ctx.path|
      invariant n <= |ctx.path|
      invariant FirstAcceptable(w, ctx, tool, ctx.path[n..]) == RealBinary(w, ctx, tool)
    {
      hide IsFirst, Candidate;
      var dir := ctx.path[n];
      assert ctx.path[n..][1..] == ctx.path[n + 1..];
      n := n + 1;
      var canonDir := w.canonical(dir);
      if canonDir.Some? {
        if canonDir == ctx.home.groveBin || canonDir == ctx.home.selfDir {
          continue;
        }
      }
      var candidate := Candidate(dir, tool);
      if !w.executable(candidate) {
        continue;
      }
      var canon := w.canonical(candidate);
      if canon.Some? {
        if canon == ctx.home.selfExe {
          continue;
        }
        if honorSkip && canon.value in ctx.skip {
          continue;
        }
      }
      if w.marked(candidate) {
        continue;
      }
      return Some(candidate);
    }
    return None;
  }

  /**
    The choice in plain terms: a file in a PATH directory that is neither grove's nor the
    launcher's own, executable, not the launcher, unmarked and below the cap not skipped; no
    earlier directory offers one, and there is none only if no directory does.
   */
  lemma ChoiceInPlainTerms(w: World, ctx: Context, tool: OsString)
    ensures var excluded := (dir: OsString) =>
              || (w.canonical(dir).Some?
                  && (w.canonical(dir) == ctx.home.groveBin || w.canonical(dir) == ctx.home.selfDir))
              || !w.executable(Candidate(dir, tool))
              || (w.canonical(Candidate(dir, tool)).Some? && w.canonical(Candidate(dir, tool)) == ctx.home.selfExe)
              || (ctx.depth < 8 && w.canonical(Candidate(dir, tool)).Some?
                  && w.canonical(Candidate(dir, tool)).value in ctx.skip)
              || w.marked(Candidate(dir, tool));
            && (RealBinary(w, ctx, tool).None? <==> forall i :: 0 <= i < |ctx.path| ==> excluded(ctx.path[i]))
            && (RealBinary(w, ctx, tool).Some? ==>
                  exists i :: 0 <= i < |ctx.path|
                              && !excluded(ctx.path[i]) && (forall j :: 0 <= j < i ==> excluded(ctx.path[j]))
                              && RealBinary(w, ctx, tool).value == Candidate(ctx.path[i], tool))
  {
    FirstAcceptableIsFirst(w, ctx, tool, ctx.path);
    hide FirstAcceptable, Candidate;
    if RealBinary(w, ctx, tool).Some? {
      var i :| 0 <= i < |ctx.path| && IsFirst(w, ctx, tool, ctx.path, i)
               && RealBinary(w, ctx, tool).value == Candidate(ctx.path[i], tool);
      assert Acceptable(w, ctx, tool, ctx.path[i]);
    }
  }

  /** The candidate is the tool inside the directory. */
  lemma CandidateIsInside(dir: OsString, tool: OsString)
    ensures dir == [] ==> Candidate(dir, tool) == tool
    ensures dir != [] && dir[|dir| - 1] == SLASH ==> Candidate(dir, tool) == dir + tool
    ensures dir != [] && dir[|dir| - 1] != SLASH ==> Candidate(dir, tool) == dir + [SLASH] + tool
  {
  }

  // --- the child's environment ---------------------------------------------------------

  function Kept(w: World, groveBin: Option<OsString>, dirs: seq<OsString>): seq<OsString> {
    if dirs == [] then []
    else (if w.canonical(dirs[0]) != groveBin then [dirs[0]] else []) + Kept(w, groveBin, dirs[1..])
  }

  lemma {:induction false} KeptHolds(w: World, groveBin: Option<OsString>, dirs: seq<OsString>)
    ensures forall d :: d in Kept(w, groveBin, dirs) <==> d in dirs && w.canonical(d) != groveBin
  {
    if dirs == [] {
    } else {
      KeptHolds(w, groveBin, dirs[1..]);
    }
  }

  /** Stripping keeps the order: it works piece by piece. */
  lemma {:induction false} KeptPieceByPiece(w: World, groveBin: Option<OsString>, a: seq<OsString>, b: seq<OsString>)
    ensures Kept(w, groveBin, a + b) == Kept(w, groveBin, a) + Kept(w, groveBin, b)
  {
    if a == [] {
      assert a + b == b;
    } else {
      var first := if w.canonical(a[0]) != groveBin then [a[0]] else [];
      assert (a + b)[1..] == a[1..] + b;
      KeptPieceByPiece(w, groveBin, a[1..], b);
      assert Kept(w, groveBin, a + b) == first + (Kept(w, groveBin, a[1..]) + Kept(w, groveBin, b));
    }
  }

  /** And drops grove's directories, no others. */
  lemma KeptOne(w: World, groveBin: Option<OsString>, dir: OsString)
    ensures Kept(w, groveBin, [dir]) == if w.canonical(dir) == groveBin then [] else [dir]
  {
    assert [dir][1..] == [];
  }

  function ChildPath(w: World, ctx: Context): Option<OsString> {
    if ctx.depth < DEPTH_CAP then None else JoinPaths(Kept(w, ctx.home.groveBin, ctx.path))
  }

  function ExtendedSkip(skip: seq<OsString>, canon: Option<OsString>): seq<OsString> {
    if canon.Some? && canon.value !in skip then skip + [canon.value] else skip
  }

  /** Each skip is listed once, after the earlier ones, and only for the binary chosen. */
  lemma SkipsAreListedOnce(skip: seq<OsString>, canon: Option<OsString>)
    requires forall i, j :: 0 <= i < j < |skip| ==> skip[i] != skip[j]
    ensures var longer := ExtendedSkip(skip, canon);
            && skip <= longer
            && (forall p :: p in longer <==> p in skip || canon == Some(p))
            && forall i, j :: 0 <= i < j < |longer| ==> longer[i] != longer[j]
  {
  }

  function ChildSkip(w: World, ctx: Context, chosen: OsString): Option<OsString> {
    JoinPaths(ExtendedSkip(ctx.skip, w.canonical(chosen)))
  }

  /** The environment the chosen binary inherits. */
  function ChildEnv(w: World, home: Home, env: Env, chosen: OsString): Env {
    var ctx := ContextOf(env, home);
    Env(
      if ChildPath(w, ctx).Some? then ChildPath(w, ctx) else env.path,
      if ChildSkip(w, ctx, chosen).Some? then ChildSkip(w, ctx, chosen) else env.skip,
      (env.depth + 1) % U32)
  }

  /** The file the launcher turns into: the chosen one only if its path is text. */
  function Image(chosen: OsString): OsString {
    Utf8.Lossy(chosen)
  }

  /** The launcher process just before it becomes the chosen binary. */
  class Process {
    var path: Option<OsString>
    var skip: Option<OsString>
    var depth: nat

    ghost function View(): Env
      reads this
    {
      Env(path, skip, depth)
    }

    /**
      The context was read when the launcher started; the variables are set one after another.
      The path handed to `execv` goes through text as well.
     */
    method Exec(w: World, ctx: Context, chosen: OsString) returns (image: OsString)
      requires ctx == ContextOf(View(), ctx.home)
      modifies this
      ensures View() == ChildEnv(w, ctx.home, old(View()), chosen)
      ensures image == Image(chosen)
      ensures image == chosen <==> Utf8.Valid(chosen)
    {
      Utf8.LossyKeepsIff(chosen);
      hide SplitPaths, JoinPaths, Kept;
      depth := (ctx.depth + 1) % U32;
      var childSkip := ChildSkip(w, ctx, chosen);
      if childSkip.Some? {
        skip := childSkip;
      }
      var childPath := ChildPath(w, ctx);
      if childPath.Some? {
        path := childPath;
      }
      return Utf8.Lossy(chosen);
    }
  }

  /** Below the cap the child keeps the whole path, grove's directory included. */
  lemma PathUnchangedBelowTheCap(w: World, home: Home, env: Env, chosen: OsString)
    requires env.depth < DEPTH_CAP
    ensures ChildEnv(w, home, env, chosen).path == env.path
  {
  }

  /** At the cap it keeps, in order, the directories that are not grove's; unchanged if all are text. */
  lemma PathStrippedAtTheCap(w: World, home: Home, env: Env, chosen: OsString)
    requires DEPTH_CAP <= env.depth
    ensures var kept := Kept(w, home.groveBin, ContextOf(env, home).path);
            var after := ContextOf(ChildEnv(w, home, env, chosen), home).path;
            && after == (if kept == [] then [[]] else LossyEach(kept))
            && (kept != [] ==> (after == kept <==> AllText(kept)))
  {
    var kept := Kept(w, home.groveBin, ContextOf(env, home).path);
    KeptHolds(w, home.groveBin, ContextOf(env, home).path);
    assert Joinable(kept);
    JoinedSplitsBack(kept);
    TextIsKept(kept);
    hide SplitPaths, Kept, LossyEach, AllText;
  }

  /** The stripped path is text. */
  lemma StrippedPathIsText(w: World, home: Home, env: Env, chosen: OsString)
    requires DEPTH_CAP <= env.depth
    ensures PathIsText(ChildEnv(w, home, env, chosen))
  {
    var kept := Kept(w, home.groveBin, ContextOf(env, home).path);
    KeptHolds(w, home.groveBin, ContextOf(env, home).path);
    assert Joinable(kept);
    Utf8.LossyIsValid(Colons(kept));
    hide SplitPaths, Kept, Utf8.Valid, Utf8.Lossy, Colons;
  }

  /** A name for a binary that the skip list can carry. */
  ghost predicate Carries(canon: OsString) {
    COLON !in canon && Utf8.Valid(canon)
  }

  lemma CarriedThrough(paths: seq<OsString>, p: OsString)
    requires p in paths && Utf8.Valid(p)
    ensures p in LossyEach(paths)
  {
    var i :| 0 <= i < |paths| && paths[i] == p;
    Utf8.LossyKeepsValid(p);
    assert LossyEach(paths)[i] == p;
    hide Utf8.Valid, Utf8.Lossy;
  }

  /**
    Skips that are text are never forgotten, and the chosen binary joins them exactly when its
    canonical path holds no colon and is UTF-8.
   */
  lemma SkipGrowsIff(w: World, home: Home, env: Env, chosen: OsString, p: OsString)
    ensures var before, after := ContextOf(env, home).skip, ContextOf(ChildEnv(w, home, env, chosen), home).skip;
            && (p in before && Utf8.Valid(p) ==> p in after)
            && (w.canonical(chosen).Some? ==>
                  (w.canonical(chosen).value in after <==> Carries(w.canonical(chosen).value)))
  {
    var before := ContextOf(env, home).skip;
    var longer := ExtendedSkip(before, w.canonical(chosen));
    assert Joinable(before);
    if Joinable(longer) {
      JoinedSplitsBack(longer);
      LossyEachIsText(longer);
      if p in before && Utf8.Valid(p) {
        CarriedThrough(longer, p);
      }
      if w.canonical(chosen).Some? && Utf8.Valid(w.canonical(chosen).value) {
        assert w.canonical(chosen).value in longer;
        CarriedThrough(longer, w.canonical(chosen).value);
      }
    }
    hide SplitPaths, Colons, Utf8.Valid, Utf8.Lossy, LossyEach;
  }

  // --- chains --------------------------------------------------------------------------

  /** By name the tool can lead back to a launcher: grove's directory is on the path. */
  ghost predicate Reenters(w: World, home: Home, env: Env) {
    exists dir :: dir in ContextOf(env, home).path && home.groveBin.Some? && w.canonical(dir) == home.groveBin
  }

  /** The launcher finds a binary, can execute it, and its environment leads back to the next launcher. */
  ghost predicate Leads(w: World, home: Home, tool: OsString, env: Env, next: Env) {
    && RealBinary(w, ContextOf(env, home), tool).Some?
    && w.executable(Image(RealBinary(w, ContextOf(env, home), tool).value))
    && next == ChildEnv(w, home, env, RealBinary(w, ContextOf(env, home), tool).value)
    && Reenters(w, home, next)
  }

  /** A chain of launchers, one environment each, inherited unchanged by the binaries between them. */
  ghost predicate Chain(w: World, home: Home, tool: OsString, envs: seq<Env>) {
    forall i :: 0 < i < |envs| ==> Leads(w, home, tool, envs[i - 1], envs[i])
  }

  ghost predicate PathIsText(env: Env) {
    env.path.Some? ==> Utf8.Valid(env.path.value)
  }

  /** A directory that is not grove's, but is once its bytes are replaced. */
  ghost predicate IsAlias(w: World, groveBin: Option<OsString>, dir: OsString) {
    w.canonical(dir) != groveBin && w.canonical(Utf8.Lossy(dir)) == groveBin
  }

  /** One of the kept directories leads to grove's directory after all. */
  ghost predicate Aliased(w: World, home: Home, env: Env) {
    home.groveBin.Some? && exists dir :: dir in ContextOf(env, home).path && IsAlias(w, home.groveBin, dir)
  }

  lemma AliasesGetThrough(w: World, groveBin: Option<OsString>, dirs: seq<OsString>)
    ensures var kept := Kept(w, groveBin, dirs);
            (exists d :: d in LossyEach(kept) && w.canonical(d) == groveBin)
            <==> exists dir :: dir in dirs && IsAlias(w, groveBin, dir)
  {
    hide Utf8.Lossy, Kept;
    var kept := Kept(w, groveBin, dirs);
    KeptHolds(w, groveBin, dirs);
    var after := LossyEach(kept);
    if dir :| dir in dirs && IsAlias(w, groveBin, dir) {
      var i :| 0 <= i < |kept| && kept[i] == dir;
      assert after[i] in after && w.canonical(after[i]) == groveBin;
    }
    if d :| d in after && w.canonical(d) == groveBin {
      var i :| 0 <= i < |after| && after[i] == d;
      assert kept[i] in kept && IsAlias(w, groveBin, kept[i]);
    }
  }

  /** At the cap the chain can go on exactly through such an alias. */
  lemma LastAtTheCapIff(w: World, home: Home, env: Env, chosen: OsString)
    requires w.canonical([]).None? && DEPTH_CAP <= env.depth
    ensures Reenters(w, home, ChildEnv(w, home, env, chosen)) <==> Aliased(w, home, env)
  {
    PathStrippedAtTheCap(w, home, env, chosen);
    AliasesGetThrough(w, home.groveBin, ContextOf(env, home).path);
    hide ChildEnv, SplitPaths, Utf8.Lossy, IsAlias, LossyEach, Kept, AllText;
    if home.groveBin.Some? && Kept(w, home.groveBin, ContextOf(env, home).path) == [] {
      assert LossyEach([]) == [];
    }
  }

  lemma TextHasNoAlias(w: World, home: Home, env: Env)
    requires PathIsText(env)
    ensures !Aliased(w, home, env)
  {
    if env.path.Some? {
      PiecesAreText(env.path.value);
    }
    forall dir | dir in ContextOf(env, home).path
      ensures Utf8.Lossy(dir) == dir
    {
      Utf8.LossyKeepsValid(dir);
    }
    hide SplitPaths, Utf8.Valid, Utf8.Lossy;
  }

  /** The rest of a chain is a chain, one hop deeper. */
  lemma OneHopOn(w: World, home: Home, tool: OsString, envs: seq<Env>) returns (chosen: OsString)
    requires Chain(w, home, tool, envs) && |envs| > 1
    ensures envs[1] == ChildEnv(w, home, envs[0], chosen) && Reenters(w, home, envs[1])
    ensures envs[1].depth == (envs[0].depth + 1) % U32
    ensures Chain(w, home, tool, envs[1..])
  {
    hide RealBinary, Reenters, ContextOf, ChildPath, ChildSkip;
    assert Leads(w, home, tool, envs[0], envs[1]);
    chosen := RealBinary(w, ContextOf(envs[0], home), tool).value;
    forall i | 0 < i < |envs[1..]|
      ensures Leads(w, home, tool, envs[1..][i - 1], envs[1..][i])
    {
      assert Leads(w, home, tool, envs[i], envs[i + 1]);
    }
  }

  /** How many launchers a chain begun at this depth can have. */
  function Launches(depth: nat): nat {
    if depth < DEPTH_CAP then DEPTH_CAP - depth + 1 else 1
  }

  lemma {:induction false} TextChainsAreShort(w: World, home: Home, tool: OsString, envs: seq<Env>)
    requires Chain(w, home, tool, envs) && envs != [] && w.canonical([]).None? && PathIsText(envs[0])
    ensures |envs| <= Launches(envs[0].depth)
    decreases |envs|
  {
    if |envs| == 1 {
    } else {
      hide Chain, ChildEnv, Reenters, Aliased, PathIsText;
      var chosen := OneHopOn(w, home, tool, envs);
      if DEPTH_CAP <= envs[0].depth {
        LastAtTheCapIff(w, home, envs[0], chosen);
        TextHasNoAlias(w, home, envs[0]);
      } else {
        PathUnchangedBelowTheCap(w, home, envs[0], chosen);
        SamePathIsText(envs[0], envs[1]);
        TextChainsAreShort(w, home, tool, envs[1..]);
      }
    }
  }

  lemma SamePathIsText(env: Env, next: Env)
    requires PathIsText(env) && next.path == env.path
    ensures PathIsText(next)
  {
  }

  /** What a chain gains when the first stripping lets it through an alias. */
  function SecondWind(depth: nat): nat {
    Launches(((if depth < DEPTH_CAP then DEPTH_CAP else depth) + 1) % U32)
  }

  /**
    A chain that starts at depth 0 has at most `DEPTH_CAP + 1` launchers when PATH is text, and
    one begun at the cap has one; whatever PATH holds, an alias lengthens it only once.
   */
  lemma {:induction false} ChainsAreShort(w: World, home: Home, tool: OsString, envs: seq<Env>)
    requires Chain(w, home, tool, envs) && envs != [] && w.canonical([]).None?
    ensures PathIsText(envs[0]) ==> |envs| <= Launches(envs[0].depth)
    ensures |envs| <= Launches(envs[0].depth) + SecondWind(envs[0].depth)
    ensures |envs| <= 10 && (PathIsText(envs[0]) ==> |envs| <= 9 && (8 <= envs[0].depth ==> |envs| == 1))
    decreases |envs|
  {
    hide Chain, ChildEnv, Reenters, Aliased, PathIsText;
    if PathIsText(envs[0]) {
      TextChainsAreShort(w, home, tool, envs);
    }
    if |envs| == 1 {
    } else {
      var chosen := OneHopOn(w, home, tool, envs);
      if DEPTH_CAP <= envs[0].depth {
        StrippedPathIsText(w, home, envs[0], chosen);
        TextChainsAreShort(w, home, tool, envs[1..]);
      } else {
        ChainsAreShort(w, home, tool, envs[1..]);
      }
    }
  }

  lemma ChosenIsNotSkipped(w: World, ctx: Context, tool: OsString)
    requires ctx.depth < DEPTH_CAP && RealBinary(w, ctx, tool).Some?
    ensures var canon := w.canonical(RealBinary(w, ctx, tool).value);
            canon.Some? ==> canon.value !in ctx.skip
  {
    FirstAcceptableIsFirst(w, ctx, tool, ctx.path);
    hide FirstAcceptable, Candidate;
  }

  lemma {:induction false} SkipsAreRemembered(
    w: World, home: Home, tool: OsString, envs: seq<Env>, i: nat, j: nat, canon: OsString)
    requires Chain(w, home, tool, envs) && i < j < |envs| && Carries(canon)
    requires RealBinary(w, ContextOf(envs[i], home), tool).Some?
    requires w.canonical(RealBinary(w, ContextOf(envs[i], home), tool).value) == Some(canon)
    ensures canon in ContextOf(envs[j], home).skip
  {
    hide RealBinary, Reenters, ContextOf, ChildEnv, Utf8.Valid;
    assert Leads(w, home, tool, envs[j - 1], envs[j]);
    var chosen := RealBinary(w, ContextOf(envs[j - 1], home), tool).value;
    if j == i + 1 {
    } else {
      SkipsAreRemembered(w, home, tool, envs, i, j - 1, canon);
    }
    SkipGrowsIff(w, home, envs[j - 1], chosen, canon);
  }

  /** Below the cap no canonical binary is chosen twice, if its path holds no colon and is UTF-8. */
  lemma NoBinaryTwice(w: World, home: Home, tool: OsString, envs: seq<Env>, i: nat, j: nat, canon: OsString)
    requires Chain(w, home, tool, envs) && i < j < |envs| && envs[j].depth < DEPTH_CAP && Carries(canon)
    requires RealBinary(w, ContextOf(envs[i], home), tool).Some?
    requires w.canonical(RealBinary(w, ContextOf(envs[i], home), tool).value) == Some(canon)
    ensures var next := RealBinary(w, ContextOf(envs[j], home), tool);
            next.Some? ==> w.canonical(next.value) != Some(canon)
  {
    SkipsAreRemembered(w, home, tool, envs, i, j, canon);
    if RealBinary(w, ContextOf(envs[j], home), tool).Some? {
      ChosenIsNotSkipped(w, ContextOf(envs[j], home), tool);
    }
    hide *;
  }

  /** The directory the binary came from is acceptable to the next launcher exactly when the list could not carry it. */
  lemma StaysAcceptableIff(w: World, home: Home, env: Env, tool: OsString, dir: OsString, canon: OsString)
    requires env.depth + 1 < DEPTH_CAP && Acceptable(w, ContextOf(env, home), tool, dir)
    requires w.canonical(Candidate(dir, tool)) == Some(canon)
    ensures Acceptable(w, ContextOf(ChildEnv(w, home, env, Candidate(dir, tool)), home), tool, dir) <==> !Carries(canon)
  {
    SkipGrowsIff(w, home, env, Candidate(dir, tool), canon);
    hide SplitPaths, JoinPaths, Carries, Candidate;
  }

  lemma {:induction false} SameFirst(
    w: World, a: Context, b: Context, tool: OsString, dirs: seq<OsString>, chosen: OsString)
    requires a.home == b.home && a.depth < DEPTH_CAP && b.depth < DEPTH_CAP
    requires forall p :: p in a.skip ==> p in b.skip
    requires FirstAcceptable(w, a, tool, dirs) == Some(chosen)
    requires w.canonical(chosen).Some? ==> w.canonical(chosen).value !in b.skip
    ensures FirstAcceptable(w, b, tool, dirs) == Some(chosen)
  {
    hide Candidate;
    if Acceptable(w, a, tool, dirs[0]) {
    } else {
      SameFirst(w, a, b, tool, dirs[1..], chosen);
    }
  }

  /**
    While the skip list is text, as every launcher makes it, the next launcher below the cap
    chooses the same binary again exactly when its canonical path holds a colon or is no UTF-8.
   */
  lemma NextChoiceRepeatsIff(w: World, home: Home, env: Env, tool: OsString, chosen: OsString, canon: OsString)
    requires env.depth + 1 < DEPTH_CAP && RealBinary(w, ContextOf(env, home), tool) == Some(chosen)
    requires w.canonical(chosen) == Some(canon)
    requires env.skip.Some? ==> Utf8.Valid(env.skip.value)
    ensures RealBinary(w, ContextOf(ChildEnv(w, home, env, chosen), home), tool) == Some(chosen) <==> !Carries(canon)
  {
    var ctx, next := ContextOf(env, home), ContextOf(ChildEnv(w, home, env, chosen), home);
    PathUnchangedBelowTheCap(w, home, env, chosen);
    ChosenIsNotSkipped(w, ctx, tool);
    SkipGrowsIff(w, home, env, chosen, canon);
    if Carries(canon) {
      if RealBinary(w, next, tool) == Some(chosen) {
        ChosenIsNotSkipped(w, next, tool);
      }
    } else {
      SkipsKept(w, home, env, chosen);
      SameFirst(w, ctx, next, tool, next.path, chosen);
    }
    hide *;
  }

  lemma SkipsKept(w: World, home: Home, env: Env, chosen: OsString)
    requires env.skip.Some? ==> Utf8.Valid(env.skip.value)
    ensures forall p :: p in ContextOf(env, home).skip ==> p in ContextOf(ChildEnv(w, home, env, chosen), home).skip
  {
    if env.skip.Some? {
      PiecesAreText(env.skip.value);
    }
    forall p | p in ContextOf(env, home).skip
      ensures p in ContextOf(ChildEnv(w, home, env, chosen), home).skip
    {
      SkipGrowsIff(w, home, env, chosen, p);
    }
    hide SplitPaths, ChildEnv, Utf8.Valid;
  }

  /** The skip list a launcher hands on is text whenever the one it got was, or it could be extended. */
  lemma ChildSkipIsText(w: World, home: Home, env: Env, chosen: OsString)
    requires env.skip.Some? ==> Utf8.Valid(env.skip.value)
    ensures var skip := ChildEnv(w, home, env, chosen).skip;
            skip.Some? ==> Utf8.Valid(skip.value)
  {
    Utf8.LossyIsValid(Colons(ExtendedSkip(ContextOf(env, home).skip, w.canonical(chosen))));
    hide SplitPaths, Utf8.Valid, Utf8.Lossy, Colons;
  }
}
