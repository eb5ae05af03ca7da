/** Parent links between stacked worktrees: the cycle walk, normalisation, and forests. */
module StackedWorktrees {
  import opened Options

  type Parents = map<string, string>

  /** `n` steps up from `start`, or nothing once the chain has left the map. */
  ghost function Up(m: Parents, start: string, n: nat): Option<string> {
    if n == 0 then Some(start)
    else
      var below := Up(m, start, n - 1);
      if below.Some? && below.value in m then Some(m[below.value]) else None
  }

  /** The parent chain from `start` reaches a name without a parent. */
  ghost predicate ChainEnds(m: Parents, start: string) {
    exists n: nat :: Up(m, start, n).None?
  }

  lemma {:induction false} UpFromParent(m: Parents, start: string, n: nat)
    requires start in m
    ensures Up(m, start, n + 1) == Up(m, m[start], n)
  {
    if n > 0 {
      UpFromParent(m, start, n - 1);
    } else {
      assert Up(m, start, 0) == Some(start);
    }
  }

  lemma EndsLikeItsParent(m: Parents, start: string)
    requires start in m
    ensures ChainEnds(m, start) <==> ChainEnds(m, m[start])
  {
    if ChainEnds(m, start) {
      var n: nat :| Up(m, start, n).None?;
      UpFromParent(m, start, n - 1);
      assert Up(m, m[start], n - 1).None?;
    }
    if ChainEnds(m, m[start]) {
      var n: nat :| Up(m, m[start], n).None?;
      UpFromParent(m, start, n);
      assert Up(m, start, n + 1).None?;
    }
  }

  lemma RootEnds(m: Parents, start: string)
    requires start !in m
    ensures ChainEnds(m, start)
  {
    assert Up(m, start, 0) == Some(start);
    assert Up(m, start, 1).None?;
  }

  lemma {:induction false} StaysInside(m: Parents, inside: set<string>, start: string, n: nat)
    requires start in inside && forall x :: x in inside ==> x in m && m[x] in inside
    ensures Up(m, start, n).Some? && Up(m, start, n).value in inside
  {
    if n == 0 {
    } else {
      StaysInside(m, inside, start, n - 1);
    }
  }

  /** Walks up until the chain ends or meets a name again; terminates on every map. */
  method HasCycle(start: string, m: Parents) returns (cycle: bool)
    ensures cycle <==> !ChainEnds(m, start)
  {
    var seen: set<string> := {};
    var current := start;
    while current in m
      invariant seen <= m.Keys
      invariant forall x :: x in seen ==> m[x] in seen + {current}
      invariant start in seen + {current}
      invariant ChainEnds(m, start) <==> ChainEnds(m, current)
      decreases m.Keys - seen
    {
      if current in seen {
        forall n: nat
          ensures Up(m, start, n).Some?
        {
          StaysInside(m, seen, start, n);
        }
        return true;
      }
      seen := seen + {current};
      EndsLikeItsParent(m, current);
      current := m[current];
    }
    RootEnds(m, current);
    return false;
  }

  // --- normalisation -------------------------------------------------------------------

  /** The links between two different known worktrees. */
  function Known(m: Parents, names: seq<string>): Parents {
    map c | c in m && c != m[c] && c in names && m[c] in names :: m[c]
  }

  ghost function Normalized(m: Parents, names: seq<string>): Parents {
    map c | c in Known(m, names) && ChainEnds(Known(m, names), c) :: m[c]
  }

  method NormalizeStackedParents(m: Parents, names: seq<string>) returns (r: Parents)
    ensures r == Normalized(m, names)
    ensures forall c :: c in r <==>
              c in m && c != m[c] && c in names && m[c] in names && ChainEnds(Known(m, names), c)
    ensures forall c :: c in r ==> r[c] == m[c]
  {
    var known := Known(m, names);
    r := map[];
    var todo := known.Keys;
    while todo != {}
      invariant todo <= known.Keys
      invariant forall c :: c in r <==> c in known && c !in todo && ChainEnds(known, c)
      invariant forall c :: c in r ==> r[c] == m[c]
      decreases |todo|
    {
      var c :| c in todo;
      var cycle := HasCycle(c, known);
      if !cycle {
        r := r[c := known[c]];
      }
      todo := todo - {c};
    }
  }

  /** `small` holds some of the links of `big`. */
  ghost predicate SubMap(small: Parents, big: Parents) {
    forall c :: c in small ==> c in big && small[c] == big[c]
  }

  lemma {:induction false} UpInSubMap(small: Parents, big: Parents, start: string, n: nat)
    requires SubMap(small, big) && Up(small, start, n).Some?
    ensures Up(big, start, n) == Up(small, start, n)
  {
    if n == 0 {
    } else {
      UpInSubMap(small, big, start, n - 1);
    }
  }

  lemma FewerLinksStillEnd(small: Parents, big: Parents, start: string)
    requires SubMap(small, big) && ChainEnds(big, start)
    ensures ChainEnds(small, start)
  {
    var n: nat :| Up(big, start, n).None?;
    if Up(small, start, n).Some? {
      UpInSubMap(small, big, start, n);
    }
  }

  /** A child is kept exactly when child and parent are known and distinct and its chain reaches a root. */
  lemma NormalizedKeepsExactly(m: Parents, names: seq<string>, c: string)
    ensures c in Normalized(m, names)
            <==> c in m && c != m[c] && c in names && m[c] in names && ChainEnds(Known(m, names), c)
    ensures c in Normalized(m, names) ==> Normalized(m, names)[c] == m[c]
  {
  }

  lemma NormalizedIsAcyclic(m: Parents, names: seq<string>, c: string)
    ensures ChainEnds(Normalized(m, names), c)
  {
    var known, kept := Known(m, names), Normalized(m, names);
    if c in kept {
      FewerLinksStillEnd(kept, known, c);
    } else {
      RootEnds(kept, c);
    }
  }

  /** The parent of a kept child is kept whenever it has a known parent itself. */
  lemma NormalizedIsClosed(m: Parents, names: seq<string>, c: string)
    requires c in Normalized(m, names) && m[c] in Known(m, names)
    ensures m[c] in Normalized(m, names)
  {
    EndsLikeItsParent(Known(m, names), c);
  }

  /** So a kept child has all the ancestors the known links give it. */
  lemma {:induction false} NormalizedKeepsAncestors(m: Parents, names: seq<string>, c: string, n: nat)
    requires c in Normalized(m, names)
    ensures Up(Normalized(m, names), c, n) == Up(Known(m, names), c, n)
    ensures Up(Known(m, names), c, n).Some? && Up(Known(m, names), c, n).value in Known(m, names) ==>
              Up(Known(m, names), c, n).value in Normalized(m, names)
  {
    if n == 0 {
    } else {
      NormalizedKeepsAncestors(m, names, c, n - 1);
      var below := Up(Known(m, names), c, n - 1);
      if below.Some? && below.value in Known(m, names) && m[below.value] in Known(m, names) {
        NormalizedIsClosed(m, names, below.value);
      }
    }
  }

  lemma NormalizedOnlyKnown(m: Parents, names: seq<string>)
    ensures Known(Normalized(m, names), names) == Normalized(m, names)
  {
  }

  lemma NormalizingAgainChangesNothing(m: Parents, names: seq<string>)
    ensures Normalized(Normalized(m, names), names) == Normalized(m, names)
  {
    var kept := Normalized(m, names);
    forall c | c in kept
      ensures ChainEnds(kept, c)
    {
      NormalizedIsAcyclic(m, names, c);
    }
    NormalizedOnlyKnown(m, names);
  }

  // --- forests -------------------------------------------------------------------------

  /** Every link joins two existing worktrees and no chain runs in a circle. */
  ghost predicate Forest(m: Parents, names: seq<string>) {
    forall c :: c in m ==> c in names && m[c] in names && ChainEnds(m, c)
  }

  lemma SelfParentNeverEnds(m: Parents, c: string)
    requires c in m && m[c] == c
    ensures !ChainEnds(m, c)
  {
    forall n: nat
      ensures Up(m, c, n).Some?
    {
      StaysInside(m, {c}, c, n);
    }
  }

  /** Normalisation is the identity exactly on the forests. */
  lemma NormalizedIsIdentityIffForest(m: Parents, names: seq<string>)
    ensures Normalized(m, names) == m <==> Forest(m, names)
  {
    if Forest(m, names) {
      forall c | c in m
        ensures c != m[c]
      {
        if m[c] == c {
          SelfParentNeverEnds(m, c);
        }
      }
      assert Known(m, names) == m;
    }
    if Normalized(m, names) == m {
      forall c | c in m
        ensures c in names && m[c] in names && ChainEnds(m, c)
      {
        NormalizedKeepsExactly(m, names, c);
        NormalizedIsAcyclic(m, names, c);
      }
    }
  }

  lemma {:induction false} UpAgrees(m: Parents, n: Parents, inside: seq<string>, start: string, k: nat)
    requires start in inside
    requires forall x :: x in inside ==> (x in m <==> x in n) && (x in m ==> m[x] == n[x] && m[x] in inside)
    ensures Up(m, start, k) == Up(n, start, k)
    ensures Up(m, start, k).Some? ==> Up(m, start, k).value in inside
  {
    if k == 0 {
    } else {
      UpAgrees(m, n, inside, start, k - 1);
    }
  }

  /** Stacking a new worktree on an existing one. */
  lemma StackingKeepsForest(m: Parents, names: seq<string>, name: string, parent: string)
    requires Forest(m, names) && name !in names && parent in names
    ensures Forest(m[name := parent], names + [name])
  {
    var after := m[name := parent];
    forall c | c in names
      ensures ChainEnds(after, c)
    {
      if c in m {
        var k: nat :| Up(m, c, k).None?;
        UpAgrees(m, after, names, c, k);
      } else {
        RootEnds(after, c);
      }
    }
    EndsLikeItsParent(after, name);
  }

  /** `name` is `start` or one of its ancestors. */
  ghost predicate Above(m: Parents, start: string, name: string) {
    exists n: nat :: Up(m, start, n) == Some(name)
  }

  lemma {:induction false} UpAdds(m: Parents, start: string, middle: string, a: nat, b: nat)
    requires Up(m, start, a) == Some(middle)
    ensures Up(m, start, a + b) == Up(m, middle, b)
  {
    if b == 0 {
    } else {
      UpAdds(m, start, middle, a, b - 1);
    }
  }

  lemma {:induction false} EndedStaysEnded(m: Parents, start: string, a: nat, b: nat)
    requires a <= b && Up(m, start, a).None?
    ensures Up(m, start, b).None?
  {
    if a == b {
    } else {
      EndedStaysEnded(m, start, a, b - 1);
    }
  }

  /** A chain that comes back to where it started never ends. */
  lemma {:induction false} ReturningNeverEnds(m: Parents, start: string, period: nat, n: nat)
    requires 0 < period && Up(m, start, period) == Some(start)
    ensures Up(m, start, n).Some?
  {
    if n < period {
      if Up(m, start, n).None? {
        EndedStaysEnded(m, start, n, period);
      }
    } else {
      UpAdds(m, start, start, period, n - period);
      ReturningNeverEnds(m, start, period, n - period);
    }
  }

  /** A new link at `name` changes no chain before it comes to `name`. */
  lemma {:induction false} UpUntilTheLink(m: Parents, name: string, parent: string, start: string, n: nat)
    requires forall k: nat :: k < n ==> Up(m, start, k) != Some(name)
    ensures Up(m[name := parent], start, n) == Up(m, start, n)
  {
    if n == 0 {
    } else {
      UpUntilTheLink(m, name, parent, start, n - 1);
    }
  }

  lemma {:induction false} FirstTime(m: Parents, start: string, name: string, n: nat) returns (first: nat)
    requires Up(m, start, n) == Some(name)
    ensures first <= n && Up(m, start, first) == Some(name)
    ensures forall k: nat :: k < first ==> Up(m, start, k) != Some(name)
    decreases n
  {
    if k: nat :| k < n && Up(m, start, k) == Some(name) {
      first := FirstTime(m, start, name, k);
    } else {
      first := n;
    }
  }

  lemma LinkingAboveMakesACircle(m: Parents, name: string, parent: string)
    requires Above(m, parent, name)
    ensures !ChainEnds(m[name := parent], name)
  {
    var after := m[name := parent];
    var n: nat :| Up(m, parent, n) == Some(name);
    var first := FirstTime(m, parent, name, n);
    UpUntilTheLink(m, name, parent, parent, first);
    UpFromParent(after, name, first);
    forall k: nat
      ensures Up(after, name, k).Some?
    {
      ReturningNeverEnds(after, name, first + 1, k);
    }
  }

  lemma {:induction false} LinkedChainEnds(m: Parents, name: string, parent: string, start: string, n: nat)
    requires Up(m, start, n).None? && ChainEnds(m[name := parent], name)
    ensures ChainEnds(m[name := parent], start)
    decreases n
  {
    var after := m[name := parent];
    if start == name {
    } else if start !in m {
      RootEnds(after, start);
    } else {
      assert n > 0;
      UpFromParent(m, start, n - 1);
      LinkedChainEnds(m, name, parent, m[start], n - 1);
      EndsLikeItsParent(after, start);
    }
  }

  /** A link between existing worktrees keeps the forest exactly when it closes no circle. */
  lemma LinkingKeepsForestIff(m: Parents, names: seq<string>, name: string, parent: string)
    requires Forest(m, names) && name in names && parent in names
    ensures Forest(m[name := parent], names) <==> !Above(m, parent, name)
  {
    var after := m[name := parent];
    if Above(m, parent, name) {
      LinkingAboveMakesACircle(m, name, parent);
      assert name in after;
    } else {
      if parent !in m {
        RootEnds(m, parent);
      }
      var n: nat :| Up(m, parent, n).None?;
      UpUntilTheLink(m, name, parent, parent, n);
      EndsLikeItsParent(after, name);
      forall c | c in after
        ensures c in names && after[c] in names && ChainEnds(after, c)
      {
        if c != name {
          var k: nat :| Up(m, c, k).None?;
          LinkedChainEnds(m, name, parent, c, k);
        }
      }
    }
  }

  /** Only existing worktrees are above an existing one. */
  lemma {:induction false} AboveExists(m: Parents, names: seq<string>, start: string, n: nat)
    requires Forest(m, names) && start in names
    ensures Up(m, start, n).Some? ==> Up(m, start, n).value in names
  {
    if n == 0 {
    } else {
      AboveExists(m, names, start, n - 1);
    }
  }

  /** Removing a worktree that nothing is stacked on, and its own link. */
  lemma RemovingKeepsForest(m: Parents, names: seq<string>, fewer: seq<string>, name: string)
    requires Forest(m, names)
    requires forall c :: c in m ==> m[c] != name
    requires forall x :: x in names && x != name ==> x in fewer
    ensures Forest(m - {name}, fewer)
  {
    var after := m - {name};
    forall c | c in after
      ensures ChainEnds(after, c)
    {
      FewerLinksStillEnd(after, m, c);
    }
  }

  lemma MoreWorktreesKeepForest(m: Parents, names: seq<string>, more: seq<string>)
    requires Forest(m, names) && forall x :: x in names ==> x in more
    ensures Forest(m, more)
  {
  }

  // --- children ------------------------------------------------------------------------

  /** The worktrees stacked directly on `parent`, in listing order. */
  ghost function ChildrenIn(normalized: Parents, names: seq<string>, parent: string): (r: seq<string>)
    ensures forall c :: c in r <==> c in names && c in normalized && normalized[c] == parent
  {
    if names == [] then []
    else
      (if names[0] in normalized && normalized[names[0]] == parent then [names[0]] else [])
      + ChildrenIn(normalized, names[1..], parent)
  }

  lemma {:induction false} ChildrenSnoc(normalized: Parents, names: seq<string>, name: string, parent: string)
    ensures ChildrenIn(normalized, names + [name], parent)
            == ChildrenIn(normalized, names, parent)
               + if name in normalized && normalized[name] == parent then [name] else []
  {
    if names == [] {
      assert names + [name] == [name];
    } else {
      assert (names + [name])[1..] == names[1..] + [name];
      ChildrenSnoc(normalized, names[1..], name, parent);
    }
  }

  method DirectStackedChildren(names: seq<string>, m: Parents, parent: string) returns (r: seq<string>)
    ensures r == ChildrenIn(Normalized(m, names), names, parent)
  {
    var normalized := NormalizeStackedParents(m, names);
    r := [];
    for i := 0 to |names|
      invariant r == ChildrenIn(normalized, names[..i], parent)
    {
      ChildrenSnoc(normalized, names[..i], names[i], parent);
      assert names[..i + 1] == names[..i] + [names[i]];
      if names[i] in normalized && normalized[names[i]] == parent {
        r := r + [names[i]];
      }
    }
    assert names[..|names|] == names;
  }
}
