/** The worklist that collects a set of processes and everything below them. */
module ProcessTree {
  import opened Options

  datatype Process = Process(pid: nat, ppid: nat)

  /** The children of `pid`, in table order. */
  function Children(table: seq<Process>, pid: nat): (r: seq<nat>)
    ensures forall c :: c in r <==> Process(c, pid) in table
  {
    if table == [] then []
    else (if table[0].ppid == pid then [table[0].pid] else []) + Children(table[1..], pid)
  }

  /** A path of parent links read downwards. */
  ghost predicate IsPath(table: seq<Process>, path: seq<nat>) {
    path != [] && forall i :: 0 < i < |path| ==> Process(path[i], path[i - 1]) in table
  }

  /** `pid` is one of the roots or descends from one, along a path of any length. */
  ghost predicate AtOrBelow(table: seq<Process>, roots: seq<nat>, pid: nat) {
    exists path :: IsPath(table, path) && path[0] in roots && path[|path| - 1] == pid
  }

  lemma RootIsAtOrBelow(table: seq<Process>, roots: seq<nat>, root: nat)
    requires root in roots
    ensures AtOrBelow(table, roots, root)
  {
    assert IsPath(table, [root]) && [root][0] == root;
  }

  lemma ChildIsBelow(table: seq<Process>, roots: seq<nat>, parent: nat, child: nat)
    requires AtOrBelow(table, roots, parent) && Process(child, parent) in table
    ensures AtOrBelow(table, roots, child)
  {
    var path :| IsPath(table, path) && path[0] in roots && path[|path| - 1] == parent;
    var longer := path + [child];
    assert IsPath(table, longer) && longer[0] in roots && longer[|longer| - 1] == child;
  }

  /** A set that holds the roots and, with every process, its children, misses nobody. */
  lemma ClosedSetHoldsAll(table: seq<Process>, roots: seq<nat>, found: set<nat>, pid: nat)
    requires forall r :: r in roots ==> r in found
    requires forall p, c :: p in found && Process(c, p) in table ==> c in found
    requires AtOrBelow(table, roots, pid)
    ensures pid in found
  {
    var path :| IsPath(table, path) && path[0] in roots && path[|path| - 1] == pid;
    PathStaysInside(table, found, path, |path| - 1);
  }

  lemma {:induction false} PathStaysInside(table: seq<Process>, found: set<nat>, path: seq<nat>, i: nat)
    requires IsPath(table, path) && i < |path| && path[0] in found
    requires forall p, c :: p in found && Process(c, p) in table ==> c in found
    ensures path[i] in found
  {
    if i == 0 {
    } else {
      PathStaysInside(table, found, path, i - 1);
    }
  }

  /** Every pid the worklist can ever meet. */
  ghost function Universe(table: seq<Process>, roots: seq<nat>): set<nat> {
    (set p | p in table :: p.pid) + (set r | r in roots)
  }

  /** Everything found has its children found or waiting. */
  ghost predicate Covered(table: seq<Process>, found: set<nat>, stack: seq<nat>) {
    forall p, c :: p in found && Process(c, p) in table ==> c in found || c in stack
  }

  /**
    Terminates on any table, cyclic parent links included, and returns exactly the roots and
    all their descendants; nothing when the processes could not be listed.
   */
  method CollectProcessTreeCandidates(snapshot: Option<seq<Process>>, roots: seq<nat>) returns (found: set<nat>)
    ensures snapshot.None? ==> found == {}
    ensures snapshot.Some? ==> forall pid :: pid in found <==> AtOrBelow(snapshot.value, roots, pid)
  {
    found := {};
    if snapshot.None? {
      return;
    }
    var table := snapshot.value;
    var n := 0;
    while n < |roots|
      invariant n <= |roots|
      invariant forall p :: p in found ==> AtOrBelow(table, roots, p)
      invariant forall i :: 0 <= i < n ==> roots[i] in found
      invariant found <= Universe(table, roots)
      invariant Covered(table, found, [])
    {
      RootIsAtOrBelow(table, roots, roots[n]);
      var stack := [roots[n]];
      while stack != []
        invariant forall p :: p in found ==> AtOrBelow(table, roots, p)
        invariant forall p :: p in stack ==> AtOrBelow(table, roots, p) && p in Universe(table, roots)
        invariant forall i :: 0 <= i < n ==> roots[i] in found
        invariant roots[n] in found || roots[n] in stack
        invariant found <= Universe(table, roots)
        invariant Covered(table, found, stack)
        decreases Universe(table, roots) - found, |stack|
      {
        var pid := stack[|stack| - 1];
        ghost var before := stack;
        stack := stack[..|stack| - 1];
        assert before == stack + [pid];
        if pid !in found {
          found := found + {pid};
          var children := Children(table, pid);
          forall c | c in children
            ensures AtOrBelow(table, roots, c) && c in Universe(table, roots)
          {
            ChildIsBelow(table, roots, pid, c);
            assert Process(c, pid).pid == c;
          }
          stack := stack + children;
        }
      }
      n := n + 1;
    }
    forall pid | AtOrBelow(table, roots, pid)
      ensures pid in found
    {
      ClosedSetHoldsAll(table, roots, found, pid);
    }
  }
}
