/** The processes below one (`descendants` in `scripts/installed_check.py`).

    The table gives each process the identifier of the one that started it.  Identifiers are
    used again, so following them may lead round in a circle. */
module Descendants {

  datatype Process = Process(pid: int, parent: int, image: string)

  predicate Started(table: seq<Process>, parent: int, pid: int) {
    exists k | 0 <= k < |table| :: table[k].parent == parent && table[k].pid == pid
  }

  // ----- reachability -----

  /** Each process of `path` started the next. */
  ghost predicate Path(table: seq<Process>, path: seq<int>) {
    path != [] && forall k | 0 < k < |path| :: Started(table, path[k - 1], path[k])
  }

  ghost predicate Reaches(table: seq<Process>, root: int, pid: int) {
    exists path :: Path(table, path) && path[0] == root && path[|path| - 1] == pid
  }

  lemma ReachesItself(table: seq<Process>, root: int)
    ensures Reaches(table, root, root)
  {
    assert Path(table, [root]) && [root][0] == root;
  }

  lemma ReachesChild(table: seq<Process>, root: int, parent: int, pid: int)
    requires Reaches(table, root, parent) && Started(table, parent, pid)
    ensures Reaches(table, root, pid)
  {
    var path :| Path(table, path) && path[0] == root && path[|path| - 1] == parent;
    var longer := path + [pid];
    forall k | 0 < k < |longer| ensures Started(table, longer[k - 1], longer[k]) {
      if k < |path| { assert Started(table, path[k - 1], path[k]); }
    }
    assert Path(table, longer) && longer[0] == root && longer[|longer| - 1] == pid;
  }

  /** `all` holds every process started by one of its own. */
  ghost predicate Closed(table: seq<Process>, all: set<int>) {
    forall parent, pid :: parent in all && Started(table, parent, pid) ==> pid in all
  }

  lemma {:induction false} ClosedHoldsPath(table: seq<Process>, all: set<int>, path: seq<int>)
    requires Closed(table, all) && Path(table, path) && path[0] in all
    ensures path[|path| - 1] in all
    decreases |path|
  {
    if |path| > 1 {
      var n := |path| - 1;
      assert Path(table, path[..n]);
      ClosedHoldsPath(table, all, path[..n]);
      assert Started(table, path[n - 1], path[n]);
    }
  }

  /** A closed set holds all that its members reach. */
  lemma ClosedHoldsReached(table: seq<Process>, all: set<int>, root: int)
    requires Closed(table, all) && root in all
    ensures forall pid :: Reaches(table, root, pid) ==> pid in all
  {
    hide Closed;
    forall pid | Reaches(table, root, pid) ensures pid in all {
      var path :| Path(table, path) && path[0] == root && path[|path| - 1] == pid;
      ClosedHoldsPath(table, all, path);
    }
  }

  // ----- the search -----

  predicate Distinct(found: seq<int>) {
    forall j, k | 0 <= j < k < |found| :: found[j] != found[k]
  }

  /** Every process stands behind the one that started it, the root standing first. */
  ghost predicate Traced(table: seq<Process>, root: int, found: seq<int>) {
    forall k | 0 <= k < |found| :: StartedBy(table, root, found[..k], found[k])
  }

  ghost predicate StartedBy(table: seq<Process>, root: int, before: seq<int>, pid: int) {
    exists parent :: (parent == root || parent in before) && Started(table, parent, pid)
  }

  function Members(found: seq<int>): set<int> {
    set k | 0 <= k < |found| :: found[k]
  }

  function Pids(table: seq<Process>): set<int> {
    set k | 0 <= k < |table| :: table[k].pid
  }

  /** What has been found so far is right, and only processes on the frontier may still have
      children to be found. */
  ghost predicate Searching(table: seq<Process>, root: int, found: seq<int>, frontier: seq<int>) {
    && Distinct(found) && root !in found && Traced(table, root, found)
    && (forall pid | pid in frontier :: pid == root || pid in found)
    && Settled(table, root, found, frontier)
  }

  ghost predicate Settled(table: seq<Process>, root: int, found: seq<int>, frontier: seq<int>) {
    forall parent, pid :: (parent == root || parent in found) && parent !in frontier && Started(table, parent, pid)
      ==> pid == root || pid in found
  }

  lemma {:induction false} TracedIsReached(table: seq<Process>, root: int, found: seq<int>, k: nat)
    requires Traced(table, root, found) && k < |found|
    ensures Reaches(table, root, found[k])
    decreases k
  {
    assert StartedBy(table, root, found[..k], found[k]);
    var parent :| (parent == root || parent in found[..k]) && Started(table, parent, found[k]);
    if parent == root {
      ReachesItself(table, root);
    } else {
      var j :| 0 <= j < k && found[j] == parent;
      TracedIsReached(table, root, found, j);
    }
    ReachesChild(table, root, parent, found[k]);
  }

  /** With nothing left on the frontier, exactly what is reached has been found. */
  lemma SearchIsDone(table: seq<Process>, root: int, found: seq<int>)
    requires Searching(table, root, found, [])
    ensures forall pid :: pid in found <==> pid != root && Reaches(table, root, pid)
  {
    var all := {root} + Members(found);
    forall pid ensures pid in found <==> pid in Members(found) {
      if pid in found { var k :| 0 <= k < |found| && found[k] == pid; }
    }
    assert Closed(table, all);
    ClosedHoldsReached(table, all, root);
    forall pid | pid in found ensures Reaches(table, root, pid) {
      var k :| 0 <= k < |found| && found[k] == pid;
      TracedIsReached(table, root, found, k);
    }
  }

  /** During one pass over the table for `parent`, already taken off the frontier. */
  ghost predicate Passing(table: seq<Process>, root: int, found: seq<int>, frontier: seq<int>, parent: int, n: nat) {
    && (parent == root || parent in found)
    && Searching(table, root, found, frontier + [parent])
    && forall k | 0 <= k < n && k < |table| && table[k].parent == parent ::
         table[k].pid == root || table[k].pid in found
  }

  lemma PassBegins(table: seq<Process>, root: int, found: seq<int>, frontier: seq<int>)
    requires frontier != [] && Searching(table, root, found, frontier)
    ensures Passing(table, root, found, frontier[..|frontier| - 1], frontier[|frontier| - 1], 0)
  {
    assert frontier[..|frontier| - 1] + [frontier[|frontier| - 1]] == frontier;
  }

  lemma PassSkips(table: seq<Process>, root: int, found: seq<int>, frontier: seq<int>, parent: int, n: nat)
    requires n < |table| && Passing(table, root, found, frontier, parent, n)
    requires table[n].parent != parent || table[n].pid == root || table[n].pid in found
    ensures Passing(table, root, found, frontier, parent, n + 1)
  {
    hide Searching;
  }

  lemma TracedOn(table: seq<Process>, root: int, found: seq<int>, parent: int, pid: int)
    requires Traced(table, root, found) && (parent == root || parent in found) && Started(table, parent, pid)
    ensures Traced(table, root, found + [pid])
  {
    hide Started;
    var grown := found + [pid];
    forall k | 0 <= k < |grown| ensures StartedBy(table, root, grown[..k], grown[k]) {
      if k < |found| {
        assert grown[..k] == found[..k];
      } else {
        assert grown[..k] == found;
      }
    }
  }

  lemma PassFinds(table: seq<Process>, root: int, found: seq<int>, frontier: seq<int>, parent: int, n: nat)
    requires n < |table| && Passing(table, root, found, frontier, parent, n)
    requires table[n].parent == parent && table[n].pid != root && table[n].pid !in found
    ensures Passing(table, root, found + [table[n].pid], frontier + [table[n].pid], parent, n + 1)
  {
    var pid := table[n].pid;
    assert Started(table, parent, pid);
    TracedOn(table, root, found, parent, pid);
    assert forall p :: p in frontier + [parent] ==> p in frontier + [pid] + [parent];
  }

  lemma PassEnds(table: seq<Process>, root: int, found: seq<int>, frontier: seq<int>, parent: int)
    requires Passing(table, root, found, frontier, parent, |table|)
    ensures Searching(table, root, found, frontier)
  {
    forall p, pid | (p == root || p in found) && p !in frontier && Started(table, p, pid)
      ensures pid == root || pid in found
    {
      if p != parent { assert p !in frontier + [parent]; }
    }
  }

  lemma SearchBegins(table: seq<Process>, root: int)
    ensures Searching(table, root, [], [root])
  {
  }

  lemma Fewer(table: seq<Process>, found: seq<int>, grown: seq<int>, n: nat)
    requires n < |table| && table[n].pid !in found && Members(found) <= Members(grown) && table[n].pid in grown
    ensures Pids(table) - Members(grown) < Pids(table) - Members(found)
  {
    var k :| 0 <= k < |grown| && grown[k] == table[n].pid;
    assert table[n].pid in Members(grown) && table[n].pid in Pids(table);
  }

  lemma MembersGrow(found: seq<int>, pid: int)
    ensures Members(found + [pid]) == Members(found) + {pid}
  {
    var grown := found + [pid];
    assert grown[|found|] == pid;
    forall k | 0 <= k < |found| ensures found[k] in Members(grown) { assert grown[k] == found[k]; }
  }

  /** `descendants`, on the table it has read.  It ends on every table, circles included. */
  method Below(table: seq<Process>, root: int) returns (found: seq<int>)
    ensures forall pid :: pid in found <==> pid != root && Reaches(table, root, pid)
    ensures Distinct(found)
    ensures Traced(table, root, found)
  {
    hide Searching, Passing, Members, Pids, Distinct, Traced;
    found := [];
    var frontier := [root];
    SearchBegins(table, root);
    while frontier != []
      invariant Searching(table, root, found, frontier)
      decreases Pids(table) - Members(found), |frontier|
    {
      ghost var was := found;
      PassBegins(table, root, found, frontier);
      var parent := frontier[|frontier| - 1];
      frontier := frontier[..|frontier| - 1];
      ghost var rest := frontier;
      for k := 0 to |table|
        invariant Passing(table, root, found, frontier, parent, k)
        invariant (found == was && frontier == rest) || Pids(table) - Members(found) < Pids(table) - Members(was)
      {
        var entry := table[k];
        if entry.parent == parent && entry.pid != root && entry.pid !in found {
          PassFinds(table, root, found, frontier, parent, k);
          MembersGrow(found, entry.pid);
          Fewer(table, found, found + [entry.pid], k);
          found := found + [entry.pid];
          frontier := frontier + [entry.pid];
        } else {
          PassSkips(table, root, found, frontier, parent, k);
        }
      }
      PassEnds(table, root, found, frontier, parent);
    }
    assert frontier == [];
    SearchIsDone(table, root, found);
    SearchedWell(table, root, found, frontier);
  }

  lemma SearchedWell(table: seq<Process>, root: int, found: seq<int>, frontier: seq<int>)
    requires Searching(table, root, found, frontier)
    ensures Distinct(found) && Traced(table, root, found)
  {
  }
}
