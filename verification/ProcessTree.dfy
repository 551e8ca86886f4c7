/** Finding the agent running under a session's shell (activeAgentProcess, internal/session/shell.go). */
module ProcessTree {

  datatype Process = Process(pid: int, parent: int, command: string, args: string)

  /** Which agent a command line is, or "" for none. */
  type Naming = (string, string) -> string

  /** The set has the root, and every listed child of a member. */
  predicate Closed(records: seq<Process>, root: int, pids: set<int>) {
    root in pids && forall k :: 0 <= k < |records| && records[k].parent in pids ==> records[k].pid in pids
  }

  ghost predicate Least(records: seq<Process>, root: int, pids: set<int>) {
    Closed(records, root, pids) && forall other :: Closed(records, root, other) ==> pids <= other
  }

  /** A chain of listings, each the parent of the next, from the root down to a process. */
  predicate Chain(records: seq<Process>, root: int, path: seq<int>, pid: int)
    decreases |path|
  {
    if path == [] then pid == root
    else
      var last := path[|path| - 1];
      && 0 <= last < |records| && records[last].pid == pid
      && Chain(records, root, path[..|path| - 1], records[last].parent)
  }

  ghost predicate Descends(records: seq<Process>, root: int, pid: int) {
    exists path :: Chain(records, root, path, pid)
  }

  lemma {:induction false} ChainStaysInside(records: seq<Process>, root: int, path: seq<int>, pid: int, pids: set<int>)
    requires Closed(records, root, pids) && Chain(records, root, path, pid)
    ensures pid in pids
    decreases |path|
  {
    if path != [] {
      ChainStaysInside(records, root, path[..|path| - 1], records[path[|path| - 1]].parent, pids);
    }
  }

  /** The listed descendants of the root, with the root. */
  ghost function Family(records: seq<Process>, root: int): set<int> {
    (set k | 0 <= k < |records| && Descends(records, root, records[k].pid) :: records[k].pid) + {root}
  }

  lemma FamilyIsClosed(records: seq<Process>, root: int)
    ensures Closed(records, root, Family(records, root))
    ensures forall pid :: pid in Family(records, root) ==> Descends(records, root, pid)
  {
    assert Chain(records, root, [], root);
    forall k | 0 <= k < |records| && records[k].parent in Family(records, root)
      ensures records[k].pid in Family(records, root)
    {
      var path :| Chain(records, root, path, records[k].parent);
      assert (path + [k])[..|path|] == path;
      assert Chain(records, root, path + [k], records[k].pid);
    }
  }

  /** The least closed set is exactly the root and everything with a chain of parents to it. */
  lemma LeastIffDescends(records: seq<Process>, root: int, pids: set<int>)
    ensures Least(records, root, pids) <==> forall pid :: pid in pids <==> Descends(records, root, pid)
  {
    FamilyIsClosed(records, root);
    var family := Family(records, root);
    forall pid, other | Descends(records, root, pid) && Closed(records, root, other) ensures pid in other {
      var path :| Chain(records, root, path, pid);
      ChainStaysInside(records, root, path, pid, other);
    }
    forall pid | Descends(records, root, pid) ensures pid in family {
      var path :| Chain(records, root, path, pid);
      if path != [] {
        assert records[path[|path| - 1]].pid == pid;
      }
    }
    if Least(records, root, pids) {
      assert pids <= family;
    }
    if forall pid :: pid in pids <==> Descends(records, root, pid) {
      forall pid ensures pid in pids <==> pid in family {
        assert pid in pids <==> Descends(records, root, pid);
      }
      assert pids == family;
    }
  }

  /** The listing's order, and repeated listings, make no difference. */
  lemma ListingOrderDoesNotMatter(records: seq<Process>, other: seq<Process>, root: int, one: set<int>, two: set<int>)
    requires forall r :: r in records <==> r in other
    requires Least(records, root, one) && Least(other, root, two)
    ensures one == two
  {
    forall pids ensures Closed(records, root, pids) <==> Closed(other, root, pids) {
      forall k | Closed(records, root, pids) && 0 <= k < |other| && other[k].parent in pids
        ensures other[k].pid in pids
      {
        assert other[k] in records;
      }
      forall k | Closed(other, root, pids) && 0 <= k < |records| && records[k].parent in pids
        ensures records[k].pid in pids
      {
        assert records[k] in other;
      }
    }
  }

  function Unlisted(records: seq<Process>, pids: set<int>): set<int> {
    set k | 0 <= k < |records| && records[k].pid !in pids :: records[k].pid
  }

  /** Repeating the scan until nothing changes: it stops, because each repeat but the last takes in a
      listed process, and stops at the least closed set. */
  method Descendants(records: seq<Process>, root: int) returns (pids: set<int>)
    ensures Least(records, root, pids)
  {
    pids := {root};
    var changed := true;
    while changed
      invariant root in pids
      invariant forall other :: Closed(records, root, other) ==> pids <= other
      invariant !changed ==> Closed(records, root, pids)
      decreases Unlisted(records, pids), changed
    {
      ghost var before := pids;
      changed := false;
      var i := 0;
      while i < |records|
        invariant i <= |records| && before <= pids
        invariant forall other :: Closed(records, root, other) ==> pids <= other
        invariant changed ==> Unlisted(records, pids) < Unlisted(records, before)
        invariant !changed ==> pids == before
        invariant !changed ==> forall k :: 0 <= k < i && records[k].parent in pids ==> records[k].pid in pids
      {
        if records[i].pid !in pids && records[i].parent in pids {
          assert records[i].pid in Unlisted(records, before);
          pids := pids + {records[i].pid};
          changed := true;
        }
        i := i + 1;
      }
    }
  }

  /** Listing k is an agent running strictly below the root. */
  ghost predicate IsAgentBelow(naming: Naming, records: seq<Process>, root: int, k: nat)
    requires k < |records|
  {
    && records[k].pid != root && Descends(records, root, records[k].pid)
    && naming(records[k].command, records[k].args) != ""
  }

  /** The agent reported is the last one listed below the root; none is reported only if there is
      none. Basename shortens the command for display. */
  method ActiveAgentProcess(naming: Naming, basename: string -> string, records: seq<Process>, root: int)
    returns (agent: string, process: string)
    ensures agent == "" ==> process == "" && forall k :: 0 <= k < |records| ==> !IsAgentBelow(naming, records, root, k)
    ensures agent != "" ==>
              exists k :: 0 <= k < |records| && IsAgentBelow(naming, records, root, k)
                && agent == naming(records[k].command, records[k].args) && process == basename(records[k].command)
                && forall later :: k < later < |records| ==> !IsAgentBelow(naming, records, root, later)
  {
    var descendants := Descendants(records, root);
    LeastIffDescends(records, root, descendants);
    var index := |records| - 1;
    while index >= 0
      invariant -1 <= index < |records|
      invariant forall k :: index < k < |records| ==> !IsAgentBelow(naming, records, root, k)
    {
      var record := records[index];
      if record.pid != root && record.pid in descendants {
        var id := naming(record.command, record.args);
        if id != "" {
          assert IsAgentBelow(naming, records, root, index);
          return id, basename(record.command);
        }
      }
      index := index - 1;
    }
    return "", "";
  }

  /** Being below the root takes at least one listing, whose own parent is the root or below it. */
  lemma BelowHasAParent(records: seq<Process>, root: int, pid: int)
    ensures pid != root && Descends(records, root, pid) <==>
            && pid != root
            && exists k :: 0 <= k < |records| && records[k].pid == pid && Descends(records, root, records[k].parent)
  {
    if pid != root && Descends(records, root, pid) {
      var path :| Chain(records, root, path, pid);
      var last := path[|path| - 1];
      assert Chain(records, root, path[..|path| - 1], records[last].parent);
    }
    forall k | 0 <= k < |records| && records[k].pid == pid && Descends(records, root, records[k].parent)
      ensures Descends(records, root, pid)
    {
      var path :| Chain(records, root, path, records[k].parent);
      assert (path + [k])[..|path|] == path;
      assert Chain(records, root, path + [k], pid);
    }
  }
}
