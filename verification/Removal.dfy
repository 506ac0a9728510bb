/**
 * Models crates/uv-cache/src/removal.rs: recursive removal with statistics. The directory walk is
 * any walk that reports contents before their directory, and that reports an error instead for a
 * directory it may not read.
 */
module Removal {
  import opened FileSystem

  const LOCK := ".lock"

  /** The node that lock-skipping mode leaves besides the root of the removal. */
  predicate IsSkipped(q: Path, path: Path, skipLocked: bool) {
    skipLocked && (q == path || q == path + [LOCK])
  }

  /** What a removal takes away: everything at or below the path, except what it skips. */
  ghost predicate IsDoomed(nodes: Nodes, q: Path, path: Path, skipLocked: bool) {
    && q in nodes && path <= q
    && !(path in nodes && nodes[path].Dir? && IsSkipped(q, path, skipLocked))
  }

  /** The directories that `set_readable` would change: neither readable nor searchable. */
  ghost function Shut(nodes: Nodes, path: Path): set<Path> {
    set q | q in nodes && path <= q && nodes[q] == Dir(false, false)
  }

  /** The node is as before, or a directory that was neither readable nor searchable and is both now. */
  predicate SameButModes(now: Node, before: Node) {
    now == before || (now == Dir(true, true) && before == Dir(false, false))
  }

  /** No directory at or below the path is unreadable and stays so, because it has its search bit set. */
  ghost predicate CanBeRemoved(nodes: Nodes, path: Path) {
    Stuck(nodes, path) == {}
  }

  ghost function Stuck(nodes: Nodes, path: Path): set<Path> {
    set d | d in nodes && path <= d && nodes[d] == Dir(false, true)
  }

  /** A state on the way: some doomed nodes are gone, and shut directories below the path may be open. */
  ghost predicate OnTheWay(now: Nodes, before: Nodes, path: Path, skipLocked: bool) {
    && IsTree(now)
    && (forall q :: q in now ==> q in before && SameButModes(now[q], before[q]))
    && (forall q :: q in now && !(path <= q) ==> now[q] == before[q])
    && (forall q :: q in before && q !in now ==> IsDoomed(before, q, path, skipLocked))
    && Shut(now, path) <= Shut(before, path)
  }

  lemma {:induction false} OnTheWayRemove(now: Nodes, before: Nodes, path: Path, skipLocked: bool, p: Path)
    requires OnTheWay(now, before, path, skipLocked) && IsLeaf(now, p) && IsDoomed(before, p, path, skipLocked)
    ensures OnTheWay(now - {p}, before, path, skipLocked)
  {
    forall q | q in now - {p} && q != [] ensures Parent(q) in now - {p} && (now - {p})[Parent(q)].Dir? {
      assert q in now && Parent(q) in now;
      assert Parent(q) == p ==> p <= q;
    }
  }

  lemma {:induction false} OnTheWayReadable(now: Nodes, before: Nodes, path: Path, skipLocked: bool, p: Path)
    requires OnTheWay(now, before, path, skipLocked) && p in now && path <= p && now[p] == Dir(false, false)
    ensures OnTheWay(now[p := Dir(true, true)], before, path, skipLocked)
    ensures |Shut(now[p := Dir(true, true)], path)| < |Shut(before, path)|
  {
    var after := now[p := Dir(true, true)];
    assert Shut(after, path) <= Shut(now, path);
    assert p in Shut(now, path) && p !in Shut(after, path);
    assert Shut(after, path) < Shut(before, path);
    SubsetCount(Shut(after, path), Shut(before, path));
  }

  lemma {:induction false} SubsetCount(a: set<Path>, b: set<Path>)
    requires a < b
    ensures |a| < |b|
  {
    var x :| x in b && x !in a;
    SubsetSize(a, b - {x});
  }

  lemma {:induction false} SubsetSize(a: set<Path>, b: set<Path>)
    requires a <= b
    ensures |a| <= |b|
    decreases |a|
  {
    if a != {} {
      var x :| x in a;
      SubsetSize(a - {x}, b - {x});
    }
  }

  lemma {:induction false} OnTheWayTransitive(now: Nodes, middle: Nodes, before: Nodes, path: Path, skipLocked: bool)
    requires OnTheWay(now, middle, path, skipLocked) && OnTheWay(middle, before, path, skipLocked)
    requires path in middle && middle[path].Dir?
    ensures OnTheWay(now, before, path, skipLocked)
  {
    forall q | q in before && q !in now ensures IsDoomed(before, q, path, skipLocked) {
      if q in middle {
        assert IsDoomed(middle, q, path, skipLocked);
      }
    }
  }

  /** What a walk reports next: a node whose contents have been reported, or a directory it cannot read. */
  datatype Event = Yield(node: Path) | Denied(dir: Path)

  predicate IsBlocked(d: Path, nodes: Nodes) {
    d in nodes && nodes[d].Dir? && !nodes[d].read
  }

  /** `pending` are the nodes below the removed path that have not been reported yet. */
  predicate IsReady(n: Path, nodes: Nodes, pending: set<Path>) {
    && n in pending
    && (forall q :: q in pending && n <= q ==> q == n)
    && (forall d :: d in pending && d <= n ==> !IsBlocked(d, nodes))
  }

  predicate CanHappen(event: Event, nodes: Nodes, pending: set<Path>) {
    match event
    case Yield(n) => IsReady(n, nodes, pending)
    case Denied(d) => d in pending && IsBlocked(d, nodes)
  }

  /** The walk can always go on: either something is unreadable, or a deepest node can be reported. */
  lemma {:induction false} SomethingHappens(nodes: Nodes, pending: set<Path>)
    requires pending != {} && forall d :: d in pending ==> !IsBlocked(d, nodes)
    ensures exists n :: n in pending && IsReady(n, nodes, pending)
  {
    var n := Deepest(pending);
    assert IsReady(n, nodes, pending);
  }

  lemma {:induction false} Deepest(pending: set<Path>) returns (n: Path)
    requires pending != {}
    ensures n in pending && forall q :: q in pending && n <= q ==> q == n
    decreases |pending|
  {
    var m :| m in pending;
    var below := set r | r in pending && m <= r && r != m;
    if below == {} {
      n := m;
      forall q | q in pending && n <= q ensures q == n {
        assert q !in below;
      }
    } else {
      assert m in pending && m !in below;
      SubsetCount(below, pending);
      n := Deepest(below);
      forall q | q in pending && n <= q ensures q == n {
        assert q in below;
      }
    }
  }

  /** The next report of the walk, chosen arbitrarily among those that are possible. */
  method NextEvent(nodes: Nodes, pending: set<Path>) returns (event: Event)
    requires pending != {}
    ensures CanHappen(event, nodes, pending)
  {
    var denied: bool := *;
    var ready := set n | n in pending && IsReady(n, nodes, pending);
    if (exists d :: d in pending && IsBlocked(d, nodes)) && (denied || ready == {}) {
      var d :| d in pending && IsBlocked(d, nodes);
      return Denied(d);
    }
    if forall d :: d in pending ==> !IsBlocked(d, nodes) {
      SomethingHappens(nodes, pending);
      ghost var m :| m in pending && IsReady(m, nodes, pending);
      assert m in ready;
    }
    var n :| n in ready;
    return Yield(n);
  }

  // ---------------------------------------------------------------------------------------------
  // The removal

  /** All states recorded since the trace was `n` long are on the way. */
  ghost predicate AllOnTheWay(trace: seq<Nodes>, n: nat, before: Nodes, path: Path, skipLocked: bool) {
    forall i :: n <= i < |trace| ==> OnTheWay(trace[i], before, path, skipLocked)
  }

  /** The removal is complete: nothing doomed is left, and nothing else is gone. */
  ghost predicate IsRemoved(now: Nodes, before: Nodes, path: Path, skipLocked: bool) {
    OnTheWay(now, before, path, skipLocked) && forall q :: IsDoomed(before, q, path, skipLocked) ==> q !in now
  }

  /** Between two reports: what is left below the path is pending or skipped. */
  ghost predicate Walking(now: Nodes, before: Nodes, pending: set<Path>, path: Path, skipLocked: bool) {
    && OnTheWay(now, before, path, skipLocked) && path in before && before[path].Dir?
    && (forall q :: q in pending ==> q in now && path <= q)
    && (forall q :: q in now && path <= q && q !in pending ==> IsSkipped(q, path, skipLocked))
    && Stuck(before, path) <= pending
  }

  lemma {:induction false} ReadyIsLeaf(now: Nodes, before: Nodes, pending: set<Path>, path: Path, skipLocked: bool,
                                       n: Path)
    requires Walking(now, before, pending, path, skipLocked) && IsReady(n, now, pending)
    requires !IsSkipped(n, path, skipLocked)
    ensures IsLeaf(now, n) && IsDoomed(before, n, path, skipLocked)
    ensures Walking(now - {n}, before, pending - {n}, path, skipLocked)
  {
    forall q | q in now && n <= q ensures q == n {
      assert path <= n && path <= q;
      assert n <= path + [LOCK] ==> n == path || n == path + [LOCK];
    }
    OnTheWayRemove(now, before, path, skipLocked, n);
  }

  /** A directory that cannot be opened is neither removed nor changed on the way. */
  lemma {:induction false} StaysStuck(now: Nodes, before: Nodes, pending: set<Path>, path: Path, skipLocked: bool)
    requires Walking(now, before, pending, path, skipLocked)
    ensures Stuck(now, path) == Stuck(before, path)
  {
    forall d ensures d in Stuck(now, path) <==> d in Stuck(before, path) {
      if d in Stuck(before, path) {
        assert d in pending && SameButModes(now[d], before[d]);
      }
    }
  }

  lemma {:induction false} OpenedIsNotStuck(nodes: Nodes, path: Path, dir: Path)
    requires dir in nodes && nodes[dir] == Dir(false, false)
    ensures Stuck(nodes[dir := Dir(true, true)], path) == Stuck(nodes, path)
  {
  }

  lemma {:induction false} WalkEnds(now: Nodes, before: Nodes, path: Path, skipLocked: bool)
    requires Walking(now, before, {}, path, skipLocked)
    ensures IsRemoved(now, before, path, skipLocked) && CanBeRemoved(before, path)
  {
  }

  lemma {:induction false} NothingBelow(nodes: Nodes, path: Path, skipLocked: bool)
    requires IsTree(nodes) && path !in nodes
    ensures IsRemoved(nodes, nodes, path, skipLocked) && CanBeRemoved(nodes, path)
  {
    forall q | q in nodes ensures !(path <= q) {
      if path <= q {
        AncestorsExist(nodes, path, q);
      }
    }
  }

  lemma {:induction false} FileIsLeaf(nodes: Nodes, path: Path, skipLocked: bool)
    requires IsTree(nodes) && path in nodes && !nodes[path].Dir?
    ensures IsLeaf(nodes, path) && OnTheWay(nodes, nodes, path, skipLocked) && CanBeRemoved(nodes, path)
    ensures IsRemoved(nodes - {path}, nodes, path, skipLocked)
  {
    forall q | q in nodes && path <= q ensures q == path {
      AncestorsExist(nodes, path, q);
    }
    OnTheWayRemove(nodes, nodes, path, skipLocked, path);
  }

  lemma {:induction false} AllOnTheWayTransitive(trace: seq<Nodes>, n: nat, m: nat, middle: Nodes, before: Nodes,
                                                 path: Path, skipLocked: bool)
    requires n <= m <= |trace| && AllOnTheWay(trace[..m], n, before, path, skipLocked)
    requires AllOnTheWay(trace, m, middle, path, skipLocked) && OnTheWay(middle, before, path, skipLocked)
    requires path in middle && middle[path].Dir?
    ensures AllOnTheWay(trace, n, before, path, skipLocked)
  {
    forall i | n <= i < |trace| ensures OnTheWay(trace[i], before, path, skipLocked) {
      if i < m {
        assert trace[..m][i] == trace[i];
      } else {
        OnTheWayTransitive(trace[i], middle, before, path, skipLocked);
      }
    }
  }

  lemma {:induction false} IsRemovedTransitive(now: Nodes, middle: Nodes, before: Nodes, path: Path, skipLocked: bool)
    requires IsRemoved(now, middle, path, skipLocked) && OnTheWay(middle, before, path, skipLocked)
    requires path in middle && middle[path].Dir? && path in before && before[path].Dir?
    ensures IsRemoved(now, before, path, skipLocked)
  {
    OnTheWayTransitive(now, middle, before, path, skipLocked);
    forall q | IsDoomed(before, q, path, skipLocked) ensures q !in now {
      if q in middle {
        assert IsDoomed(middle, q, path, skipLocked);
      }
    }
  }

  datatype Totals = Totals(files: nat, dirs: nat, bytes: nat)

  class Removal {
    var numFiles: nat
    var numDirs: nat
    var totalBytes: nat

    constructor ()
      ensures numFiles == numDirs == totalBytes == 0
    {
      numFiles, numDirs, totalBytes := 0, 0, 0;
    }

    /** `AddAssign`. */
    method Add(other: Removal)
      modifies this
      ensures numFiles == old(numFiles) + old(other.numFiles)
      ensures numDirs == old(numDirs) + old(other.numDirs)
      ensures totalBytes == old(totalBytes) + old(other.totalBytes)
    {
      numFiles, numDirs := numFiles + other.numFiles, numDirs + other.numDirs;
      totalBytes := totalBytes + other.totalBytes;
    }

    /** `rm_rf` on its own counters, which are added on success: every node removed is counted once here too. */
    method AddRemoval(fs: FileSystem, path: Path) returns (ok: bool)
      requires fs.Valid()
      modifies this, fs
      ensures fs.Valid() && OnTheWay(fs.nodes, old(fs.nodes), path, false)
      ensures ok ==> IsRemoved(fs.nodes, old(fs.nodes), path, false)
      ensures ok ==> Total(fs.nodes) == old(Total(fs.nodes))
      ensures SucceedsIf(CanBeRemoved(old(fs.nodes), path), ok, old(fs.failed), fs.failed)
      ensures old(fs.trace) <= fs.trace && AllOnTheWay(fs.trace, |old(fs.trace)|, old(fs.nodes), path, false)
    {
      var removal := new Removal();
      ok := removal.RmRf(fs, path, false);
      if ok {
        Add(removal);
      }
    }

    /** What has been counted together with what is still there. */
    ghost function Total(nodes: Nodes): Totals
      reads this
    {
      Totals(numFiles + |Files(nodes)|, numDirs + |Dirs(nodes)|, totalBytes + Bytes(nodes))
    }

    /** Counts a node and removes it. */
    method Take(fs: FileSystem, p: Path, ghost total: Totals) returns (ok: bool)
      requires fs.Valid() && IsLeaf(fs.nodes, p) && Total(fs.nodes) == total
      modifies this, fs
      ensures fs.Valid() && fs.nodes == if ok then old(fs.nodes) - {p} else old(fs.nodes)
      ensures fs.trace == old(fs.trace) + [fs.nodes] && fs.failed == (old(fs.failed) || !ok)
      ensures ok ==> Total(fs.nodes) == total
    {
      CountWithout(fs.nodes, p);
      BytesWithout(fs.nodes, p);
      if fs.nodes[p].Dir? {
        numDirs := numDirs + 1;
      } else {
        numFiles := numFiles + 1;
        totalBytes := totalBytes + fs.nodes[p].size;
      }
      ok := fs.RemoveNode(p);
    }

    /** Handles one reported node of the walk: skips it, or counts and removes it. */
    method Report(fs: FileSystem, n: Path, pending: set<Path>, path: Path, skipLocked: bool, ghost before: Nodes,
                  ghost total: Totals)
      returns (ok: bool)
      requires fs.Valid() && Walking(fs.nodes, before, pending, path, skipLocked) && IsReady(n, fs.nodes, pending)
      requires Total(fs.nodes) == total
      modifies this, fs
      ensures fs.Valid() && OnTheWay(fs.nodes, before, path, skipLocked)
      ensures ok ==> Walking(fs.nodes, before, pending - {n}, path, skipLocked) && Total(fs.nodes) == total
      ensures fs.trace == old(fs.trace) || fs.trace == old(fs.trace) + [fs.nodes]
      ensures fs.failed == (old(fs.failed) || !ok)
    {
      if skipLocked && n == path + [LOCK] {
        return true;
      }
      if fs.nodes[n].Dir? && skipLocked && n == path {
        return true;
      }
      ReadyIsLeaf(fs.nodes, before, pending, path, skipLocked, n);
      ok := Take(fs, n, total);
    }

    /** The same, with all states on record. */
    method ReportNext(fs: FileSystem, n: Path, pending: set<Path>, path: Path, skipLocked: bool, ghost before: Nodes,
                      ghost start: nat, ghost total: Totals)
      returns (ok: bool)
      requires fs.Valid() && Walking(fs.nodes, before, pending, path, skipLocked) && IsReady(n, fs.nodes, pending)
      requires Total(fs.nodes) == total && start <= |fs.trace| && AllOnTheWay(fs.trace, start, before, path, skipLocked)
      modifies this, fs
      ensures fs.Valid() && OnTheWay(fs.nodes, before, path, skipLocked)
      ensures ok ==> Walking(fs.nodes, before, pending - {n}, path, skipLocked) && Total(fs.nodes) == total
      ensures old(fs.trace) <= fs.trace && AllOnTheWay(fs.trace, start, before, path, skipLocked)
      ensures fs.failed == (old(fs.failed) || !ok)
    {
      ok := Report(fs, n, pending, path, skipLocked, before, total);
    }

    /** `set_readable` followed by the decision whether to retry. */
    method Reopen(fs: FileSystem, dir: Path, path: Path, skipLocked: bool, ghost before: Nodes,
                  ghost total: Totals)
      returns (retry: bool)
      requires fs.Valid() && OnTheWay(fs.nodes, before, path, skipLocked) && path <= dir && IsBlocked(dir, fs.nodes)
      requires Total(fs.nodes) == total
      modifies fs
      ensures fs.Valid() && OnTheWay(fs.nodes, before, path, skipLocked) && Total(fs.nodes) == total
      ensures retry ==> |Shut(fs.nodes, path)| < |Shut(before, path)|
      ensures fs.nodes == if retry then old(fs.nodes)[dir := Dir(true, true)] else old(fs.nodes)
      ensures if retry then fs.failed == old(fs.failed) && old(fs.nodes)[dir] == Dir(false, false)
              else (fs.failed || old(fs.nodes)[dir] == Dir(false, true)) && (old(fs.failed) ==> fs.failed)
      ensures fs.trace == old(fs.trace) || fs.trace == old(fs.trace) + [fs.nodes]
    {
      if fs.nodes[dir].search {
        return false;
      }
      OnTheWayReadable(fs.nodes, before, path, skipLocked, dir);
      CountReadable(fs.nodes, dir, Dir(true, true));
      retry := fs.SetReadable(dir);
    }

    /** The branch for a path that is no directory. */
    method RemoveFile(fs: FileSystem, path: Path, skipLocked: bool, ghost total: Totals)
      returns (ok: bool)
      requires fs.Valid() && path in fs.nodes && !fs.nodes[path].Dir? && Total(fs.nodes) == total
      modifies this, fs
      ensures fs.Valid() && OnTheWay(fs.nodes, old(fs.nodes), path, skipLocked)
      ensures ok ==> IsRemoved(fs.nodes, old(fs.nodes), path, skipLocked) && Total(fs.nodes) == total
      ensures fs.trace == old(fs.trace) + [fs.nodes] && fs.failed == (old(fs.failed) || !ok)
      ensures CanBeRemoved(old(fs.nodes), path)
    {
      FileIsLeaf(fs.nodes, path, skipLocked);
      ok := Take(fs, path, total);
    }

    /** Starts over after a directory was made readable, keeping the counters. */
    method Retry(fs: FileSystem, path: Path, skipLocked: bool, ghost before: Nodes, ghost start: nat,
                 ghost total: Totals)
      returns (ok: bool)
      requires fs.Valid() && OnTheWay(fs.nodes, before, path, skipLocked) && Total(fs.nodes) == total
      requires path in before && before[path].Dir? && path in fs.nodes && fs.nodes[path].Dir?
      requires start <= |fs.trace| && AllOnTheWay(fs.trace, start, before, path, skipLocked)
      requires CanBeRemoved(fs.nodes, path) <==> CanBeRemoved(before, path)
      modifies this, fs
      ensures fs.Valid() && OnTheWay(fs.nodes, before, path, skipLocked)
      ensures ok ==> IsRemoved(fs.nodes, before, path, skipLocked) && Total(fs.nodes) == total
      ensures old(fs.trace) <= fs.trace && AllOnTheWay(fs.trace, start, before, path, skipLocked)
      ensures SucceedsIf(CanBeRemoved(before, path), ok, old(fs.failed), fs.failed)
      decreases |Shut(fs.nodes, path)|, 3
    {
      ghost var middle, n := fs.nodes, |fs.trace|;
      ok := RmRf(fs, path, skipLocked);
      OnTheWayTransitive(fs.nodes, middle, before, path, skipLocked);
      if ok {
        IsRemovedTransitive(fs.nodes, middle, before, path, skipLocked);
      }
      AllOnTheWayTransitive(fs.trace, start, n, middle, before, path, skipLocked);
    }

    /**
     * Removes everything at or below a path. On success exactly the doomed nodes are gone, and each
     * has been counted once, across any number of retries. Every state passed through differs from
     * the first one only by doomed nodes and by directories made readable. It succeeds exactly if no
     * step fails and every unreadable directory can be made readable.
     */
    method RmRf(fs: FileSystem, path: Path, skipLocked: bool) returns (ok: bool)
      requires fs.Valid()
      modifies this, fs
      ensures fs.Valid() && OnTheWay(fs.nodes, old(fs.nodes), path, skipLocked)
      ensures ok ==> IsRemoved(fs.nodes, old(fs.nodes), path, skipLocked)
      ensures ok ==> Total(fs.nodes) == old(Total(fs.nodes))
      ensures old(fs.trace) <= fs.trace && AllOnTheWay(fs.trace, |old(fs.trace)|, old(fs.nodes), path, skipLocked)
      ensures SucceedsIf(CanBeRemoved(old(fs.nodes), path), ok, old(fs.failed), fs.failed)
      decreases |Shut(fs.nodes, path)|, 2
    {
      if path !in fs.nodes {
        NothingBelow(fs.nodes, path, skipLocked);
        return true;
      }
      if !fs.nodes[path].Dir? {
        ok := RemoveFile(fs, path, skipLocked, Total(fs.nodes));
      } else {
        ok := Walk(fs, path, skipLocked, Total(fs.nodes));
      }
    }

    /** The loop over the contents of a directory. */
    method Walk(fs: FileSystem, path: Path, skipLocked: bool, ghost total: Totals) returns (ok: bool)
      requires fs.Valid() && path in fs.nodes && fs.nodes[path].Dir? && Total(fs.nodes) == total
      modifies this, fs
      ensures fs.Valid() && OnTheWay(fs.nodes, old(fs.nodes), path, skipLocked)
      ensures ok ==> IsRemoved(fs.nodes, old(fs.nodes), path, skipLocked) && Total(fs.nodes) == total
      ensures old(fs.trace) <= fs.trace && AllOnTheWay(fs.trace, |old(fs.trace)|, old(fs.nodes), path, skipLocked)
      ensures SucceedsIf(CanBeRemoved(old(fs.nodes), path), ok, old(fs.failed), fs.failed)
      decreases |Shut(fs.nodes, path)|, 1
    {
      ghost var before, start := fs.nodes, |fs.trace|;
      var pending := set q | q in fs.nodes && path <= q;
      while pending != {}
        invariant fs.Valid() && Walking(fs.nodes, before, pending, path, skipLocked) && Total(fs.nodes) == total
        invariant old(fs.trace) <= fs.trace && AllOnTheWay(fs.trace, start, before, path, skipLocked)
        invariant fs.failed == old(fs.failed)
        decreases pending
      {
        var event := NextEvent(fs.nodes, pending);
        if event.Denied? {
          ok := Unblock(fs, event.dir, pending, path, skipLocked, before, start, total);
          return ok;
        }
        ok := ReportNext(fs, event.node, pending, path, skipLocked, before, start, total);
        if !ok {
          return false;
        }
        pending := pending - {event.node};
      }
      WalkEnds(fs.nodes, before, path, skipLocked);
      return true;
    }

    /** An unreadable directory: make it readable and start over with the counters kept, or give up. */
    method Unblock(fs: FileSystem, dir: Path, ghost pending: set<Path>, path: Path, skipLocked: bool,
                   ghost before: Nodes, ghost start: nat, ghost total: Totals)
      returns (ok: bool)
      requires fs.Valid() && Walking(fs.nodes, before, pending, path, skipLocked) && Total(fs.nodes) == total
      requires path <= dir && IsBlocked(dir, fs.nodes)
      requires start <= |fs.trace| && AllOnTheWay(fs.trace, start, before, path, skipLocked)
      modifies this, fs
      ensures fs.Valid() && OnTheWay(fs.nodes, before, path, skipLocked)
      ensures ok ==> IsRemoved(fs.nodes, before, path, skipLocked) && Total(fs.nodes) == total
      ensures old(fs.trace) <= fs.trace && AllOnTheWay(fs.trace, start, before, path, skipLocked)
      ensures SucceedsIf(CanBeRemoved(before, path), ok, old(fs.failed), fs.failed)
      decreases |Shut(before, path)|, 0
    {
      StaysStuck(fs.nodes, before, pending, path, skipLocked);
      assert fs.nodes[dir].search ==> dir in Stuck(fs.nodes, path);
      ok := Reopen(fs, dir, path, skipLocked, before, total);
      if ok {
        OpenedIsNotStuck(old(fs.nodes), path, dir);
        AncestorsExist(fs.nodes, path, dir);
        ok := Retry(fs, path, skipLocked, before, start, total);
      }
    }
  }
}
