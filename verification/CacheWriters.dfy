/**
 * Models `Cache::persist` and `Cache::create_link` (its Unix form) in crates/uv-cache/src/lib.rs,
 * and whole runs of the operations that change the cache. `published` lists, for all times, which
 * paths an archive consists of once it has been moved into place.
 */
module CacheWriters {
  import opened FileSystem
  import opened Removal
  import opened CacheLayout
  import opened CacheEntries
  import opened CacheStages
  import opened CacheCollector

  // ---------------------------------------------------------------------------------------------
  // Changes that keep links safe

  /** No link is in danger; and if `placed`, the search finds all links. */
  ghost predicate Fits(nodes: Nodes, published: set<Path>, placed: bool) {
    IsSound(nodes, published) && (placed ==> IsPlaced(nodes))
  }

  ghost predicate AllFit(trace: seq<Nodes>, n: nat, published: set<Path>, placed: bool) {
    forall i :: n <= i < |trace| ==> Fits(trace[i], published, placed)
  }

  /** A node may appear at a path if it is no link, or one to an intact archive, which the search finds if it has to. */
  ghost predicate MayAppear(nodes: Nodes, p: Path, node: Node, published: set<Path>, placed: bool) {
    InLinkBucket(p) && node.Link? ==> (placed ==> IsLinkPlace(p)) && IsIntact(nodes, node.id, published)
  }

  predicate IsLinkPlace(p: Path) {
    InLinkBucket(p) ==> IsScanned(p) && (p[0] == WHEELS ==> |p| > 2)
  }

  lemma {:induction false} GoodAfterSetting(nodes: Nodes, p: Path, node: Node, published: set<Path>, placed: bool)
    requires Fits(nodes, published, placed) && MayAppear(nodes, p, node, published, placed)
    requires p != [] ==> Parent(p) in nodes && nodes[Parent(p)].Dir?
    requires p in nodes ==> !nodes[p].Dir?
    ensures Fits(nodes[p := node], published, placed)
  {
    var after := nodes[p := node];
    forall q | IsLink(after, q) ensures IsIntact(after, after[q].id, published) && (placed ==> IsLinkPlace(q)) {
      assert q != p ==> IsLink(nodes, q);
    }
    forall q | q in after && q != [] ensures Parent(q) in after && after[Parent(q)].Dir? {
      assert q != p ==> Parent(q) in nodes && nodes[Parent(q)].Dir?;
    }
  }

  /** Taking away one leaf outside the archives keeps links safe. */
  lemma {:induction false} GoodAfterRemoving(nodes: Nodes, p: Path, published: set<Path>, placed: bool)
    requires Fits(nodes, published, placed) && IsLeaf(nodes, p) && p != [] && p[0] != ARCHIVE
    ensures Fits(nodes - {p}, published, placed)
  {
    forall q | IsLink(nodes - {p}, q) ensures IsLink(nodes, q) && IsIntact(nodes - {p}, nodes[q].id, published) {
      assert p !in published;
    }
    forall q | q in nodes - {p} && q != [] ensures Parent(q) != p {
      assert Parent(q) <= q;
    }
  }

  lemma {:induction false} GoodAfterGrafting(nodes: Nodes, p: Path, content: Nodes, published: set<Path>, placed: bool)
    requires Fits(nodes, published, placed) && IsTree(content) && p != [] && p[0] == ARCHIVE
    requires Parent(p) in nodes && nodes[Parent(p)].Dir? && forall q :: p <= q ==> q !in nodes
    ensures Fits(Grafted(nodes, p, content), published, placed)
  {
    GraftedIsTree(nodes, p, content);
    OthersOutliveGraft(nodes, p, content);
    SafeWithMore(Grafted(nodes, p, content), nodes, published, p[0]);
  }

  /** More nodes outside the buckets of links endanger none. */
  lemma {:induction false} SafeWithMore(after: Nodes, nodes: Nodes, published: set<Path>, bucket: string)
    requires IsSafe(nodes, published) && bucket == ARCHIVE
    requires forall q :: q in nodes ==> q in after && after[q] == nodes[q]
    requires forall q :: q in after && q !in nodes ==> q != [] && q[0] == bucket
    ensures IsSafe(after, published) && (IsPlaced(nodes) ==> IsPlaced(after))
  {
    forall q | IsLink(after, q) ensures IsLink(nodes, q) && after[q] == nodes[q] {
      assert q[0] != bucket;
    }
  }

  lemma {:induction false} OthersOutliveGraft(nodes: Nodes, p: Path, content: Nodes)
    requires p != [] && forall q :: p <= q ==> q !in nodes
    ensures var after := Grafted(nodes, p, content);
      && (forall q :: q in nodes ==> q in after && after[q] == nodes[q])
      && (forall q :: q in after && q !in nodes ==> q != [] && q[0] == p[0])
  {
  }

  // ---------------------------------------------------------------------------------------------
  // Writers

  /** Nothing was added below the archive bucket. */
  ghost predicate NoNewArchive(now: Nodes, before: Nodes) {
    forall q :: q in now && |q| >= 2 && q[0] == ARCHIVE ==> q in before
  }

  /** What each writer keeps, in every state it passes through. */
  twostate predicate Kept(fs: FileSystem, published: set<Path>, placed: bool)
    reads fs
  {
    && Fits(fs.nodes, published, placed)
    && old(fs.trace) <= fs.trace && AllFit(fs.trace, |old(fs.trace)|, published, placed)
  }

  /** Creates one node. */
  method Create(fs: FileSystem, p: Path, node: Node, ghost published: set<Path>, ghost placed: bool) returns (ok: bool)
    requires Fits(fs.nodes, published, placed) && MayAppear(fs.nodes, p, node, published, placed)
    requires p !in fs.nodes && (p != [] ==> Parent(p) in fs.nodes && fs.nodes[Parent(p)].Dir?)
    modifies fs
    ensures Kept(fs, published, placed) && fs.nodes == if ok then old(fs.nodes)[p := node] else old(fs.nodes)
    ensures fs.trace == old(fs.trace) + [fs.nodes] && fs.failed == (old(fs.failed) || !ok)
  {
    GoodAfterSetting(fs.nodes, p, node, published, placed);
    ok := fs.CreateNode(p, node);
  }

  /** Removes one node outside the archives. */
  method RemoveOne(fs: FileSystem, p: Path, ghost published: set<Path>, ghost placed: bool) returns (ok: bool)
    requires Fits(fs.nodes, published, placed) && IsLeaf(fs.nodes, p) && p != [] && p[0] != ARCHIVE
    modifies fs
    ensures Kept(fs, published, placed) && fs.nodes == if ok then old(fs.nodes) - {p} else old(fs.nodes)
    ensures fs.trace == old(fs.trace) + [fs.nodes] && fs.failed == (old(fs.failed) || !ok)
  {
    GoodAfterRemoving(fs.nodes, p, published, placed);
    ok := fs.RemoveNode(p);
  }

  /** Nothing changed but at `dst` and below `temp`. */
  ghost predicate SameElsewhere(now: Nodes, before: Nodes, dst: Path, temp: Path) {
    forall q :: q != dst && !(temp <= q) ==> (q in now <==> q in before) && (q in before ==> now[q] == before[q])
  }

  predicate IsLinkTo(nodes: Nodes, p: Path, id: string) {
    p in nodes && nodes[p].Link? && nodes[p].id == id
  }

  /** A path exists in every state recorded since the trace was `n` long. */
  ghost predicate IsThere(trace: seq<Nodes>, n: nat, p: Path) {
    forall i :: n <= i < |trace| ==> p in trace[i]
  }

  /** Nothing at or above the path is anything but a directory. */
  ghost predicate CanCreate(nodes: Nodes, p: Path) {
    forall q :: q in nodes && q <= p ==> nodes[q].Dir?
  }

  lemma {:induction false} DirectoryCanBe(nodes: Nodes, p: Path)
    requires IsTree(nodes) && p in nodes
    ensures CanCreate(nodes, p) <==> nodes[p].Dir?
  {
    forall q | q in nodes && q <= p && q != p ensures nodes[q].Dir? {
      AncestorsExist(nodes, q, p);
    }
    assert p <= p;
  }

  lemma {:induction false} ParentCanBe(nodes: Nodes, p: Path)
    requires p !in nodes && p != []
    ensures CanCreate(nodes, p) <==> CanCreate(nodes, Parent(p))
  {
    forall q | q in nodes ensures q <= p <==> q <= Parent(p) {
      assert q <= p && |q| == |p| ==> q == p;
    }
  }

  /** `create_dir_all`. */
  method CreateDirAll(fs: FileSystem, p: Path, ghost published: set<Path>, ghost placed: bool) returns (ok: bool)
    requires Fits(fs.nodes, published, placed) && (|p| >= 2 ==> p[0] != ARCHIVE)
    modifies fs
    ensures Kept(fs, published, placed)
    ensures ok ==> p in fs.nodes && fs.nodes[p].Dir?
    ensures SucceedsIf(CanCreate(old(fs.nodes), p), ok, old(fs.failed), fs.failed)
    ensures AddsDirs(fs.nodes, old(fs.nodes), p) && NoNewArchive(fs.nodes, old(fs.nodes))
    decreases |p|
  {
    if p in fs.nodes {
      DirectoryCanBe(fs.nodes, p);
      return fs.nodes[p].Dir?;
    }
    if p != [] {
      ParentCanBe(fs.nodes, p);
      ok := CreateDirAll(fs, Parent(p), published, placed);
      if !ok {
        return;
      }
    }
    AddsOneMore(fs.nodes, old(fs.nodes), p);
    ok := Create(fs, p, Dir(true, true), published, placed);
  }

  /** Nothing is new but directories at or above the path. */
  ghost predicate AddsDirs(now: Nodes, before: Nodes, p: Path) {
    && (forall q :: q in before ==> q in now && now[q] == before[q])
    && (forall q :: q in now && q !in before ==> q <= p && now[q].Dir?)
  }

  lemma {:induction false} AddsOneMore(now: Nodes, before: Nodes, p: Path)
    requires (if p == [] then now == before else AddsDirs(now, before, Parent(p))) && p !in before
    requires |p| >= 2 ==> p[0] != ARCHIVE
    ensures AddsDirs(now, before, p) && AddsDirs(now[p := Dir(true, true)], before, p)
    ensures NoNewArchive(now, before) && NoNewArchive(now[p := Dir(true, true)], before)
    ensures p == [] ==> CanCreate(before, p)
  {
    forall q | q in now && q !in before ensures q <= p && (|q| >= 2 ==> q[0] == p[0]) {
      assert p != [] ==> Parent(p) <= p;
    }
  }

  /** The link can be made: in a directory, and over anything but a directory if the temporary name is free. */
  predicate CanLink(nodes: Nodes, dst: Path, suffix: string)
    requires dst != []
  {
    && IsDirectory(nodes, Parent(dst))
    && (dst in nodes ==> !nodes[dst].Dir? && Parent(dst) + [".tmp" + suffix] !in nodes)
  }

  /**
   * Links `dst` to an archive: directly if nothing is there, otherwise through a link in a new
   * temporary directory that is renamed over it.
   */
  method CreateLink(fs: FileSystem, id: string, dst: Path, suffix: string, ghost published: set<Path>,
                    ghost placed: bool)
    returns (ok: bool)
    requires Fits(fs.nodes, published, placed) && IsIntact(fs.nodes, id, published)
    requires |dst| >= 2 && dst[0] != ARCHIVE && (placed ==> IsLinkPlace(dst)) && '.' !in suffix
    modifies fs
    ensures Kept(fs, published, placed)
    ensures ok ==> IsLinkTo(fs.nodes, dst, id) && CanLink(old(fs.nodes), dst, suffix)
    ensures !ok ==> fs.failed || !CanLink(old(fs.nodes), dst, suffix)
    ensures !fs.failed ==> fs.nodes == if ok then old(fs.nodes)[dst := Link(id, 0)] else old(fs.nodes)
    ensures old(fs.failed) ==> fs.failed
    ensures dst in old(fs.nodes) ==> dst in fs.nodes && IsThere(fs.trace, |old(fs.trace)|, dst)
    ensures forall q :: q in old(fs.nodes) && q != dst ==> q in fs.nodes && fs.nodes[q] == old(fs.nodes)[q]
    ensures forall q :: q != [] && q[0] == ARCHIVE && q in fs.nodes ==> q in old(fs.nodes)
  {
    if Parent(dst) !in fs.nodes || !fs.nodes[Parent(dst)].Dir? {
      return false;
    }
    if dst !in fs.nodes {
      ok := Create(fs, dst, Link(id, 0), published, placed);
      return;
    }
    var temp := Parent(dst) + [TempName(suffix)];
    if temp in fs.nodes {
      return false;
    }
    NothingUnder(fs.nodes, temp);
    ok := ReplaceLink(fs, id, dst, temp, suffix, published, placed);
    assert forall q :: temp <= q ==> q[0] == dst[0];
  }

  /** The name of a directory made by `tempfile::tempdir_in`. */
  function TempName(suffix: string): string {
    ".tmp" + suffix
  }

  lemma {:induction false} NoDot(name: string, suffix: string)
    requires '.' !in suffix
    ensures LastDot(name + suffix) == LastDot(name)
    decreases |suffix|
  {
    if suffix == "" {
      assert name + suffix == name;
    } else {
      var n := |suffix| - 1;
      assert suffix[n] in suffix;
      assert (name + suffix)[..|name + suffix| - 1] == name + suffix[..n];
      NoDot(name, suffix[..n]);
    }
  }

  lemma {:induction false} TempIsLinkPlace(dst: Path, suffix: string)
    requires |dst| >= 2 && IsLinkPlace(dst) && '.' !in suffix
    ensures IsLinkPlace(Parent(dst) + [TempName(suffix)] + ["link"])
  {
    var name, p := TempName(suffix), Parent(dst) + [TempName(suffix)] + ["link"];
    NoDot(".", "tmp");
    NoDot(".tmp", suffix);
    assert ".tmp" == "." + "tmp" && LastDot(".") == 0;
    assert name[0] == '.' && name[1] == 't' && name[2] == 'm';
    assert Extension(name) == "" && !IsFiltered(name);
    NoDot("", "link");
    assert "" + "link" == "link" && !IsFiltered("link");
    if InLinkBucket(p) {
      assert InLinkBucket(dst) && p[0] == dst[0];
      forall i | 1 <= i < |p| ensures !IsFiltered(p[i]) {
        assert i < |dst| - 1 ==> p[i] == dst[i];
      }
    }
  }

  method ReplaceLink(fs: FileSystem, id: string, dst: Path, temp: Path, ghost suffix: string,
                     ghost published: set<Path>, ghost placed: bool)
    returns (ok: bool)
    requires Fits(fs.nodes, published, placed) && IsIntact(fs.nodes, id, published)
    requires |dst| >= 2 && dst[0] != ARCHIVE && (placed ==> IsLinkPlace(dst)) && '.' !in suffix
    requires dst in fs.nodes && Parent(dst) in fs.nodes && fs.nodes[Parent(dst)].Dir?
    requires temp == Parent(dst) + [TempName(suffix)] && temp !in fs.nodes
    modifies fs
    ensures Kept(fs, published, placed) && SameElsewhere(fs.nodes, old(fs.nodes), dst, temp)
    ensures dst in fs.nodes && IsThere(fs.trace, |old(fs.trace)|, dst) && (ok ==> IsLinkTo(fs.nodes, dst, id))
    ensures IsReplaced(fs.nodes, old(fs.nodes), dst, id, ok, old(fs.failed), fs.failed)
  {
    assert Parent(temp) == Parent(dst) && temp[0] == dst[0] && !(temp <= dst) by {
      assert |temp| == |dst| && temp != dst;
    }
    ghost var before := fs.nodes;
    ok := Create(fs, temp, Dir(true, true), published, placed);
    SameBeside(before, temp, dst);
    if ok {
      ok := MoveAndCleanUp(fs, id, dst, temp, suffix, published, placed, before);
    }
  }

  /** Success unless `dst` is a directory or a step fails; if none does, nothing is left of the attempt. */
  ghost predicate IsReplaced(now: Nodes, before: Nodes, dst: Path, id: string, ok: bool, failedBefore: bool,
                             failedAfter: bool)
    requires dst in before
  {
    && (if ok then !before[dst].Dir? else failedAfter || before[dst].Dir?)
    && (!failedAfter ==> now == if ok then before[dst := Link(id, 0)] else before)
    && (failedBefore ==> failedAfter)
  }

  lemma {:induction false} SameBeside(nodes: Nodes, temp: Path, dst: Path)
    ensures SameElsewhere(nodes, nodes, dst, temp)
  {
  }

  /** The rest of the replacement, once the temporary directory exists. */
  method MoveAndCleanUp(fs: FileSystem, id: string, dst: Path, temp: Path, ghost suffix: string,
                        ghost published: set<Path>,
                        ghost placed: bool, ghost before: Nodes)
    returns (ok: bool)
    requires Fits(fs.nodes, published, placed) && IsIntact(fs.nodes, id, published)
    requires |dst| >= 2 && dst[0] != ARCHIVE && (placed ==> IsLinkPlace(dst)) && '.' !in suffix
    requires temp == Parent(dst) + [TempName(suffix)] && temp !in before && !(temp <= dst) && dst in before
    requires IsTree(before) && fs.nodes == before[temp := Dir(true, true)]
    modifies fs
    ensures Kept(fs, published, placed) && SameElsewhere(fs.nodes, before, dst, temp)
    ensures dst in fs.nodes && IsThere(fs.trace, |old(fs.trace)|, dst) && (ok ==> IsLinkTo(fs.nodes, dst, id))
    ensures IsReplaced(fs.nodes, before, dst, id, ok, old(fs.failed), fs.failed)
  {
    NothingUnder(before, temp);
    NotBelow(before, temp);
    ok := MoveLink(fs, id, dst, temp, suffix, published, placed);
    ghost var middle := fs.nodes;
    MoveIsLocal(middle, before, dst, temp, id, ok);
    NothingLeft(middle, before, temp, dst, id, ok);
    CleanUp(fs, temp, dst, published, placed);
    SameTwice(fs.nodes, middle, before, dst, temp);
  }

  lemma {:induction false} NothingLeft(middle: Nodes, before: Nodes, temp: Path, dst: Path, id: string, ok: bool)
    requires temp !in before && temp + ["link"] !in before && !(temp <= dst)
    requires IsMoved(middle, before[temp := Dir(true, true)], temp + ["link"], dst, id, ok)
    ensures middle - {temp, temp + ["link"]} == if ok then before[dst := Link(id, 0)] else before
  {
    assert temp <= temp && temp <= temp + ["link"];
  }

  lemma {:induction false} NotBelow(nodes: Nodes, temp: Path)
    requires forall q :: q in nodes ==> !(temp <= q)
    ensures temp + ["link"] !in nodes && temp + ["link"] != temp
  {
    assert temp <= temp + ["link"];
  }

  lemma {:induction false} SameTwice(now: Nodes, middle: Nodes, start: Nodes, dst: Path, temp: Path)
    requires SameElsewhere(now, middle, temp, temp) && SameElsewhere(middle, start, dst, temp)
    ensures SameElsewhere(now, start, dst, temp)
    ensures !(temp <= dst) && dst in middle ==> dst in now && now[dst] == middle[dst]
  {
  }

  /**
   * What moving a link into place may leave: everything as it was, the link still to be moved, or
   * the link in place.
   */
  ghost predicate IsMoved(now: Nodes, before: Nodes, from: Path, dst: Path, id: string, ok: bool) {
    if ok then now == before[dst := Link(id, 0)] else now == before || now == before[from := Link(id, 0)]
  }

  lemma {:induction false} MoveIsLocal(now: Nodes, before: Nodes, dst: Path, temp: Path, id: string, ok: bool)
    requires temp !in before && (forall q :: q in before ==> !(temp <= q)) && dst in before && !(temp <= dst)
    requires IsMoved(now, before[temp := Dir(true, true)], temp + ["link"], dst, id, ok)
    ensures SameElsewhere(now, before, dst, temp) && OnlyLinkBelow(now, temp) && dst in now
    ensures (ok ==> IsLinkTo(now, dst, id))
  {
    assert temp <= temp + ["link"] && temp != temp + ["link"];
  }

  lemma {:induction false} NothingUnder(nodes: Nodes, temp: Path)
    requires IsTree(nodes) && temp !in nodes
    ensures forall q :: q in nodes ==> !(temp <= q)
  {
    forall q | q in nodes && temp <= q ensures false {
      AncestorsExist(nodes, temp, q);
    }
  }

  /** Below the temporary directory there is nothing but the link. */
  ghost predicate OnlyLinkBelow(nodes: Nodes, temp: Path) {
    && temp in nodes && nodes[temp].Dir?
    && (forall q :: q in nodes && temp <= q ==> q == temp || q == temp + ["link"])
    && (temp + ["link"] in nodes ==> nodes[temp + ["link"]].Link?)
  }

  method MoveLink(fs: FileSystem, id: string, dst: Path, temp: Path, ghost suffix: string, ghost published: set<Path>,
                  ghost placed: bool)
    returns (ok: bool)
    requires Fits(fs.nodes, published, placed) && IsIntact(fs.nodes, id, published)
    requires |dst| >= 2 && dst[0] != ARCHIVE && (placed ==> IsLinkPlace(dst)) && '.' !in suffix
    requires temp == Parent(dst) + [TempName(suffix)] && dst != temp && dst in fs.nodes
    requires temp in fs.nodes && fs.nodes[temp].Dir? && temp + ["link"] !in fs.nodes
    modifies fs
    ensures Kept(fs, published, placed) && IsThere(fs.trace, |old(fs.trace)|, dst)
    ensures IsMoved(fs.nodes, old(fs.nodes), temp + ["link"], dst, id, ok)
    ensures SucceedsIf(!old(fs.nodes)[dst].Dir?, ok, old(fs.failed), fs.failed)
  {
    var from := temp + ["link"];
    if placed {
      TempIsLinkPlace(dst, suffix);
    }
    assert Parent(from) == temp && from[0] == dst[0] && from != dst by {
      assert |from| == |dst| + 1;
    }
    ok := Create(fs, from, Link(id, 0), published, placed);
    if ok {
      ok := MoveOver(fs, from, dst, published, placed);
      SetThenMoved(old(fs.nodes), from, dst, Link(id, 0));
    }
  }

  lemma {:induction false} SetThenMoved(nodes: Nodes, from: Path, dst: Path, node: Node)
    requires from !in nodes
    ensures (nodes[from := node] - {from})[dst := node] == nodes[dst := node]
  {
  }

  method MoveOver(fs: FileSystem, from: Path, dst: Path, ghost published: set<Path>, ghost placed: bool)
    returns (ok: bool)
    requires Fits(fs.nodes, published, placed) && from in fs.nodes && fs.nodes[from].Link? && from != dst && from != []
    requires from[0] != ARCHIVE && dst in fs.nodes && dst != [] && (placed ==> IsLinkPlace(dst)) && from[0] == dst[0]
    modifies fs
    ensures Kept(fs, published, placed)
    ensures fs.nodes == if ok then (old(fs.nodes) - {from})[dst := old(fs.nodes)[from]] else old(fs.nodes)
    ensures SucceedsIf(!old(fs.nodes)[dst].Dir?, ok, old(fs.failed), fs.failed)
    ensures IsThere(fs.trace, |old(fs.trace)|, dst)
  {
    if fs.nodes[dst].Dir? {
      return false;
    }
    GoodAfterRenaming(fs.nodes, from, dst, published, placed);
    ok := fs.RenameOver(from, dst);
  }

  lemma {:induction false} GoodAfterRenaming(nodes: Nodes, from: Path, dst: Path, published: set<Path>, placed: bool)
    requires Fits(nodes, published, placed) && from in nodes && nodes[from].Link? && from != dst && from != []
    requires from[0] != ARCHIVE && dst in nodes && dst != [] && !nodes[dst].Dir? && (placed ==> IsLinkPlace(dst))
    requires from[0] == dst[0]
    ensures Fits((nodes - {from})[dst := nodes[from]], published, placed)
  {
    var removed := nodes - {from};
    forall q | q in nodes && from <= q ensures q == from {
      AncestorsExist(nodes, from, q);
    }
    GoodAfterRemoving(nodes, from, published, placed);
    assert IsLink(nodes, from) ==> IsIntact(removed, nodes[from].id, published);
    GoodAfterSetting(removed, dst, nodes[from], published, placed);
  }

  /** Dropping the temporary directory removes it with what it contains, as far as that succeeds. */
  method CleanUp(fs: FileSystem, temp: Path, ghost dst: Path, ghost published: set<Path>, ghost placed: bool)
    requires Fits(fs.nodes, published, placed) && OnlyLinkBelow(fs.nodes, temp) && temp != [] && temp[0] != ARCHIVE
    requires dst in fs.nodes && !(temp <= dst)
    modifies fs
    ensures Kept(fs, published, placed) && SameElsewhere(fs.nodes, old(fs.nodes), temp, temp)
    ensures IsThere(fs.trace, |old(fs.trace)|, dst)
    ensures (!fs.failed ==> fs.nodes == old(fs.nodes) - {temp, temp + ["link"]}) && (old(fs.failed) ==> fs.failed)
  {
    ghost var before := fs.nodes;
    var from := temp + ["link"];
    SameWithout(before, {}, temp);
    if from in fs.nodes {
      LinkIsLeaf(fs.nodes, temp);
      SameWithout(before, {from}, temp);
      var ok := RemoveOne(fs, from, published, placed);
      if !ok {
        return;
      }
    }
    EmptyIsLeaf(fs.nodes, before, temp);
    ghost var middle := fs.nodes;
    RemoveEmpty(fs, temp, dst, published, placed);
    SameTwice(fs.nodes, middle, before, temp, temp);
  }

  method RemoveEmpty(fs: FileSystem, temp: Path, ghost dst: Path, ghost published: set<Path>, ghost placed: bool)
    requires Fits(fs.nodes, published, placed) && IsLeaf(fs.nodes, temp) && temp != [] && temp[0] != ARCHIVE
    requires dst in fs.nodes && dst != temp
    modifies fs
    ensures Kept(fs, published, placed) && SameElsewhere(fs.nodes, old(fs.nodes), temp, temp)
    ensures IsThere(fs.trace, |old(fs.trace)|, dst)
    ensures (!fs.failed ==> fs.nodes == old(fs.nodes) - {temp}) && (old(fs.failed) ==> fs.failed)
  {
    SameWithout(fs.nodes, {temp}, temp);
    var _ := RemoveOne(fs, temp, published, placed);
  }

  lemma {:induction false} EmptyIsLeaf(now: Nodes, before: Nodes, temp: Path)
    requires OnlyLinkBelow(before, temp) && now == before - {temp + ["link"]}
    ensures IsLeaf(now, temp) && now[temp] == before[temp]
  {
    assert temp != temp + ["link"];
  }

  lemma {:induction false} SameWithout(nodes: Nodes, gone: set<Path>, temp: Path)
    requires forall p :: p in gone ==> temp <= p
    ensures SameElsewhere(nodes - gone, nodes, temp, temp)
    ensures SameElsewhere(nodes, nodes, temp, temp)
  {
  }

  lemma {:induction false} LinkIsLeaf(nodes: Nodes, temp: Path)
    requires OnlyLinkBelow(nodes, temp) && temp + ["link"] in nodes
    ensures IsLeaf(nodes, temp + ["link"])
  {
    forall q | q in nodes && temp + ["link"] <= q ensures q == temp + ["link"] {
      assert temp <= q;
    }
  }

  // ---------------------------------------------------------------------------------------------
  // Publishing an archive

  /** `published` lists exactly the content for the archive, of which nothing exists yet. */
  ghost predicate IsFreshArchive(nodes: Nodes, id: string, content: Nodes, published: set<Path>) {
    && (forall q :: q in nodes ==> !(Archive(id) <= q))
    && (forall q :: Archive(id) <= q ==> (q in published <==> q[2..] in content))
  }

  /** A directory tree that may be published, and a place for the link to it. */
  ghost predicate IsPublishable(content: Nodes, path: Path, suffix: string) {
    && IsTree(content) && [] in content && content[[]].Dir?
    && |path| >= 2 && path[0] != ARCHIVE && '.' !in suffix
  }

  /** The archive bucket and the directory of the link can be there, and the link can be made. */
  ghost predicate CanPersist(nodes: Nodes, path: Path, suffix: string)
    requires path != []
  {
    CanCreate(nodes, [ARCHIVE]) && CanReach(nodes, path, suffix)
  }

  /** Moves a directory into the archive bucket, then links to it from `path`. */
  method Persist(fs: FileSystem, id: string, content: Nodes, path: Path, suffix: string, ghost published: set<Path>,
                 ghost placed: bool)
    returns (ok: bool)
    requires Fits(fs.nodes, published, placed) && IsPublishable(content, path, suffix)
    requires IsFreshArchive(fs.nodes, id, content, published) && (placed ==> IsLinkPlace(path))
    modifies fs
    ensures Kept(fs, published, placed)
    ensures ok ==> IsLinkTo(fs.nodes, path, id) && IsIntact(fs.nodes, id, published)
    ensures ok ==> CanPersist(old(fs.nodes), path, suffix)
    ensures !ok ==> fs.failed || !CanPersist(old(fs.nodes), path, suffix)
    ensures old(fs.failed) ==> fs.failed
    ensures ok && IsScanned(path) ==> IsReference(fs.nodes, path, id)
    ensures forall q :: q in old(fs.nodes) && q != path ==> q in fs.nodes && fs.nodes[q] == old(fs.nodes)[q]
    ensures forall q :: q in fs.nodes && |q| >= 2 && q[0] == ARCHIVE ==> q in old(fs.nodes) || q[1] == id
  {
    ghost var before := fs.nodes;
    ok := MoveArchive(fs, id, content, published, placed);
    if ok {
      SamePlaces(fs.nodes, before, path, suffix);
      ok := LinkTo(fs, id, path, suffix, published, placed);
    }
  }

  /** The first half of publishing. */
  method MoveArchive(fs: FileSystem, id: string, content: Nodes, ghost published: set<Path>, ghost placed: bool)
    returns (ok: bool)
    requires Fits(fs.nodes, published, placed) && IsTree(content) && [] in content
    requires IsFreshArchive(fs.nodes, id, content, published)
    modifies fs
    ensures Kept(fs, published, placed)
    ensures ok ==> IsIntact(fs.nodes, id, published)
    ensures SucceedsIf(CanCreate(old(fs.nodes), [ARCHIVE]), ok, old(fs.failed), fs.failed)
    ensures forall q :: q in fs.nodes && q !in old(fs.nodes) ==> if q == [] then fs.nodes[q].Dir? else q[0] == ARCHIVE
    ensures forall q :: q in old(fs.nodes) ==> q in fs.nodes && fs.nodes[q] == old(fs.nodes)[q]
    ensures forall q :: q in fs.nodes && |q| >= 2 && q[0] == ARCHIVE ==> q in old(fs.nodes) || q[1] == id
  {
    ok := CreateDirAll(fs, [ARCHIVE], published, placed);
    if ok {
      NothingBelow(fs.nodes, old(fs.nodes), id);
      GraftIsIntact(fs.nodes, id, content, published);
      ok := MoveTree(fs, Archive(id), content, published, placed);
    }
  }

  /** A new archive changes nothing for a link elsewhere. */
  lemma {:induction false} SamePlaces(now: Nodes, before: Nodes, path: Path, suffix: string)
    requires |path| >= 2 && path[0] != ARCHIVE
    requires forall q :: q in before ==> q in now && now[q] == before[q]
    requires forall q :: q in now && q !in before ==> if q == [] then now[q].Dir? else q[0] == ARCHIVE
    ensures CanCreate(now, Parent(path)) <==> CanCreate(before, Parent(path))
    ensures path in now <==> path in before
    ensures Parent(path) + [".tmp" + suffix] in now <==> Parent(path) + [".tmp" + suffix] in before
  {
    forall q | q in now && q <= Parent(path) && q != [] ensures q[0] == path[0] && q in before {
    }
  }

  method MoveTree(fs: FileSystem, p: Path, content: Nodes, ghost published: set<Path>, ghost placed: bool)
    returns (ok: bool)
    requires Fits(fs.nodes, published, placed) && IsTree(content) && p != [] && p[0] == ARCHIVE
    requires Parent(p) in fs.nodes && fs.nodes[Parent(p)].Dir? && forall q :: p <= q ==> q !in fs.nodes
    modifies fs
    ensures Kept(fs, published, placed) && fs.nodes == if ok then Grafted(old(fs.nodes), p, content) else old(fs.nodes)
    ensures fs.failed == (old(fs.failed) || !ok)
  {
    GoodAfterGrafting(fs.nodes, p, content, published, placed);
    ok := fs.MoveIn(p, content);
  }

  lemma {:induction false} NothingBelow(now: Nodes, before: Nodes, id: string)
    requires NoNewArchive(now, before) && forall q :: q in before ==> !(Archive(id) <= q)
    ensures forall q :: Archive(id) <= q ==> q !in now
    ensures Parent(Archive(id)) == [ARCHIVE]
  {
  }

  lemma {:induction false} GraftIsIntact(before: Nodes, id: string, content: Nodes, published: set<Path>)
    requires forall q :: Archive(id) <= q ==> (q in published <==> q[2..] in content)
    requires [] in content && forall q :: Archive(id) <= q ==> q !in before
    ensures IsIntact(Grafted(before, Archive(id), content), id, published)
    ensures forall q :: q in before ==>
      q in Grafted(before, Archive(id), content) && Grafted(before, Archive(id), content)[q] == before[q]
    ensures forall q :: q in Grafted(before, Archive(id), content) && q !in before ==> Archive(id) <= q && q[1] == id
  {
    assert Archive(id) <= Archive(id) && Archive(id)[2..] == [];
  }

  ghost predicate CanReach(nodes: Nodes, path: Path, suffix: string)
    requires path != []
  {
    && CanCreate(nodes, Parent(path))
    && (path in nodes ==> !nodes[path].Dir? && Parent(path) + [".tmp" + suffix] !in nodes)
  }

  /** The second half of publishing. */
  method LinkTo(fs: FileSystem, id: string, path: Path, suffix: string, ghost published: set<Path>, ghost placed: bool)
    returns (ok: bool)
    requires Fits(fs.nodes, published, placed) && IsIntact(fs.nodes, id, published)
    requires |path| >= 2 && path[0] != ARCHIVE && (placed ==> IsLinkPlace(path)) && '.' !in suffix
    modifies fs
    ensures Kept(fs, published, placed)
    ensures ok ==> IsLinkTo(fs.nodes, path, id) && IsIntact(fs.nodes, id, published)
    ensures ok ==> CanReach(old(fs.nodes), path, suffix)
    ensures !ok ==> fs.failed || !CanReach(old(fs.nodes), path, suffix)
    ensures old(fs.failed) ==> fs.failed
    ensures ok && IsScanned(path) ==> IsReference(fs.nodes, path, id)
    ensures forall q :: q in old(fs.nodes) && q != path ==> q in fs.nodes && fs.nodes[q] == old(fs.nodes)[q]
    ensures NoNewArchive(fs.nodes, old(fs.nodes))
  {
    ok := CreateDirAll(fs, Parent(path), published, placed);
    if ok {
      ok := CreateLink(fs, id, path, suffix, published, placed);
      assert Archive(id) <= Archive(id);
    }
  }

  // ---------------------------------------------------------------------------------------------
  // Runs

  datatype Op =
    | Publish(id: string, content: Nodes, path: Path, suffix: string)
    | RemovePackage(name: string, isMatch: Path -> bool)
    | PruneAll(ci: bool)

  /** Each archive gets an identifier that was never used before, and is listed in `published`. */
  ghost predicate AreFresh(ops: seq<Op>, nodes: Nodes, published: set<Path>) {
    && (forall i :: 0 <= i < |ops| && ops[i].Publish? ==>
         && IsPublishable(ops[i].content, ops[i].path, ops[i].suffix)
         && IsFreshArchive(nodes, ops[i].id, ops[i].content, published))
    && (forall i, j :: 0 <= i < j < |ops| && ops[i].Publish? && ops[j].Publish? ==> ops[i].id != ops[j].id)
  }

  /** Archives are still collected by an operation from `i` on. */
  predicate Collects(ops: seq<Op>, i: nat) {
    exists j :: i <= j < |ops| && !ops[j].Publish?
  }

  /** Every link that there is when archives are collected lies where the search finds it. */
  ghost predicate AreFindable(ops: seq<Op>, nodes: Nodes) {
    && (Collects(ops, 0) ==> IsPlaced(nodes))
    && (forall i :: 0 <= i < |ops| && ops[i].Publish? && Collects(ops, i) ==> IsLinkPlace(ops[i].path))
  }

  /** Every link resolves. */
  ghost predicate NothingDangles(nodes: Nodes) {
    forall p :: IsLink(nodes, p) ==> Archive(nodes[p].id) in nodes
  }

  lemma {:induction false} SoundMeansNothingDangles(nodes: Nodes, published: set<Path>)
    requires IsSound(nodes, published)
    ensures NothingDangles(nodes)
  {
    forall p | IsLink(nodes, p) ensures Archive(nodes[p].id) in nodes {
      assert IsIntact(nodes, nodes[p].id, published);
      assert Archive(nodes[p].id) <= Archive(nodes[p].id);
    }
  }

  /** What an operation is for: the state after it, if it succeeds. */
  ghost predicate HasEffect(op: Op, before: Nodes, after: Nodes, published: set<Path>) {
    match op
    case Publish(id, content, path, suffix) =>
      && IsLinkTo(after, path, id) && IsIntact(after, id, published)
      && forall q :: q in before && q != path ==> q in after && after[q] == before[q]
    case RemovePackage(name, isMatch) => WasRemoved(before, after, name, isMatch)
    case PruneAll(ci) => WasPruned(before, after, ci)
  }

  ghost predicate CanSucceed(op: Op, nodes: Nodes) {
    match op
    case Publish(id, content, path, suffix) => path != [] && CanPersist(nodes, path, suffix)
    case RemovePackage(name, isMatch) => CanGo(nodes, WithoutPackage(nodes, name, isMatch))
    case PruneAll(ci) => CanPrune(nodes, ci)
  }

  /** What an operation that is reported as a success, or not, has done. */
  ghost predicate IsOutcome(op: Op, before: Nodes, after: Nodes, published: set<Path>, ok: bool, failed: bool) {
    if ok then HasEffect(op, before, after, published) && CanSucceed(op, before)
    else failed || !CanSucceed(op, before)
  }

  ghost predicate AreOutcomes(ops: seq<Op>, states: seq<Nodes>, published: set<Path>, results: seq<bool>, failed: bool)
    requires |results| <= |ops| && |states| == |results| + 1
  {
    forall i :: 0 <= i < |results| ==> IsOutcome(ops[i], states[i], states[i + 1], published, results[i], failed)
  }

  lemma {:induction false} OneMoreOutcome(ops: seq<Op>, states: seq<Nodes>, published: set<Path>, results: seq<bool>,
                                          failed: bool, after: Nodes, ok: bool, failed': bool)
    requires |results| < |ops| && |states| == |results| + 1 && AreOutcomes(ops, states, published, results, failed)
    requires IsOutcome(ops[|results|], states[|results|], after, published, ok, failed') && (failed ==> failed')
    ensures AreOutcomes(ops, states + [after], published, results + [ok], failed')
  {
    var states', results' := states + [after], results + [ok];
    forall i | 0 <= i < |results'|
      ensures IsOutcome(ops[i], states'[i], states'[i + 1], published, results'[i], failed')
    {
      assert i < |results| ==> IsOutcome(ops[i], states[i], states[i + 1], published, results[i], failed);
    }
  }

  /**
   * Any sequence of operations, each of which may fail half-way without stopping the others. In no
   * state on the way does a link point to a missing archive, or to one that lacks a part. Each
   * operation that succeeds has its effect, and each that can succeed does unless a step fails.
   */
  method Run(fs: FileSystem, ops: seq<Op>, ghost published: set<Path>)
    returns (results: seq<bool>, ghost states: seq<Nodes>)
    requires IsSound(fs.nodes, published) && AreFresh(ops, fs.nodes, published) && AreFindable(ops, fs.nodes)
    modifies fs
    ensures Kept(fs, published, false)
    ensures forall i :: |old(fs.trace)| <= i < |fs.trace| ==> NothingDangles(fs.trace[i])
    ensures |results| == |ops| && |states| == |ops| + 1 && states[0] == old(fs.nodes) && states[|ops|] == fs.nodes
    ensures AreOutcomes(ops, states, published, results, fs.failed)
  {
    results, states := [], [fs.nodes];
    for i := 0 to |ops|
      invariant Kept(fs, published, false) && Fits(fs.nodes, published, Collects(ops, i))
      invariant forall j :: i <= j < |ops| && ops[j].Publish? ==>
        IsFreshArchive(fs.nodes, ops[j].id, ops[j].content, published)
      invariant |results| == i && |states| == i + 1 && states[0] == old(fs.nodes) && states[i] == fs.nodes
      invariant AreOutcomes(ops, states, published, results, fs.failed)
    {
      assert ops[i].Publish? ==> IsPublishable(ops[i].content, ops[i].path, ops[i].suffix);
      ghost var before, failed := fs.nodes, fs.failed;
      var ok := Perform(fs, ops[i], published, Collects(ops, i));
      OneMoreOutcome(ops, states, published, results, failed, fs.nodes, ok, fs.failed);
      results, states := results + [ok], states + [fs.nodes];
      forall j | i < j < |ops| && ops[j].Publish?
        ensures IsFreshArchive(fs.nodes, ops[j].id, ops[j].content, published)
      {
        StaysFresh(fs.nodes, before, ops[i], ops[j], published);
      }
    }
    forall i | |old(fs.trace)| <= i < |fs.trace| ensures NothingDangles(fs.trace[i]) {
      SoundMeansNothingDangles(fs.trace[i], published);
    }
  }

  /** New nodes in the archive bucket belong to the archive that the operation publishes. */
  ghost predicate OnlyArchiveOf(now: Nodes, before: Nodes, op: Op) {
    forall q :: q in now && |q| >= 2 && q[0] == ARCHIVE ==> q in before || (op.Publish? && q[1] == op.id)
  }

  lemma {:induction false} StaysFresh(now: Nodes, before: Nodes, op: Op, other: Op, published: set<Path>)
    requires OnlyArchiveOf(now, before, op) && other.Publish? && (op.Publish? ==> op.id != other.id)
    requires IsFreshArchive(before, other.id, other.content, published)
    ensures IsFreshArchive(now, other.id, other.content, published)
  {
    assert forall q :: Archive(other.id) <= q ==> |q| >= 2 && q[0] == ARCHIVE && q[1] == other.id;
  }

  method Perform(fs: FileSystem, op: Op, ghost published: set<Path>, ghost placed: bool) returns (ok: bool)
    requires Fits(fs.nodes, published, placed) && (op.Publish? || placed)
    requires op.Publish? ==>
      && IsPublishable(op.content, op.path, op.suffix) && IsFreshArchive(fs.nodes, op.id, op.content, published)
      && (placed ==> IsLinkPlace(op.path))
    modifies fs
    ensures Kept(fs, published, placed) && OnlyArchiveOf(fs.nodes, old(fs.nodes), op)
    ensures IsOutcome(op, old(fs.nodes), fs.nodes, published, ok, fs.failed) && (old(fs.failed) ==> fs.failed)
  {
    var summary := new Removal();
    match op {
      case Publish(id, content, path, suffix) => ok := Persist(fs, id, content, path, suffix, published, placed);
      case RemovePackage(name, isMatch) => ok := Remove(fs, name, isMatch, summary, published, true);
      case PruneAll(ci) => ok := Prune(fs, ci, summary, published, true);
    }
  }
}
